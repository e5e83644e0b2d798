/**
 The host's song store: a list loaded once from a persisted text slot,
 written back whole after every change once loading is over, and changed
 only through the add and delete callbacks handed to the library view. Each
 successful change announces itself with a `showNotification` request.

 The text codec is a parameter: `parse` stands for `JSON.parse` (`None`
 when it throws) and `stringify` for `JSON.stringify`.
 */
module CatalogStore {
  import opened Seqs
  import opened Optional
  import opened Songs
  import opened Notifications

  /** `songs`, `isLoading`, and the persisted slot (`None` when no item is
      stored). */
  datatype Store = Store(songs: seq<Song>, loading: bool, slot: Option<string>)

  /** The state before the mount effects run. */
  function Initial(slot: Option<string>): (st: Store)
    ensures st.songs == [] && st.loading && st.slot == slot
  {
    Store([], true, slot)
  }

  /** What the load effect puts into `songs`: an absent or empty slot and a
      text that does not parse leave the initial empty list; any parsed
      value is taken as it is. */
  function Loaded(slot: Option<string>, parse: string -> Option<seq<Song>>): (songs: seq<Song>)
    ensures slot.None? ==> songs == []
    ensures slot == Some("") ==> songs == []
    ensures slot.Some? && slot.value != "" && parse(slot.value).None? ==> songs == []
    ensures slot.Some? && slot.value != "" && parse(slot.value).Some? ==> songs == parse(slot.value).value
  {
    match slot
    case None => []
    case Some(text) =>
      if text == "" then []
      else match parse(text)
        case None => []
        case Some(v) => v
  }

  /** The save effect: once loading is over, the slot holds the whole list. */
  function Save(st: Store, stringify: seq<Song> -> string): (r: Store)
    ensures r.songs == st.songs && r.loading == st.loading
    ensures st.loading ==> r.slot == st.slot
    ensures !st.loading ==> r.slot == Some(stringify(st.songs))
  {
    if st.loading then st else st.(slot := Some(stringify(st.songs)))
  }

  /** Mounting: the load effect replaces the list and clears the loading
      flag, and the save effect that follows writes the list back. */
  function Mount(st: Store, parse: string -> Option<seq<Song>>, stringify: seq<Song> -> string): (r: Store)
    ensures r.songs == Loaded(st.slot, parse) && !r.loading
    ensures r.slot == Some(stringify(r.songs))
  {
    Save(Store(Loaded(st.slot, parse), false, st.slot), stringify)
  }

  /** The slot mirrors the list whenever loading is over. */
  ghost predicate Synced(st: Store, stringify: seq<Song> -> string) {
    !st.loading ==> st.slot == Some(stringify(st.songs))
  }

  /** `handleAddSong`: append the song with the fresh id, persist, and ask
      for a success toast naming the title. */
  function Add(st: Store, input: SongInput, id: string, stringify: seq<Song> -> string): (r: (Store, Request))
    ensures r.0.songs == st.songs + [WithId(input, id)]
    ensures r.0.loading == st.loading
    ensures r.1 == Request("Song \"" + input.title + "\" added successfully!", Some("success"))
  {
    var song := WithId(input, id);
    (Save(st.(songs := st.songs + [song]), stringify),
     Request("Song \"" + song.title + "\" added successfully!", Some("success")))
  }

  /** Position of the first song with the id, or `|songs|` when none has it. */
  function IndexOfId(songs: seq<Song>, id: string): (i: nat)
    ensures i <= |songs|
    ensures i < |songs| ==> songs[i].id == id
    ensures forall j :: 0 <= j < i ==> songs[j].id != id
  {
    if songs == [] then 0
    else if songs[0].id == id then 0
    else 1 + IndexOfId(songs[1..], id)
  }

  /** `s` carries the id and no earlier song does. */
  ghost predicate FirstWithId(songs: seq<Song>, id: string, s: Song) {
    s.id == id && exists i :: 0 <= i < |songs| && songs[i] == s && (forall j :: 0 <= j < i ==> songs[j].id != id)
  }

  /** `songs.find(song => song.id === id)`: the first song with the id. */
  function Find(songs: seq<Song>, id: string): (r: Option<Song>)
    ensures r.None? <==> id !in Ids(songs)
    ensures r.Some? ==> FirstWithId(songs, id, r.value)
  {
    var i := IndexOfId(songs, id);
    if i < |songs| then
      assert songs[i] in songs;
      assert FirstWithId(songs, id, songs[i]) by {
        assert songs[i] == songs[i] && forall j :: 0 <= j < i ==> songs[j].id != id;
      }
      Some(songs[i])
    else
      assert forall s :: s in songs ==> s.id != id;
      None
  }

  /** `handleDeleteSong`: drop every song with the id, persist, and ask for
      a success toast naming the first such song, only when there was one. */
  function Delete(st: Store, id: string, stringify: seq<Song> -> string): (r: (Store, Option<Request>))
    ensures r.0.songs == WithoutId(st.songs, id)
    ensures r.0.loading == st.loading
    ensures r.1.None? <==> id !in Ids(st.songs)
    ensures r.1.Some? ==> r.1.value == Request("Song \"" + Find(st.songs, id).value.title + "\" deleted successfully!", Some("success"))
  {
    var found := Find(st.songs, id);
    var st' := Save(st.(songs := WithoutId(st.songs, id)), stringify);
    match found
    case None => (st', None)
    case Some(song) => (st', Some(Request("Song \"" + song.title + "\" deleted successfully!", Some("success"))))
  }

  /** The store only ever changes through these steps. */
  datatype Step = MountStep | AddStep(input: SongInput, id: string) | DeleteStep(id: string)

  /** Applies one step; the toast request it raises, if any, is dropped
      here (see `Add` and `Delete`). */
  function Apply(st: Store, step: Step, parse: string -> Option<seq<Song>>, stringify: seq<Song> -> string): Store {
    match step
    case MountStep => Mount(st, parse, stringify)
    case AddStep(input, id) => Add(st, input, id, stringify).0
    case DeleteStep(id) => Delete(st, id, stringify).0
  }

  /** Every step leaves the slot in sync with the list once loading is over,
      and nothing is written before the mount. */
  lemma StepKeepsSynced(st: Store, step: Step, parse: string -> Option<seq<Song>>, stringify: seq<Song> -> string)
    requires Synced(st, stringify)
    ensures Synced(Apply(st, step, parse, stringify), stringify)
    ensures st.loading && !step.MountStep? ==> Apply(st, step, parse, stringify).slot == st.slot
  {
  }

  /** Adding keeps ids distinct when the new id is unused. */
  lemma AddKeepsIdsDistinct(st: Store, input: SongInput, id: string, stringify: seq<Song> -> string)
    requires DistinctIds(st.songs) && id !in Ids(st.songs)
    ensures DistinctIds(Add(st, input, id, stringify).0.songs)
  {
    var songs := Add(st, input, id, stringify).0.songs;
    forall i, j | 0 <= i < j < |songs|
      ensures songs[i].id != songs[j].id
    {
      if j == |st.songs| {
        assert songs[i] == st.songs[i] && songs[i] in st.songs;
      } else {
        assert songs[i] == st.songs[i] && songs[j] == st.songs[j];
      }
    }
  }

  /** Deleting an id no song carries changes nothing and announces nothing. */
  lemma DeleteAbsent(st: Store, id: string, stringify: seq<Song> -> string)
    requires id !in Ids(st.songs) && Synced(st, stringify)
    ensures Delete(st, id, stringify) == (st, None)
  {
    WithoutAbsentId(st.songs, id);
  }

  /** Adding a song and deleting its fresh id restores the store, slot
      included. */
  lemma AddThenDelete(st: Store, input: SongInput, id: string, stringify: seq<Song> -> string)
    requires id !in Ids(st.songs) && Synced(st, stringify)
    ensures Delete(Add(st, input, id, stringify).0, id, stringify).0 == st
  {
    var song := WithId(input, id);
    var added := Add(st, input, id, stringify).0;
    assert added.songs == st.songs + [song];
    WithoutIdAppend(st.songs, [song], id);
    WithoutAbsentId(st.songs, id);
    assert WithoutId([song], id) == [] by {
      FilterSingleton((s: Song) => s.id != id, song);
    }
    assert WithoutId(added.songs, id) == st.songs;
    var r := Delete(added, id, stringify).0;
    assert r.songs == st.songs && r.loading == st.loading;
    assert r == Save(added.(songs := st.songs), stringify);
  }

  /** The delete toast of a freshly added song names that song. */
  lemma DeleteAfterAddAnnounces(st: Store, input: SongInput, id: string, stringify: seq<Song> -> string)
    requires id !in Ids(st.songs)
    ensures var r := Delete(Add(st, input, id, stringify).0, id, stringify).1;
      r == Some(Request("Song \"" + input.title + "\" deleted successfully!", Some("success")))
  {
    var songs := st.songs + [WithId(input, id)];
    forall k | 0 <= k < |st.songs|
      ensures songs[k].id != id
    {
      assert songs[k] == st.songs[k] && st.songs[k] in st.songs;
    }
    assert songs[|st.songs|].id == id;
    assert IndexOfId(songs, id) == |st.songs|;
  }

  /** A text codec whose output is never empty and parses back. */
  ghost predicate RoundTrips(parse: string -> Option<seq<Song>>, stringify: seq<Song> -> string) {
    forall songs :: stringify(songs) != "" && parse(stringify(songs)) == Some(songs)
  }

  /** What was saved is what the next mount loads. */
  lemma SaveThenMount(st: Store, parse: string -> Option<seq<Song>>, stringify: seq<Song> -> string)
    requires RoundTrips(parse, stringify) && !st.loading && Synced(st, stringify)
    ensures Mount(Initial(st.slot), parse, stringify).songs == st.songs
  {
  }

  /** A slot that does not parse is replaced by an empty list on mount: the
      stored text is lost. */
  lemma UnparsableSlotIsOverwritten(text: string, parse: string -> Option<seq<Song>>, stringify: seq<Song> -> string)
    requires text != "" && parse(text).None?
    ensures Mount(Initial(Some(text)), parse, stringify) == Store([], false, Some(stringify([])))
  {
  }
}
