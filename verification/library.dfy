/**
 The library view component: its own state (a song list seeded from the
 bundled fixture, and the query controls), the `toggleSort` control, the
 add and delete handlers with their local fallback, and the whole chain of
 derived data a render shows.
 */
module MusicLibrary {
  import opened Seqs
  import opened Optional
  import opened Sorting
  import opened Songs
  import opened ViewEngine
  import opened Grouping
  import opened Stats

  /** The component's state. The song list is its own: the component takes
      no list from its host. */
  datatype Library = Library(
    songs: seq<Song>,
    searchTerm: string,
    sortField: SortField,
    sortOrder: SortOrder,
    groupBy: Option<GroupField>)

  /** The first render: the fixture list, no search, title ascending, no
      grouping. */
  function Init(seed: seq<Song>): (lib: Library)
    ensures lib.songs == seed && lib.searchTerm == ""
    ensures lib.sortField == Title && lib.sortOrder == Asc && lib.groupBy.None?
  {
    Library(seed, "", Title, Asc, None)
  }

  function Flip(o: SortOrder): SortOrder {
    if o == Asc then Desc else Asc
  }

  /** `toggleSort`: the current column flips its direction; another column
      becomes current and starts ascending. */
  function ToggleSort(lib: Library, field: SortField): (r: Library)
    ensures r.sortField == field
    ensures field == lib.sortField ==> r.sortOrder != lib.sortOrder
    ensures field != lib.sortField ==> r.sortOrder == Asc
    ensures r.songs == lib.songs && r.searchTerm == lib.searchTerm && r.groupBy == lib.groupBy
  {
    if lib.sortField == field then lib.(sortOrder := Flip(lib.sortOrder))
    else lib.(sortField := field, sortOrder := Asc)
  }

  /** Clicking the current column twice restores the state; clicking another
      column twice leaves it current and descending. */
  lemma ToggleSortTwice(lib: Library, field: SortField)
    ensures field == lib.sortField ==> ToggleSort(ToggleSort(lib, field), field) == lib
    ensures field != lib.sortField ==> ToggleSort(ToggleSort(lib, field), field) == lib.(sortField := field, sortOrder := Desc)
  {
  }

  /** Which handlers the host passed in. */
  datatype Callbacks = Callbacks(onAddSong: bool, onDeleteSong: bool)

  /** What a handler hands to the host instead of changing the local list. */
  datatype Outbound = NoCall | AddCall(input: SongInput) | DeleteCall(id: string)

  /** `handleAddSong`: forward the form to the host when it listens,
      otherwise append the song with the locally made id. */
  function HandleAdd(lib: Library, cb: Callbacks, form: SongInput, localId: string): (r: (Library, Outbound))
    ensures cb.onAddSong ==> r == (lib, AddCall(form))
    ensures !cb.onAddSong ==> r.1 == NoCall && r.0 == lib.(songs := lib.songs + [WithId(form, localId)])
  {
    if cb.onAddSong then (lib, AddCall(form))
    else (lib.(songs := lib.songs + [WithId(form, localId)]), NoCall)
  }

  /** `handleDeleteSong`: forward the id to the host when it listens,
      otherwise drop every song with the id. */
  function HandleDelete(lib: Library, cb: Callbacks, id: string): (r: (Library, Outbound))
    ensures cb.onDeleteSong ==> r == (lib, DeleteCall(id))
    ensures !cb.onDeleteSong ==> r.1 == NoCall && r.0.songs == WithoutId(lib.songs, id)
    ensures r.0.searchTerm == lib.searchTerm && r.0.sortField == lib.sortField
    ensures r.0.sortOrder == lib.sortOrder && r.0.groupBy == lib.groupBy
  {
    if cb.onDeleteSong then (lib, DeleteCall(id))
    else (lib.(songs := WithoutId(lib.songs, id)), NoCall)
  }

  /** Locally, adding a song with an unused id and deleting that id restores
      the list; deleting an id no song carries changes nothing. */
  lemma LocalAddThenDelete(lib: Library, form: SongInput, localId: string)
    requires localId !in Ids(lib.songs)
    ensures var none := Callbacks(false, false);
      HandleDelete(HandleAdd(lib, none, form, localId).0, none, localId).0 == lib
  {
    var song := WithId(form, localId);
    WithoutIdAppend(lib.songs, [song], localId);
    WithoutAbsentId(lib.songs, localId);
    FilterSingleton((s: Song) => s.id != localId, song);
  }

  lemma LocalDeleteAbsent(lib: Library, id: string)
    requires id !in Ids(lib.songs)
    ensures HandleDelete(lib, Callbacks(false, false), id).0 == lib
  {
    WithoutAbsentId(lib.songs, id);
  }

  /** Everything one render derives from the state. */
  datatype View = View(sorted: seq<Song>, groups: seq<Group>, stats: Stats, noSongsPanel: bool)

  /** `filteredSongs`, then `sortedSongs`, then `groupedSongs`; `stats` over
      the whole list; and the "no songs found" panel when the table has no
      keys. */
  function Render(lc: (string, string) -> int, lib: Library): (v: View)
    requires IsComparator(lc)
    ensures forall s :: s in v.sorted <==> s in lib.songs && SearchHits(s, lib.searchTerm)
    ensures multiset(Flatten(v.groups)) == multiset(v.sorted)
    ensures v.stats.totalSongs == |lib.songs|
    ensures v.noSongsPanel <==> lib.groupBy.Some? && v.sorted == []
  {
    var filtered := FilterSongs(lib.songs, lib.searchTerm);
    var sorted := SortSongs(lc, filtered, lib.sortField, lib.sortOrder);
    assert forall s :: s in sorted <==> s in filtered by {
      assert forall s :: s in sorted <==> multiset(sorted)[s] > 0;
    }
    var groups := GroupedSongs(sorted, lib.groupBy);
    NoGroupsIffGroupedAndEmpty(sorted, lib.groupBy);
    View(sorted, groups, ComputeStats(lib.songs), |groups| == 0)
  }

  /** The header counts describe the whole list: searching, sorting and
      grouping leave them as they are. */
  lemma StatsIgnoreQuery(lc: (string, string) -> int, lib: Library, term: string, field: SortField, order: SortOrder, groupBy: Option<GroupField>)
    requires IsComparator(lc)
    ensures Render(lc, lib.(searchTerm := term, sortField := field, sortOrder := order, groupBy := groupBy)).stats
         == Render(lc, lib).stats
  {
  }

  /** A song the user adds locally shows up in the next render unless the
      current search hides it. */
  lemma LocalAddIsShown(lc: (string, string) -> int, lib: Library, form: SongInput, localId: string)
    requires IsComparator(lc)
    requires SearchHits(WithId(form, localId), lib.searchTerm)
    ensures WithId(form, localId) in Render(lc, HandleAdd(lib, Callbacks(false, false), form, localId).0).sorted
  {
  }
}
