/**
 The host page that mounts the library view: the sign-in gate, the remote
 module's loading states, and how the host's store and the view's own list
 relate when the view runs hosted.
 */
module HostPage {
  import opened Seqs
  import opened Optional
  import opened Songs
  import opened Notifications
  import opened CatalogStore
  import opened MusicLibrary
  import opened Sorting
  import opened ViewEngine

  /** The state of the lazily imported remote module; a failed import
      resolves to the built-in "unavailable" panel. */
  datatype RemoteModule = Pending | Resolved | Failed

  datatype Screen = Blank | Spinner | RemoteLibrary(isAdmin: bool, songs: seq<Song>) | Unavailable

  /** The wrapper's output. Within the wrapper the gate comes after the
      hooks, so if the wrapper is mounted while signed out its load and save
      effects still run; only what is drawn depends on it. The app mounts
      the wrapper inside `AuthGuard`, which is not part of this model. */
  function RenderWrapper(signedIn: bool, isAdmin: bool, remote: RemoteModule, st: Store): (sc: Screen)
    ensures sc.Blank? <==> !signedIn
    ensures signedIn ==> (sc.Spinner? <==> remote == Pending)
    ensures signedIn && remote == Failed ==> sc == Unavailable
    ensures signedIn && remote == Resolved ==> sc == RemoteLibrary(isAdmin, st.songs)
  {
    if !signedIn then Blank
    else match remote
      case Pending => Spinner
      case Failed => Unavailable
      case Resolved => RemoteLibrary(isAdmin, st.songs)
  }

  /** The callbacks the host always passes. */
  const HostCallbacks: Callbacks := Callbacks(true, true)

  /** What the hosted view draws, as written: the view has no `songs` prop,
      so the list the host passes is dropped and the view derives everything
      from its own list. */
  function HostedViewAsWritten(lc: (string, string) -> int, lib: Library, hostSongs: seq<Song>): (v: View)
    requires IsComparator(lc)
    ensures forall s :: s in v.sorted <==> s in lib.songs && SearchHits(s, lib.searchTerm)
    ensures v.stats.totalSongs == |lib.songs|
  {
    MusicLibrary.Render(lc, lib)
  }

  /** The same, corrected: the view derives everything from the host's list. */
  function HostedView(lc: (string, string) -> int, lib: Library, hostSongs: seq<Song>): (v: View)
    requires IsComparator(lc)
    ensures forall s :: s in v.sorted <==> s in hostSongs && SearchHits(s, lib.searchTerm)
    ensures v.stats.totalSongs == |hostSongs|
  {
    MusicLibrary.Render(lc, lib.(songs := hostSongs))
  }

  /** One hosted add: the view forwards the form, the store appends the
      song, and the view's own list does not change. */
  function HostedAdd(lib: Library, st: Store, form: SongInput, id: string, stringify: seq<Song> -> string): (r: (Library, Store, Request))
    ensures r.0 == lib
    ensures r.1.songs == st.songs + [WithId(form, id)]
  {
    var (lib', call) := HandleAdd(lib, HostCallbacks, form, id);
    var (st', toast) := CatalogStore.Add(st, call.input, id, stringify);
    (lib', st', toast)
  }

  /** As written, an added song never appears in the hosted view, whatever
      the search, although the host stores it and announces it. */
  lemma HostedAddIsInvisible(lc: (string, string) -> int, lib: Library, st: Store, form: SongInput, id: string, stringify: seq<Song> -> string)
    requires IsComparator(lc) && id !in Ids(lib.songs)
    ensures var (lib', st', _) := HostedAdd(lib, st, form, id, stringify);
      WithId(form, id) in st'.songs && WithId(form, id) !in HostedViewAsWritten(lc, lib', st'.songs).sorted
  {
    var (lib', st', _) := HostedAdd(lib, st, form, id, stringify);
    assert st'.songs[|st.songs|] == WithId(form, id);
  }

  /** As written, deleting a song the hosted view shows does nothing when
      the host does not hold that id: no song goes and no toast is shown. */
  lemma HostedDeleteOfShownSongIsLost(lib: Library, st: Store, id: string, stringify: seq<Song> -> string)
    requires Synced(st, stringify) && id in Ids(lib.songs) && id !in Ids(st.songs)
    ensures var (lib', call) := HandleDelete(lib, HostCallbacks, id);
      lib' == lib && call == DeleteCall(id) && CatalogStore.Delete(st, call.id, stringify) == (st, None)
  {
    DeleteAbsent(st, id, stringify);
  }

  /** Corrected, the hosted view follows the store: an added song appears
      unless the search hides it, and after a delete no song with that id is
      drawn. */
  lemma HostedViewFollowsStore(lc: (string, string) -> int, lib: Library, st: Store, form: SongInput, id: string, stringify: seq<Song> -> string)
    requires IsComparator(lc)
    ensures var (lib', st', _) := HostedAdd(lib, st, form, id, stringify);
      SearchHits(WithId(form, id), lib.searchTerm) ==> WithId(form, id) in HostedView(lc, lib', st'.songs).sorted
    ensures var st' := CatalogStore.Delete(st, id, stringify).0;
      forall s :: s in HostedView(lc, lib, st'.songs).sorted ==> s.id != id
  {
    var (lib', st', _) := HostedAdd(lib, st, form, id, stringify);
    assert st'.songs[|st.songs|] == WithId(form, id);
  }
}
