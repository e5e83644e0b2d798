# Music library: a Dafny model of its view engine, song store and toasts

This project models the logic under the React markup of a small music
library split into two front-ends:

- **The library view** (`MusicLibrary`, a remotely loaded module). It keeps
  its own song list and derives each render from it:
  - a case-insensitive search filter;
  - a stable sort by title, artist, album or year, ascending or descending;
  - grouping by album, artist or genre, or one "All Songs" group;
  - song, genre and artist counts for the header.

  It also has the `toggleSort` column control, and add and delete handlers.
  These forward to the host when the host passed callbacks, and otherwise
  change the local list.
- **The host's song store** (`MusicLibraryWrapper`).
  - On mount it loads a list from a persisted text slot.
  - It writes the whole list back after every change, once loading is over.
  - It appends songs with fresh ids and deletes by id.
  - Each successful change raises a `showNotification` request.
  - It shows nothing to a signed-out user.
- **The toast list** (`NotificationSystem`).
  - Published entries get a fresh id and a type that defaults to `info`.
  - Each entry schedules its own removal, and the user may close it earlier.
  - Each type maps to a style and an icon.
  - Nothing is drawn while the list is empty.

The model is functional: immutable records, and pure functions over `seq`
and `map`. Each source operation is one function. The properties are
stated as postconditions and as lemmas that relate operations to one
another:

- a permutation of the input;
- a stable order;
- a partition into groups;
- count tables against a multiset reference;
- add/delete and publish/expire round trips;
- invariants kept by every step.

Files (one module each):

| file | module | contents |
|---|---|---|
| `options.dfy` | `Optional` | `Option` |
| `seqs.dfy` | `Seqs` | order-preserving filter and its laws |
| `sorting.dfy` | `Sorting` | comparator laws, stable insertion sort |
| `text.dfy` | `Text` | lower-casing, `includes`, a code-point order |
| `songs.dfy` | `Songs` | the song record, query vocabulary, removal by id |
| `view.dfy` | `ViewEngine` | search filter and column sort |
| `grouping.dfy` | `Grouping` | `groupedSongs`, as written and corrected |
| `stats.dfy` | `Stats` | the header counters |
| `library.dfy` | `MusicLibrary` | component state, handlers, one render |
| `notifications.dfy` | `Notifications` | the toast tray |
| `catalog.dfy` | `CatalogStore` | the host's store |
| `host.dfy` | `HostPage` | sign-in gate, remote module states, hosted view |
| `scenarios.dfy` | `Scenarios` | worked examples on songs of the bundled fixture |

### Parameters that stand in for the environment

- **Collation.** `localeCompare` is a parameter `lc` that must be a
  consistent comparator. The sign flips when the arguments are swapped,
  and "at most equal" is transitive. `Text.CodePointCompare` is one such
  order, which shows that the requirement can be met.
- **Lower-casing.** `toLowerCase` lower-cases the ASCII letters only.
- **Ids.** `Date.now()` and `Math.random()` ids become a caller-supplied
  id. Where the source relies on uniqueness, the id must be unused.
- **Timers.** The five-second `setTimeout` becomes an explicit `Expire`
  event. The tray records the pending timers.
- **Storage.** `localStorage` is the `slot` field of the store.
  `JSON.parse` is a parameter that returns `None` where it would throw.
  `JSON.stringify` is a parameter too.
- **Auth and the remote module.** Sign-in state and the remote module's
  resolution are inputs of `HostPage.RenderWrapper`.

### Behaviour worth knowing

- **Load validation.** Load does no structural validation: whatever
  `JSON.parse` returns becomes the list. An empty string in the slot counts
  as absent.
- **Toast timers.** Closing a toast does not cancel its timer. The timer
  later filters by an id that is already gone, which changes nothing.
- **Order of the gate and the effects.** Within the wrapper the sign-in
  gate comes after the hooks, so if the wrapper is mounted while signed
  out its load and save effects still run. The app mounts it inside
  `AuthGuard`, which is not part of this model.
- **Persistence timing.** Persistence is an effect that runs after the state
  change. The model applies it as part of each step (`Save`). While
  loading, nothing is written.

## Model

| member | source | states |
|---|---|---|
| Text.ToLower | music-library-mf/src/components/MusicLibrary.tsx:44-47 | the lowered text has the same length, and each character is the ASCII-lowered input character |
| Text.Includes | music-library-mf/src/components/MusicLibrary.tsx:44-47 | `hay.includes(needle)` holds exactly when `needle` occurs at some position of `hay` |
| Text.CodePointIsComparator | music-library-mf/src/components/MusicLibrary.tsx:56-60 | code-point lexicographic order meets the comparator laws the sort needs, so a collation for `localeCompare` exists |
| ViewEngine.FilterSongs | music-library-mf/src/components/MusicLibrary.tsx:42-49 | a song is kept exactly when the lowered term is a substring of its lowered title, artist, album or genre; kept songs keep their multiplicity |
| ViewEngine.Matches | music-library-mf/src/components/MusicLibrary.tsx:43-48 | the search test holds exactly when the lowered term occurs in the lowered title, artist, album or genre |
| ViewEngine.FilterSongsKeepsOrder | music-library-mf/src/components/MusicLibrary.tsx:42-49 | filtering distributes over concatenation, so survivors keep list order |
| ViewEngine.EmptyTermKeepsAll | music-library-mf/src/components/MusicLibrary.tsx:42-49 | an empty search term keeps every song, in order |
| ViewEngine.CompareKeys | music-library-mf/src/components/MusicLibrary.tsx:52-67 | keys of different types compare equal; numbers compare by value, reversed for descending, and tie exactly when equal |
| ViewEngine.SongComparator | music-library-mf/src/components/MusicLibrary.tsx:52-67 | the year column orders by numeric year; a text column compares its values with the collation, with the arguments swapped for descending |
| ViewEngine.SongComparatorIsComparator | music-library-mf/src/components/MusicLibrary.tsx:52-67 | for a consistent collation, the column comparator is consistent for every column and direction |
| ViewEngine.SortSongs | music-library-mf/src/components/MusicLibrary.tsx:51-68 | the result is a permutation of the filtered list, ordered by the column, and songs the column ties keep their filtered order |
| ViewEngine.SortSongsIdempotent | music-library-mf/src/components/MusicLibrary.tsx:51-68 | sorting the sorted list again changes nothing |
| Sorting.Sort | music-library-mf/src/components/MusicLibrary.tsx:52 | `sort` yields a permutation; for a consistent comparator it is ordered and each tie class keeps its input order |
| Sorting.SortAllTied | music-library-mf/src/components/MusicLibrary.tsx:52 | when the comparator ties every pair, the sort returns its input unchanged |
| Grouping.GroupedSongs | music-library-mf/src/components/MusicLibrary.tsx:70-81 | no field gives exactly one "All Songs" group holding the whole sorted list; a field gives the first-seen key table; either way the groups together are a permutation of the sorted list |
| Grouping.NoGroupsIffGroupedAndEmpty | music-library-mf/src/components/MusicLibrary.tsx:441 | the table has no keys exactly when a grouping field is set and the sorted list is empty |
| Grouping.AddToGroup | music-library-mf/src/components/MusicLibrary.tsx:74-79 | a new key adds a one-song group at the end; a known key appends the song to that group only |
| Grouping.AddToGroupFlatten | music-library-mf/src/components/MusicLibrary.tsx:74-79 | one step adds exactly that song to the concatenated groups |
| Grouping.GroupBy | music-library-mf/src/components/MusicLibrary.tsx:73-80 | there are never more groups than songs, and the table is empty only for the empty list |
| Grouping.GroupByInvariant | music-library-mf/src/components/MusicLibrary.tsx:73-80 | keys are exactly the list's field values, in first-seen order, and each group is exactly the songs with its key, in list order |
| Grouping.GroupByIsPermutation | music-library-mf/src/components/MusicLibrary.tsx:73-80 | the concatenation of all groups is a permutation of the grouped list |
| Grouping.GroupByKeysDistinct | music-library-mf/src/components/MusicLibrary.tsx:73-80 | no two groups share a key |
| Grouping.GroupByPlacesEverySong | music-library-mf/src/components/MusicLibrary.tsx:74-78 | every song is in the group keyed by its field value |
| Grouping.GroupByNoEmptyGroup | music-library-mf/src/components/MusicLibrary.tsx:75-78 | no group is empty |
| Grouping.GroupsKeepSortedOrder | music-library-mf/src/components/MusicLibrary.tsx:73-80 | each group of a sorted list is itself sorted |
| Grouping.AddToGroupAsWritten | music-library-mf/src/components/MusicLibrary.tsx:75-78 | with the `{}` accumulator a step throws exactly when the key is not yet an own key but is an inherited name |
| Grouping.GroupByAsWritten | music-library-mf/src/components/MusicLibrary.tsx:73-80 | the `{}` table throws only when some song's field value is an inherited name, and otherwise has at most one group per song |
| Grouping.GroupByAsWrittenAgrees | music-library-mf/src/components/MusicLibrary.tsx:73-80 | the `{}` table throws exactly when some field value is an inherited name, and otherwise equals the own-key table |
| Grouping.InheritedKeyThrows | music-library-mf/src/components/MusicLibrary.tsx:75-78 | a song whose album is "constructor", grouped by album, makes the table throw |
| Stats.Tally | music-library-mf/src/components/MusicLibrary.tsx:87-88 | a missing key counts from zero; the tallied key goes up by one; no other key changes |
| Stats.CountTable | music-library-mf/src/components/MusicLibrary.tsx:87-88 | the tallied table's keys are exactly the values that occur, and no count is zero |
| Stats.CountTableCounts | music-library-mf/src/components/MusicLibrary.tsx:87-88 | the tally's keys are the values that occur, and each maps to its number of occurrences |
| Stats.ComputeStats | music-library-mf/src/components/MusicLibrary.tsx:83-96 | `totalSongs` is the list length; the genre and artist tables count their field over the whole list |
| Stats.StatsTotals | music-library-mf/src/components/MusicLibrary.tsx:84-89 | the counts in each table add up to the number of songs |
| Stats.DistinctGenreCount | music-library-mf/src/components/MusicLibrary.tsx:192 | the "genres" figure is the number of distinct genres in the list |
| MusicLibrary.Init | music-library-mf/src/components/MusicLibrary.tsx:27-31 | the first state holds the seed list (the bundled fixture) with no search, title ascending, and no grouping |
| MusicLibrary.ToggleSort | music-library-mf/src/components/MusicLibrary.tsx:128-135 | the current column flips direction; another column becomes current and ascending; nothing else changes |
| MusicLibrary.ToggleSortTwice | music-library-mf/src/components/MusicLibrary.tsx:128-135 | two clicks on the current column restore the state; two on another leave it current and descending |
| MusicLibrary.HandleAdd | music-library-mf/src/components/MusicLibrary.tsx:98-108 | with a host callback, the form goes to the host and the local list is untouched; without one, exactly one song is appended |
| MusicLibrary.HandleDelete | music-library-mf/src/components/MusicLibrary.tsx:120-126 | with a host callback, the id goes to the host and the local list is untouched; without one, every song with the id goes |
| MusicLibrary.LocalAddThenDelete | music-library-mf/src/components/MusicLibrary.tsx:98-126 | locally adding a song with an unused id and deleting that id restores the state |
| MusicLibrary.LocalDeleteAbsent | music-library-mf/src/components/MusicLibrary.tsx:124 | locally deleting an id no song carries changes nothing |
| MusicLibrary.Render | music-library-mf/src/components/MusicLibrary.tsx:42-96 | the shown songs are exactly the matching songs; the groups together are a permutation of them; the stats cover the whole list; the "no songs" panel shows exactly when grouped and empty |
| MusicLibrary.StatsIgnoreQuery | music-library-mf/src/components/MusicLibrary.tsx:83-96 | search, sort and grouping do not change the header counts |
| MusicLibrary.LocalAddIsShown | music-library-mf/src/components/MusicLibrary.tsx:107 | a locally added song is shown next render unless the search hides it |
| Songs.WithId | src/components/MusicLibraryWrapper.tsx:63-66 | the stored record carries the form's fields and the given id |
| Songs.WithoutId | src/components/MusicLibraryWrapper.tsx:83 | exactly the songs with a different id remain, and the id is gone |
| Songs.WithoutIdAppend | src/components/MusicLibraryWrapper.tsx:83 | removal by id distributes over concatenation, so the others keep their order |
| Songs.WithoutIdIdempotent | src/components/MusicLibraryWrapper.tsx:83 | removing an id twice is removing it once |
| CatalogStore.Initial | src/components/MusicLibraryWrapper.tsx:39-40 | the store starts empty and loading, with the slot as stored |
| CatalogStore.Loaded | src/components/MusicLibraryWrapper.tsx:43-53 | an absent or empty slot, or text that does not parse, gives the empty list; parsed text gives its value unchecked |
| CatalogStore.Save | src/components/MusicLibraryWrapper.tsx:56-60 | while loading the slot is untouched; afterwards it holds the whole current list |
| CatalogStore.Mount | src/components/MusicLibraryWrapper.tsx:43-60 | after mounting, the list is the loaded one, loading is over and the slot holds that list |
| CatalogStore.Add | src/components/MusicLibraryWrapper.tsx:62-78 | exactly one song with the form's fields and the fresh id is appended, and one `success` request reads `Song "<title>" added successfully!` |
| CatalogStore.Find | src/components/MusicLibraryWrapper.tsx:81 | finds nothing exactly when no song has the id; otherwise the first song with the id |
| CatalogStore.Delete | src/components/MusicLibraryWrapper.tsx:80-95 | every song with the id goes; a `success` request naming the first such song is raised exactly when one existed |
| CatalogStore.StepKeepsSynced | src/components/MusicLibraryWrapper.tsx:56-60 | every step keeps the slot equal to the list once loading is over, and only the mount writes while loading |
| CatalogStore.AddKeepsIdsDistinct | src/components/MusicLibraryWrapper.tsx:62-68 | adding with an unused id keeps ids pairwise distinct |
| CatalogStore.DeleteAbsent | src/components/MusicLibraryWrapper.tsx:81-94 | deleting an id no song has changes nothing and raises no request |
| CatalogStore.AddThenDelete | src/components/MusicLibraryWrapper.tsx:62-83 | adding a song and deleting its fresh id restores the store, slot included |
| CatalogStore.DeleteAfterAddAnnounces | src/components/MusicLibraryWrapper.tsx:86-93 | deleting a freshly added song's id announces that song's title |
| CatalogStore.SaveThenMount | src/components/MusicLibraryWrapper.tsx:43-60 | with a codec that parses its own output, the next mount loads what was saved |
| CatalogStore.UnparsableSlotIsOverwritten | src/components/MusicLibraryWrapper.tsx:45-58 | a slot that does not parse loads as empty and is overwritten with the empty list |
| HostPage.RenderWrapper | src/components/MusicLibraryWrapper.tsx:97-120 | nothing is drawn exactly when signed out; otherwise a spinner while the module is pending, the fallback panel on failure, and once resolved the remote view element, handed the store's list as its (unused) `songs` prop |
| HostPage.HostedAdd | src/components/MusicLibraryWrapper.tsx:62-68 | a hosted add leaves the view's own list as it was and appends the song to the store |
| HostPage.HostedViewAsWritten | music-library-mf/src/components/MusicLibrary.tsx:16-27 | as written, the hosted view shows the matching songs of the view's own list and counts that list, whatever list the host passes |
| HostPage.HostedView | src/components/MusicLibraryWrapper.tsx:113-118 | corrected, the hosted view shows exactly the matching songs of the host's list and counts that list |
| HostPage.HostedAddIsInvisible | music-library-mf/src/components/MusicLibrary.tsx:16-27 | as written, a hosted add is stored but never appears in the view, whatever the search |
| HostPage.HostedDeleteOfShownSongIsLost | src/components/MusicLibraryWrapper.tsx:80-95 | as written, deleting a shown song the host does not hold changes nothing and raises no request |
| HostPage.HostedViewFollowsStore | src/components/MusicLibraryWrapper.tsx:113-118 | corrected, the view shows an added song unless the search hides it, and shows no song with a deleted id |
| Notifications.KindOf | src/components/NotificationSystem.tsx:15 | a missing type becomes `info`; a given type is kept |
| Notifications.Publish | src/components/NotificationSystem.tsx:14-25 | exactly one entry with the fresh id, the message and the type is appended; earlier entries are kept; its timer is scheduled |
| Notifications.Dismiss | src/components/NotificationSystem.tsx:35-37 | exactly the entries with other ids remain, and the pending timers stay |
| Notifications.Expire | src/components/NotificationSystem.tsx:23-25 | the entries are filtered as by dismissal, and exactly one pending timer for the id is spent |
| Notifications.PublishValid | src/components/NotificationSystem.tsx:14-25 | publishing with a fresh id keeps ids distinct and every shown entry with a pending timer |
| Notifications.DismissValid | src/components/NotificationSystem.tsx:35-37 | dismissal keeps the tray invariant |
| Notifications.ExpireValid | src/components/NotificationSystem.tsx:23-25 | expiry keeps the tray invariant |
| Notifications.IconFor | src/components/NotificationSystem.tsx:39-50 | success alone gets the tick; the three known kinds get a non-info glyph; every other kind gets exactly the blue info icon |
| Notifications.StylesFor | src/components/NotificationSystem.tsx:52-63 | reading the class string back gives the kind for success, error and warning, so their looks differ pairwise; every other kind gets exactly the blue info classes |
| Notifications.DismissKeepsOrder | src/components/NotificationSystem.tsx:36 | removal distributes over concatenation, so the others keep their order |
| Notifications.DismissAbsent | src/components/NotificationSystem.tsx:36 | removing an id nobody shows changes nothing |
| Notifications.DismissIdempotent | src/components/NotificationSystem.tsx:36 | removing an id twice is removing it once |
| Notifications.ExpireAfterDismiss | src/components/NotificationSystem.tsx:23-25 | the timer of an already closed entry leaves the list unchanged |
| Notifications.ExpireRemovesOnlyOwn | src/components/NotificationSystem.tsx:24 | expiry keeps every entry with another id |
| Notifications.PublishThenExpire | src/components/NotificationSystem.tsx:16-25 | publishing with a fresh id and letting it expire restores the tray |
| Notifications.Render | src/components/NotificationSystem.tsx:65-88 | nothing is drawn exactly when the list is empty; otherwise one card per entry, in order, with its style, icon and message |
| Notifications.PublishedIsRendered | src/components/NotificationSystem.tsx:69-78 | a just-published entry is drawn with its message and its type's style |
| Scenarios.ThreeYearsAscending | music-library-mf/src/components/MusicLibrary.tsx:62-63 | three songs listed newest first sort oldest first by year |
| Scenarios.FirstThreeByYear | music-library-mf/src/data/mockSongs.ts:4-30 | fixture songs 1, 2, 3 sorted by year ascending come out as 3, 2, 1 |
| Scenarios.TiedYearsKeepInputOrder | music-library-mf/src/data/mockSongs.ts:130-138 | songs 3 and 15 (both 1997) keep input order in both directions, so descending is not ascending reversed |
| Scenarios.FirstThreeByGenre | music-library-mf/src/data/mockSongs.ts:4-30 | songs 1-3 by genre give Bollywood [1, 2] then Patriotic [3] |
| Scenarios.FirstThreeStats | music-library-mf/src/data/mockSongs.ts:4-30 | songs 1-3 count Arijit Singh once and A.R. Rahman twice |
| Scenarios.AddAnnouncesTitle | src/components/MusicLibraryWrapper.tsx:71-77 | adding "Jai Ho" raises `Song "Jai Ho" added successfully!` as a success |
| Scenarios.DeleteUnknownIsSilent | src/components/MusicLibraryWrapper.tsx:81-94 | deleting id 15 from a store holding only song 1 changes nothing and raises nothing |
| Scenarios.UntypedToastIsInfo | src/components/NotificationSystem.tsx:15 | an untyped toast is stored as `info` and drawn in the info style and icon |

## Left out

- JSX markup, CSS classes beyond the toast styles, lucide icons, and React's hook, memo and Suspense mechanics: these are presentation only.
- `totalDuration` and its hours and minutes display (music-library-mf/src/components/MusicLibrary.tsx:86, 178): floating-point `parseFloat` arithmetic.
- The add form's own state (field values, `parseInt` of the year, the reset after submit, showing and hiding the form): UI state, not part of the modelled logic.
- Grouping.GroupedSongs: keys come out in plain first-seen order. `Object.entries` would list integer-like keys (an album called "1989") first, in ascending numeric order. JavaScript's key enumeration is not modelled.
- Grouping.GroupedSongs: the corrected own-key table is what the rest of the model uses. The plain-object behaviour for inherited names is modelled separately (`Grouping.GroupByAsWritten`), see Findings.
- Stats.ComputeStats: the count tables are true dictionaries. In the source, `acc.genres[g] || 0` on a plain object reads an inherited function for a genre such as "constructor", so that count is garbage rather than a number. This has the same root cause as the first finding. A genre or artist called "__proto__" is lost altogether: `acc.genres["__proto__"] || 0` reads `Object.prototype`, the `+ 1` makes a string, and assigning a non-object to `__proto__` creates no own key.
- Stats.DistinctGenreCount: counts every distinct genre. The source's `Object.keys(stats.genres).length` (music-library-mf/src/components/MusicLibrary.tsx:192), and the artists figure at line 206, show one fewer when some song's genre (or artist) is "__proto__", because no own key is created for it.
- CatalogStore.Loaded: a parsed value is assumed to be a song list. The source would adopt any JSON value (`null`, an object) as the list; such values are not represented.
- CatalogStore.SaveThenMount: assumes a codec that parses its own output. `JSON.stringify` maps a `NaN` year to `null`, which breaks that for a year typed as nothing. Years are unbounded integers here.
- Id generation (`Date.now()`, `Math.random()`): ids are parameters. The store's and the tray's round trips require the id to be unused, which the source gets from time plus randomness.
- `setTimeout`: wall-clock time is replaced by explicit `Expire` events. The model does not state that expiry happens five seconds later.
- The `showNotification` event bus: requests are return values of the store's operations, and publishing them into the tray is left to the caller.
- `React.lazy` with `import(...).catch(...)`: reduced to the three outcomes of `HostPage.RemoteModule`.
- Unicode lower-casing and locale collation: ASCII lower-casing, and an abstract consistent comparator with a code-point witness.
- The `useAuth` context, login page, layout and routing: they are not part of this model. Sign-in state is an input.

## Findings

| source | as written | input that shows it | evidently intended | confidence | as-written member | corrected member |
|---|---|---|---|---|---|---|
| music-library-mf/src/components/MusicLibrary.tsx:73-80 | The groups are collected in a plain `{}`. `groups[key]` also finds inherited properties, so the initialisation is skipped and `groups[key].push` throws a `TypeError`. | One song whose album is "constructor", grouped by album. | Group by own keys only, as `Object.create(null)` or a `Map` would. | not executed; high | Grouping.InheritedKeyThrows | Grouping.GroupByInvariant |
| music-library-mf/src/components/MusicLibrary.tsx:16-27 | The view declares no `songs` prop and always shows its own fixture-seeded list. The host's list, passed at src/components/MusicLibraryWrapper.tsx:115, is dropped. | A signed-in admin adds a song. The host stores and announces it, but the view never shows it. | The hosted view shows the host's list. | not executed; high | HostPage.HostedAddIsInvisible | HostPage.HostedViewFollowsStore |
