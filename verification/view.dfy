/**
 The first two derivations of the library view: the search filter and the
 stable sort by one column, ascending or descending.
 */
module ViewEngine {
  import opened Seqs
  import opened Sorting
  import opened Text
  import opened Songs

  // ---------------------------------------------------------------- filter

  /** The search test applied to one song: the lower-cased term occurs in the
      lower-cased title, artist, album or genre. */
  function Matches(s: Song, term: string): (b: bool)
    ensures b <==> SearchHits(s, term)
  {
    var t := ToLower(term);
    Includes(ToLower(s.title), t) || Includes(ToLower(s.artist), t)
    || Includes(ToLower(s.album), t) || Includes(ToLower(s.genre), t)
  }

  /** The same test, stated with the substring relation itself. */
  ghost predicate SearchHits(s: Song, term: string) {
    var t := ToLower(term);
    IsSubstring(t, ToLower(s.title)) || IsSubstring(t, ToLower(s.artist))
    || IsSubstring(t, ToLower(s.album)) || IsSubstring(t, ToLower(s.genre))
  }

  /** `filteredSongs`: the songs that match the search term, in list order. */
  function FilterSongs(songs: seq<Song>, term: string): (r: seq<Song>)
    ensures forall s :: s in r <==> s in songs && SearchHits(s, term)
    ensures forall s :: multiset(r)[s] == if SearchHits(s, term) then multiset(songs)[s] else 0
  {
    FilterMultiset(s => Matches(s, term), songs);
    Filter(s => Matches(s, term), songs)
  }

  /** Filtering keeps list order: it distributes over concatenation, and a
      single song is kept exactly when it matches. */
  lemma FilterSongsKeepsOrder(a: seq<Song>, b: seq<Song>, term: string, s: Song)
    ensures FilterSongs(a + b, term) == FilterSongs(a, term) + FilterSongs(b, term)
    ensures FilterSongs([s], term) == if SearchHits(s, term) then [s] else []
  {
    FilterAppend(s => Matches(s, term), a, b);
    FilterSingleton(s => Matches(s, term), s);
  }

  /** An empty search term keeps every song. */
  lemma EmptyTermKeepsAll(songs: seq<Song>)
    ensures FilterSongs(songs, "") == songs
  {
    forall i | 0 <= i < |songs|
      ensures Matches(songs[i], "")
    {
      EmptyIsIncluded(ToLower(songs[i].title));
    }
    FilterAll(s => Matches(s, ""), songs);
  }

  // ------------------------------------------------------------------ sort

  /** The value `song[sortField]`, tagged with its JavaScript type. */
  datatype SortKey = Text(text: string) | Number(number: int)

  function KeyOf(s: Song, field: SortField): (k: SortKey)
    ensures k.Number? <==> field == Year
  {
    match field
    case Title => Text(s.title)
    case Artist => Text(s.artist)
    case Album => Text(s.album)
    case Year => Number(s.year)
  }

  /** The comparator handed to `sort`: strings by the collation `lc`,
      numbers by subtraction, arguments swapped for descending order, and 0
      when the two keys have different types. */
  function CompareKeys(lc: (string, string) -> int, order: SortOrder, x: SortKey, y: SortKey): (r: int)
    ensures x.Text? != y.Text? ==> r == 0
    ensures x.Number? && y.Number? ==>
      (r <= 0 <==> if order == Asc then x.number <= y.number else y.number <= x.number)
    ensures x.Number? && y.Number? ==> (r == 0 <==> x.number == y.number)
  {
    match (x, y)
    case (Text(a), Text(b)) => if order == Asc then lc(a, b) else lc(b, a)
    case (Number(a), Number(b)) => if order == Asc then a - b else b - a
    case _ => 0
  }

  /** The comparator for one column: the year column by numeric year,
      the text columns by the collation applied to that column, with the
      arguments swapped for descending order. */
  function SongComparator(lc: (string, string) -> int, field: SortField, order: SortOrder): (cmp: (Song, Song) -> int)
    ensures field == Year ==> forall a, b ::
      (cmp(a, b) <= 0 <==> if order == Asc then a.year <= b.year else b.year <= a.year)
    ensures field != Year && order == Asc ==> forall a, b ::
      cmp(a, b) == lc(KeyOf(a, field).text, KeyOf(b, field).text)
    ensures field != Year && order == Desc ==> forall a, b ::
      cmp(a, b) == lc(KeyOf(b, field).text, KeyOf(a, field).text)
  {
    (a: Song, b: Song) => CompareKeys(lc, order, KeyOf(a, field), KeyOf(b, field))
  }

  lemma CompareKeysAntisymmetric(lc: (string, string) -> int, order: SortOrder, x: SortKey, y: SortKey)
    requires IsComparator(lc)
    ensures Sign(CompareKeys(lc, order, x, y)) == -Sign(CompareKeys(lc, order, y, x))
  {
    if x.Text? && y.Text? {
      assert Sign(lc(x.text, y.text)) == -Sign(lc(y.text, x.text));
    }
  }

  lemma CompareKeysTransitive(lc: (string, string) -> int, order: SortOrder, x: SortKey, y: SortKey, z: SortKey)
    requires IsComparator(lc)
    requires x.Text? == y.Text? == z.Text?
    requires CompareKeys(lc, order, x, y) <= 0 && CompareKeys(lc, order, y, z) <= 0
    ensures CompareKeys(lc, order, x, z) <= 0
  {
    if x.Text? {
      if order == Asc {
        assert lc(x.text, y.text) <= 0 && lc(y.text, z.text) <= 0;
      } else {
        assert lc(z.text, y.text) <= 0 && lc(y.text, x.text) <= 0;
      }
    }
  }

  /** For a consistent collation, the song comparator is consistent for
      every column and direction. */
  lemma SongComparatorIsComparator(lc: (string, string) -> int, field: SortField, order: SortOrder)
    requires IsComparator(lc)
    ensures IsComparator(SongComparator(lc, field, order))
  {
    var cmp := SongComparator(lc, field, order);
    forall a, b ensures Sign(cmp(a, b)) == -Sign(cmp(b, a)) {
      CompareKeysAntisymmetric(lc, order, KeyOf(a, field), KeyOf(b, field));
    }
    forall a, b, c | cmp(a, b) <= 0 && cmp(b, c) <= 0
      ensures cmp(a, c) <= 0
    {
      CompareKeysTransitive(lc, order, KeyOf(a, field), KeyOf(b, field), KeyOf(c, field));
    }
  }

  /** `sortedSongs`: a copy of the filtered list sorted by one column with a
      stable sort. The result is a permutation of the input, ordered by the
      column's comparator, and songs the comparator ties keep their input
      order, in either direction. */
  function SortSongs(lc: (string, string) -> int, songs: seq<Song>, field: SortField, order: SortOrder): (r: seq<Song>)
    requires IsComparator(lc)
    ensures multiset(r) == multiset(songs)
    ensures forall i, j :: 0 <= i < j < |r| ==> CompareKeys(lc, order, KeyOf(r[i], field), KeyOf(r[j], field)) <= 0
    ensures forall z :: TiedWith(SongComparator(lc, field, order), r, z)
                     == TiedWith(SongComparator(lc, field, order), songs, z)
  {
    SongComparatorIsComparator(lc, field, order);
    var r := Sort(SongComparator(lc, field, order), songs);
    assert SortedBy(SongComparator(lc, field, order), r);
    r
  }

  /** Sorting a sorted list again changes nothing, so re-rendering with an
      unchanged query is visually stable. */
  lemma SortSongsIdempotent(lc: (string, string) -> int, songs: seq<Song>, field: SortField, order: SortOrder)
    requires IsComparator(lc)
    ensures SortSongs(lc, SortSongs(lc, songs, field, order), field, order) == SortSongs(lc, songs, field, order)
  {
    SongComparatorIsComparator(lc, field, order);
    SortIdempotent(SongComparator(lc, field, order), songs);
  }
}
