/**
 Worked examples on songs of the bundled fixture list
 (music-library-mf/src/data/mockSongs.ts, ids 1, 2, 3 and 15).
 */
module Scenarios {
  import opened Optional
  import opened Sorting
  import opened Songs
  import opened ViewEngine
  import opened Grouping
  import opened Stats
  import opened Notifications
  import opened CatalogStore

  const TumHiHo: Song := Song("1", "Tum Hi Ho", "Arijit Singh", "Aashiqui 2", 2013, "Bollywood", "4:22")
  const JaiHo: Song := Song("2", "Jai Ho", "A.R. Rahman", "Slumdog Millionaire", 2008, "Bollywood", "5:09")
  const VandeMataram: Song := Song("3", "Vande Mataram", "A.R. Rahman", "Vande Mataram", 1997, "Patriotic", "7:05")
  const SandeseAateHai: Song := Song("15", "Sandese Aate Hai", "Sonu Nigam, Roop Kumar Rathod", "Border", 1997, "Patriotic", "7:32")

  /** Three songs listed newest first come out oldest first. */
  lemma ThreeYearsAscending(lc: (string, string) -> int, a: Song, b: Song, c: Song)
    requires IsComparator(lc)
    requires a.year < b.year < c.year
    ensures SortSongs(lc, [c, b, a], Year, Asc) == [a, b, c]
  {
    var cmp := SongComparator(lc, Year, Asc);
    InsertByYear(lc, a, b, c);
    assert [] + [c] == [c] && [c] + [b] == [c, b] && [c, b] + [a] == [c, b, a];
    SortSnoc(cmp, [], c);
    SortSnoc(cmp, [c], b);
    SortSnoc(cmp, [c, b], a);
  }

  lemma InsertByYear(lc: (string, string) -> int, a: Song, b: Song, c: Song)
    requires a.year < b.year < c.year
    ensures var cmp := SongComparator(lc, Year, Asc);
      Insert(cmp, [], c) == [c] && Insert(cmp, [c], b) == [b, c] && Insert(cmp, [b, c], a) == [a, b, c]
  {
    var cmp := SongComparator(lc, Year, Asc);
    assert cmp(c, b) > 0 && cmp(b, a) > 0;
    assert Insert(cmp, [c], b) == [b] + [c];
    assert Insert(cmp, [b, c], a) == [a] + [b, c];
  }

  /** Sorting the first three fixture songs by year, ascending, puts the
      oldest first: ids 3, 2, 1. */
  lemma FirstThreeByYear(lc: (string, string) -> int)
    requires IsComparator(lc)
    ensures SortSongs(lc, [TumHiHo, JaiHo, VandeMataram], Year, Asc) == [VandeMataram, JaiHo, TumHiHo]
  {
    ThreeYearsAscending(lc, VandeMataram, JaiHo, TumHiHo);
  }

  /** Songs 3 and 15 share the year 1997. Sorting by year keeps them in
      input order in both directions, so the descending result is not the
      ascending one reversed. */
  lemma TiedYearsKeepInputOrder(lc: (string, string) -> int, order: SortOrder)
    requires IsComparator(lc)
    ensures SortSongs(lc, [VandeMataram, SandeseAateHai], Year, order) == [VandeMataram, SandeseAateHai]
  {
    var s := [VandeMataram, SandeseAateHai];
    var cmp := SongComparator(lc, Year, order);
    forall i, j | 0 <= i < |s| && 0 <= j < |s|
      ensures cmp(s[i], s[j]) == 0
    {
      assert KeyOf(s[i], Year) == Number(1997) && KeyOf(s[j], Year) == Number(1997);
    }
    SongComparatorIsComparator(lc, Year, order);
    SortAllTied(cmp, s);
  }

  /** Two songs sharing a value and a third with another value form two
      groups, in first-seen order. */
  lemma TwoGroups(a: Song, b: Song, c: Song, f: GroupField)
    requires FieldValue(a, f) == FieldValue(b, f) != FieldValue(c, f)
    ensures GroupBy([a, b, c], f) == [Group(FieldValue(a, f), [a, b]), Group(FieldValue(c, f), [c])]
  {
    var k, k' := FieldValue(a, f), FieldValue(c, f);
    var g2 := [Group(k, [a, b])];
    SameKeyOneGroup(a, b, f);
    GroupBySnoc([a, b], c, f);
    KeysCons(Group(k, [a, b]), []);
    assert Keys(g2) == [k] && k' !in Keys(g2);
    assert [a, b] + [c] == [a, b, c];
    assert AddToGroup(g2, k', c) == g2 + [Group(k', [c])];
  }

  /** Two songs sharing a value form one group, in list order. */
  lemma SameKeyOneGroup(a: Song, b: Song, f: GroupField)
    requires FieldValue(a, f) == FieldValue(b, f)
    ensures GroupBy([a, b], f) == [Group(FieldValue(a, f), [a, b])]
  {
    var k := FieldValue(a, f);
    var g1 := [Group(k, [a])];
    GroupBySnoc([], a, f);
    assert [] + [a] == [a];
    assert GroupBy([a], f) == g1;
    GroupBySnoc([a], b, f);
    KeysCons(Group(k, [a]), []);
    assert g1[1..] == [] && [a] + [b] == [a, b];
    assert AddToGroup(g1, k, b) == [Group(k, [a, b])] + [];
  }

  /** Grouping the first three songs by genre: two Bollywood songs in list
      order, then the Patriotic one. */
  lemma FirstThreeByGenre()
    ensures GroupBy([TumHiHo, JaiHo, VandeMataram], ByGenre)
         == [Group("Bollywood", [TumHiHo, JaiHo]), Group("Patriotic", [VandeMataram])]
  {
    TwoGroups(TumHiHo, JaiHo, VandeMataram, ByGenre);
  }

  /** Tallying `[x, y, y]` counts `x` once and `y` twice. */
  lemma OneThenTwo(x: string, y: string)
    requires x != y
    ensures CountTable([x, y, y]) == map[x := 1, y := 2]
  {
    assert [x, y, y][..2] == [x, y] && [x, y][..1] == [x] && [x][..0] == [];
    assert CountTable([x]) == map[x := 1];
    assert CountTable([x, y]) == map[x := 1, y := 1];
    assert Tally(map[x := 1, y := 1], y) == map[x := 1, y := 2];
  }

  /** The header counts for the first three songs. */
  lemma FirstThreeStats()
    ensures ComputeStats([TumHiHo, JaiHo, VandeMataram]).artists == map["Arijit Singh" := 1, "A.R. Rahman" := 2]
  {
    var songs := [TumHiHo, JaiHo, VandeMataram];
    assert FieldValues(songs, ByArtist) == ["Arijit Singh", "A.R. Rahman", "A.R. Rahman"];
    OneThenTwo("Arijit Singh", "A.R. Rahman");
  }

  /** Adding "Jai Ho" to an empty mounted store announces it by title. */
  lemma AddAnnouncesTitle(stringify: seq<Song> -> string)
    ensures var input := SongInput("Jai Ho", "A.R. Rahman", "Slumdog Millionaire", 2008, "Bollywood", "5:09");
      CatalogStore.Add(Store([], false, Some(stringify([]))), input, "2", stringify).1
        == Request("Song \"Jai Ho\" added successfully!", Some("success"))
  {
    var input := SongInput("Jai Ho", "A.R. Rahman", "Slumdog Millionaire", 2008, "Bollywood", "5:09");
    var r := CatalogStore.Add(Store([], false, Some(stringify([]))), input, "2", stringify).1;
    assert r.message == "Song \"" + "Jai Ho" + "\" added successfully!";
    JaiHoAdded();
  }

  lemma JaiHoAdded()
    ensures "Song \"" + "Jai Ho" + "\" added successfully!" == "Song \"Jai Ho\" added successfully!"
  {
  }

  /** Deleting an id the store does not hold leaves it unchanged and raises
      no toast. */
  lemma DeleteUnknownIsSilent(stringify: seq<Song> -> string)
    ensures var st := Store([TumHiHo], false, Some(stringify([TumHiHo])));
      CatalogStore.Delete(st, "15", stringify) == (st, None)
  {
    var st := Store([TumHiHo], false, Some(stringify([TumHiHo])));
    DeleteAbsent(st, "15", stringify);
  }

  /** A toast published without a type is an info toast and is drawn in the
      info style. */
  lemma UntypedToastIsInfo()
    ensures var t := Publish(EmptyTray, Request("Saved", None), "n1");
      t.items == [Notification("n1", "Saved", "info")]
      && Notifications.Render(t) == Some([Card("n1", "bg-blue-50 border-blue-200 text-blue-800", Icon(InfoGlyph, "text-blue-600"), "Saved")])
  {
    var t := Publish(EmptyTray, Request("Saved", None), "n1");
    assert t.items == [Notification("n1", "Saved", "info")];
    var r := Notifications.Render(t);
    assert StylesFor("info") == "bg-blue-50 border-blue-200 text-blue-800";
    assert IconFor("info") == Icon(InfoGlyph, "text-blue-600");
    assert r.value[0] == Card("n1", "bg-blue-50 border-blue-200 text-blue-800", Icon(InfoGlyph, "text-blue-600"), "Saved");
    assert |r.value| == 1;
    assert r.value == [r.value[0]];
  }
}
