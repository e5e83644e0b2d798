/**
 The catalog-wide counters shown in the library header: the number of songs
 and, per genre and per artist, how many songs carry it. The tables are
 computed by one left-to-right pass over the whole list, as the `reduce` in
 the view does.
 */
module Stats {
  import opened Songs

  datatype Stats = Stats(totalSongs: nat, genres: map<string, nat>, artists: map<string, nat>)

  /** `acc[key] = (acc[key] || 0) + 1`: a missing key counts from zero. */
  function Tally(m: map<string, nat>, k: string): (r: map<string, nat>)
    ensures r.Keys == m.Keys + {k}
    ensures r[k] == (if k in m then m[k] else 0) + 1
    ensures forall j :: j in m && j != k ==> r[j] == m[j]
  {
    m[k := (if k in m then m[k] else 0) + 1]
  }

  /** The counts built by tallying `vs` from left to right. Its keys are
      exactly the values that occur, and no count is zero. */
  function CountTable(vs: seq<string>): (m: map<string, nat>)
    ensures forall k :: k in m <==> k in vs
    ensures forall k :: k in m ==> m[k] >= 1
  {
    if vs == [] then map[]
    else
      var n := |vs| - 1;
      assert vs == vs[..n] + [vs[n]];
      Tally(CountTable(vs[..n]), vs[n])
  }

  /** A table counts `vs` when its keys are exactly the values that occur and
      each key maps to its number of occurrences. */
  ghost predicate Counts(m: map<string, nat>, vs: seq<string>) {
    (forall k :: k in m <==> k in vs) && (forall k :: k in m ==> m[k] == multiset(vs)[k])
  }

  lemma {:induction false} CountTableCounts(vs: seq<string>)
    ensures Counts(CountTable(vs), vs)
    decreases |vs|
  {
    if vs != [] {
      var n := |vs| - 1;
      CountTableCounts(vs[..n]);
      assert vs == vs[..n] + [vs[n]];
      assert multiset(vs) == multiset(vs[..n]) + multiset{vs[n]};
      forall k ensures k in vs <==> k in vs[..n] || k == vs[n] {
      }
    }
  }

  /** The sum of a table's counts. */
  ghost function Total(m: map<string, nat>): nat
    decreases |m.Keys|
  {
    if m == map[] then 0
    else
      var k :| k in m;
      m[k] + Total(m - {k})
  }

  /** `Total` does not depend on which key is taken out first. */
  lemma {:induction false} TotalRemove(m: map<string, nat>, k: string)
    requires k in m
    ensures Total(m) == m[k] + Total(m - {k})
    decreases |m.Keys|
  {
    var j :| j in m && Total(m) == m[j] + Total(m - {j});
    if j != k {
      var mj, mk := m - {j}, m - {k};
      assert (mj - {k}).Keys < mj.Keys;
      assert k in mj && |mj.Keys| < |m.Keys|;
      TotalRemove(mj, k);
      assert j in mk && |mk.Keys| < |m.Keys|;
      TotalRemove(mk, j);
      assert mj - {k} == mk - {j};
    }
  }

  lemma TotalTally(m: map<string, nat>, k: string)
    ensures Total(Tally(m, k)) == Total(m) + 1
  {
    var r := Tally(m, k);
    TotalRemove(r, k);
    assert r - {k} == m - {k};
    if k in m {
      TotalRemove(m, k);
    } else {
      assert m - {k} == m;
    }
  }

  /** The counts of a table add up to the length of the list it counts. */
  lemma {:induction false} CountTableTotal(vs: seq<string>)
    ensures Total(CountTable(vs)) == |vs|
    decreases |vs|
  {
    if vs != [] {
      CountTableTotal(vs[..|vs| - 1]);
      TotalTally(CountTable(vs[..|vs| - 1]), vs[|vs| - 1]);
    }
  }

  /** `stats`: the total and the genre and artist tables of the whole list. */
  function ComputeStats(songs: seq<Song>): (r: Stats)
    ensures r.totalSongs == |songs|
    ensures Counts(r.genres, FieldValues(songs, ByGenre))
    ensures Counts(r.artists, FieldValues(songs, ByArtist))
  {
    CountTableCounts(FieldValues(songs, ByGenre));
    CountTableCounts(FieldValues(songs, ByArtist));
    Stats(|songs|, CountTable(FieldValues(songs, ByGenre)), CountTable(FieldValues(songs, ByArtist)))
  }

  /** Each table's counts add up to the number of songs. */
  lemma StatsTotals(songs: seq<Song>)
    ensures Total(ComputeStats(songs).genres) == |songs|
    ensures Total(ComputeStats(songs).artists) == |songs|
  {
    CountTableTotal(FieldValues(songs, ByGenre));
    CountTableTotal(FieldValues(songs, ByArtist));
  }

  /** The header's "genres" figure, `Object.keys(stats.genres).length`, is
      the number of distinct genres in the list. */
  lemma DistinctGenreCount(songs: seq<Song>)
    ensures ComputeStats(songs).genres.Keys == set s | s in songs :: s.genre
  {
    var vs := FieldValues(songs, ByGenre);
    forall g ensures g in vs <==> exists s :: s in songs && s.genre == g {
      if g in vs {
        var i :| 0 <= i < |vs| && vs[i] == g;
        assert songs[i] in songs;
      }
      if exists s :: s in songs && s.genre == g {
        var s :| s in songs && s.genre == g;
        var i :| 0 <= i < |songs| && songs[i] == s;
        assert vs[i] == g;
      }
    }
  }
}
