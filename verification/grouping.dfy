/**
 `groupedSongs`: the sorted list bucketed by album, artist or genre, as an
 ordered key-to-songs table, or one fixed "All Songs" bucket when no
 grouping is chosen.
 */
module Grouping {
  import opened Seqs
  import opened Sorting
  import opened Songs
  import opened Optional

  datatype Group = Group(key: string, songs: seq<Song>)

  const AllSongsKey: string := "All Songs"

  function Keys(gs: seq<Group>): seq<string> {
    seq(|gs|, i requires 0 <= i < |gs| => gs[i].key)
  }

  /** The groups' songs one after another, in group order. */
  function Flatten(gs: seq<Group>): seq<Song> {
    if gs == [] then [] else gs[0].songs + Flatten(gs[1..])
  }

  /** The songs whose grouping field equals `k`, in list order (the
      `Filter` by that test, spelled out so that proofs about groups see
      only concatenations). */
  function Members(songs: seq<Song>, f: GroupField, k: string): seq<Song> {
    if songs == [] then []
    else (if FieldValue(songs[0], f) == k then [songs[0]] else []) + Members(songs[1..], f, k)
  }

  lemma {:induction false} MembersIsFilter(songs: seq<Song>, f: GroupField, k: string)
    ensures Members(songs, f, k) == Filter((s: Song) => FieldValue(s, f) == k, songs)
    decreases |songs|
  {
    if songs != [] {
      var p := (s: Song) => FieldValue(s, f) == k;
      var rest := Members(songs[1..], f, k);
      MembersIsFilter(songs[1..], f, k);
      if FieldValue(songs[0], f) == k {
        assert Members(songs, f, k) == [songs[0]] + rest;
        assert Filter(p, songs) == [songs[0]] + Filter(p, songs[1..]);
      } else {
        assert Members(songs, f, k) == [] + rest == rest;
        assert Filter(p, songs) == Filter(p, songs[1..]);
      }
    }
  }

  /** Position of the first occurrence of `v` in `vs`. */
  function FirstIndex(vs: seq<string>, v: string): (i: nat)
    requires v in vs
    ensures i < |vs| && vs[i] == v
    ensures forall j :: 0 <= j < i ==> vs[j] != v
  {
    if vs[0] == v then 0 else 1 + FirstIndex(vs[1..], v)
  }

  ghost predicate DistinctKeys(gs: seq<Group>) {
    forall i, j :: 0 <= i < j < |gs| ==> gs[i].key != gs[j].key
  }

  /** One step of the `reduce`: push `s` onto the group keyed `k`, creating
      that group at the end when no group has the key yet. The lookup is by
      the table's own keys. */
  function AddToGroup(gs: seq<Group>, k: string, s: Song): (r: seq<Group>)
    ensures |r| == if k in Keys(gs) then |gs| else |gs| + 1
    ensures k !in Keys(gs) ==> r == gs + [Group(k, [s])]
    ensures k in Keys(gs) && DistinctKeys(gs) ==>
      && |r| == |gs|
      && forall i :: 0 <= i < |gs| ==>
           r[i] == if gs[i].key == k then Group(k, gs[i].songs + [s]) else gs[i]
  {
    if gs == [] then [Group(k, [s])]
    else
      assert Keys(gs) == [gs[0].key] + Keys(gs[1..]);
      if gs[0].key == k then [Group(k, gs[0].songs + [s])] + gs[1..]
      else [gs[0]] + AddToGroup(gs[1..], k, s)
  }

  /** Adding a song to the table adds it to the concatenation of all groups:
      nothing is dropped or duplicated. */
  lemma {:induction false} AddToGroupFlatten(gs: seq<Group>, k: string, s: Song)
    ensures multiset(Flatten(AddToGroup(gs, k, s))) == multiset(Flatten(gs)) + multiset{s}
    decreases |gs|
  {
    if gs == [] {
      assert Flatten([Group(k, [s])]) == [s] + Flatten([]);
    } else if gs[0].key == k {
      var r := [Group(k, gs[0].songs + [s])] + gs[1..];
      assert r[1..] == gs[1..];
      assert Flatten(r) == (gs[0].songs + [s]) + Flatten(gs[1..]);
    } else {
      AddToGroupFlatten(gs[1..], k, s);
      var r := [gs[0]] + AddToGroup(gs[1..], k, s);
      assert r[1..] == AddToGroup(gs[1..], k, s);
    }
  }

  /** `sortedSongs.reduce(...)` with a grouping field: the table built by
      adding the songs in list order. There are never more groups than
      songs, and the table is empty only for the empty list. */
  function GroupBy(songs: seq<Song>, f: GroupField): (gs: seq<Group>)
    ensures |gs| <= |songs|
    ensures gs == [] <==> songs == []
    decreases |songs|
  {
    if songs == [] then []
    else
      var n := |songs| - 1;
      AddToGroup(GroupBy(songs[..n], f), FieldValue(songs[n], f), songs[n])
  }

  /** The grouping invariant: the keys are exactly the field values of the
      list, ordered by where each first occurs, and each group holds exactly
      the songs with its key, in list order. */
  ghost predicate GroupsOf(gs: seq<Group>, songs: seq<Song>, f: GroupField) {
    var vs := FieldValues(songs, f);
    && SameValues(Keys(gs), vs)
    && FirstSeenOrder(Keys(gs), vs)
    && GroupContents(gs, songs, f)
  }

  /** Every key is a value of the list and every value of the list is a key. */
  ghost predicate SameValues(ks: seq<string>, vs: seq<string>) {
    forall k :: k in ks <==> k in vs
  }

  /** The keys appear in the order in which their values first occur. */
  ghost predicate FirstSeenOrder(ks: seq<string>, vs: seq<string>) {
    forall i, j :: 0 <= i < j < |ks| && ks[i] in vs && ks[j] in vs ==>
      FirstIndex(vs, ks[i]) < FirstIndex(vs, ks[j])
  }

  ghost predicate GroupContents(gs: seq<Group>, songs: seq<Song>, f: GroupField) {
    forall i :: 0 <= i < |gs| ==> gs[i].songs == Members(songs, f, gs[i].key)
  }

  /** The table `GroupBy` builds satisfies the grouping invariant. */
  lemma {:induction false} GroupByInvariant(songs: seq<Song>, f: GroupField)
    ensures GroupsOf(GroupBy(songs, f), songs, f)
    decreases |songs|
  {
    if songs != [] {
      var n := |songs| - 1;
      var prefix, last := songs[..n], songs[n];
      assert songs == prefix + [last];
      GroupByInvariant(prefix, f);
      GroupBySnoc(prefix, last, f);
      GroupStep(prefix, last, f, GroupBy(prefix, f));
    }
  }

  lemma FieldValuesSnoc(songs: seq<Song>, s: Song, f: GroupField)
    ensures FieldValues(songs + [s], f) == FieldValues(songs, f) + [FieldValue(s, f)]
  {
  }

  lemma FirstIndexSnoc(vs: seq<string>, v: string, w: string)
    requires w in vs
    ensures FirstIndex(vs + [v], w) == FirstIndex(vs, w)
  {
    var i := FirstIndex(vs, w);
    var j := FirstIndex(vs + [v], w);
    assert (vs + [v])[i] == w;
    assert !(j < i) && !(i < j);
  }

  lemma FirstIndexOfNew(vs: seq<string>, v: string)
    requires v !in vs
    ensures FirstIndex(vs + [v], v) == |vs|
  {
  }

  lemma {:induction false} MembersSnoc(songs: seq<Song>, s: Song, f: GroupField, k: string)
    ensures Members(songs + [s], f, k) == Members(songs, f, k) + (if FieldValue(s, f) == k then [s] else [])
    decreases |songs|
  {
    if songs == [] {
      MembersCons(s, [], f, k);
      assert [s] + [] == [s];
    } else {
      var h, t := songs[0], songs[1..];
      MembersSnoc(t, s, f, k);
      MembersCons(h, t + [s], f, k);
      MembersCons(h, t, f, k);
      assert [h] + (t + [s]) == songs + [s];
      assert [h] + t == songs;
    }
  }

  lemma MembersCons(h: Song, t: seq<Song>, f: GroupField, k: string)
    ensures Members([h] + t, f, k) == (if FieldValue(h, f) == k then [h] else []) + Members(t, f, k)
  {
    assert ([h] + t)[1..] == t;
  }

  lemma {:induction false} MembersOfAbsentKey(songs: seq<Song>, f: GroupField, k: string)
    requires k !in FieldValues(songs, f)
    ensures Members(songs, f, k) == []
    decreases |songs|
  {
    if songs != [] {
      assert FieldValues(songs, f)[0] == FieldValue(songs[0], f);
      assert FieldValues(songs[1..], f) == FieldValues(songs, f)[1..];
      MembersOfAbsentKey(songs[1..], f, k);
    }
  }

  /** Keys in strict first-seen order are pairwise distinct. */
  lemma DistinctFromFirstSeen(gs: seq<Group>, vs: seq<string>)
    requires SameValues(Keys(gs), vs) && FirstSeenOrder(Keys(gs), vs)
    ensures DistinctKeys(gs)
  {
    forall i, j | 0 <= i < j < |gs|
      ensures gs[i].key != gs[j].key
    {
      var ks := Keys(gs);
      assert ks[i] in ks && ks[j] in ks;
      assert FirstIndex(vs, ks[i]) < FirstIndex(vs, ks[j]);
    }
  }

  /** `AddToGroup` appends the key when it is new and keeps the key list
      otherwise. */
  lemma {:induction false} AddToGroupKeys(gs: seq<Group>, k: string, s: Song)
    ensures Keys(AddToGroup(gs, k, s)) == if k in Keys(gs) then Keys(gs) else Keys(gs) + [k]
    decreases |gs|
  {
    if gs != [] {
      var g, t := gs[0], gs[1..];
      KeysCons(g, t);
      assert [g] + t == gs;
      if g.key != k {
        AddToGroupKeys(t, k, s);
        var rest := AddToGroup(t, k, s);
        assert AddToGroup(gs, k, s) == [g] + rest;
        KeysCons(g, rest);
        assert k in Keys(gs) <==> k in Keys(t);
      } else {
        var g' := Group(k, g.songs + [s]);
        assert AddToGroup(gs, k, s) == [g'] + t;
        KeysCons(g', t);
        assert k in Keys(gs);
      }
    } else {
      assert Keys([Group(k, [s])]) == [k];
    }
  }

  lemma KeysCons(g: Group, t: seq<Group>)
    ensures Keys([g] + t) == [g.key] + Keys(t)
  {
  }

  lemma SameValuesStep(ks: seq<string>, vs: seq<string>, v: string)
    requires SameValues(ks, vs)
    ensures SameValues(if v in ks then ks else ks + [v], vs + [v])
  {
  }

  lemma FirstSeenOrderStep(ks: seq<string>, vs: seq<string>, v: string)
    requires SameValues(ks, vs) && FirstSeenOrder(ks, vs)
    ensures FirstSeenOrder(if v in ks then ks else ks + [v], vs + [v])
  {
    var ks' := if v in ks then ks else ks + [v];
    var vs' := vs + [v];
    forall i, j | 0 <= i < j < |ks'| && ks'[i] in vs' && ks'[j] in vs'
      ensures FirstIndex(vs', ks'[i]) < FirstIndex(vs', ks'[j])
    {
      assert ks[i] in ks;
      FirstIndexSnoc(vs, v, ks[i]);
      if j < |ks| {
        assert ks[j] in ks;
        FirstIndexSnoc(vs, v, ks[j]);
      } else {
        FirstIndexOfNew(vs, v);
      }
    }
  }

  lemma GroupContentsKnownKey(songs: seq<Song>, s: Song, f: GroupField, gs: seq<Group>)
    requires GroupContents(gs, songs, f) && DistinctKeys(gs)
    requires FieldValue(s, f) in Keys(gs)
    ensures GroupContents(AddToGroup(gs, FieldValue(s, f), s), songs + [s], f)
  {
    var r := AddToGroup(gs, FieldValue(s, f), s);
    forall i | 0 <= i < |r|
      ensures r[i].songs == Members(songs + [s], f, r[i].key)
    {
      MembersSnoc(songs, s, f, gs[i].key);
    }
  }

  lemma GroupContentsNewKey(songs: seq<Song>, s: Song, f: GroupField, gs: seq<Group>)
    requires GroupContents(gs, songs, f)
    requires FieldValue(s, f) !in Keys(gs) && FieldValue(s, f) !in FieldValues(songs, f)
    ensures GroupContents(AddToGroup(gs, FieldValue(s, f), s), songs + [s], f)
  {
    var k := FieldValue(s, f);
    var r := AddToGroup(gs, k, s);
    assert r == gs + [Group(k, [s])];
    forall i | 0 <= i < |r|
      ensures r[i].songs == Members(songs + [s], f, r[i].key)
    {
      MembersSnoc(songs, s, f, r[i].key);
      if i == |gs| {
        MembersOfAbsentKey(songs, f, k);
      } else {
        assert Keys(gs)[i] == gs[i].key;
      }
    }
  }

  /** Adding the next song keeps the grouping invariant. */
  lemma GroupStep(songs: seq<Song>, s: Song, f: GroupField, gs: seq<Group>)
    requires GroupsOf(gs, songs, f)
    ensures GroupsOf(AddToGroup(gs, FieldValue(s, f), s), songs + [s], f)
  {
    var k := FieldValue(s, f);
    var vs := FieldValues(songs, f);
    FieldValuesSnoc(songs, s, f);
    AddToGroupKeys(gs, k, s);
    SameValuesStep(Keys(gs), vs, k);
    FirstSeenOrderStep(Keys(gs), vs, k);
    if k in Keys(gs) {
      DistinctFromFirstSeen(gs, vs);
      GroupContentsKnownKey(songs, s, f, gs);
    } else {
      GroupContentsNewKey(songs, s, f, gs);
    }
  }

  /** The concatenation of all groups is a permutation of the grouped list. */
  lemma {:induction false} GroupByIsPermutation(songs: seq<Song>, f: GroupField)
    ensures multiset(Flatten(GroupBy(songs, f))) == multiset(songs)
    decreases |songs|
  {
    if songs != [] {
      var n := |songs| - 1;
      var prefix, last := songs[..n], songs[n];
      assert songs == prefix + [last];
      calc {
        multiset(Flatten(GroupBy(songs, f)));
        { GroupBySnoc(prefix, last, f); }
        multiset(Flatten(AddToGroup(GroupBy(prefix, f), FieldValue(last, f), last)));
        { GroupByIsPermutation(prefix, f);
          FlattenStep(GroupBy(prefix, f), prefix, FieldValue(last, f), last); }
        multiset(prefix + [last]);
      }
    }
  }

  lemma FlattenStep(gs: seq<Group>, prefix: seq<Song>, k: string, s: Song)
    requires multiset(Flatten(gs)) == multiset(prefix)
    ensures multiset(Flatten(AddToGroup(gs, k, s))) == multiset(prefix + [s])
  {
    AddToGroupFlatten(gs, k, s);
  }

  /** `GroupBy` adds the last song to the table of the others. */
  lemma GroupBySnoc(prefix: seq<Song>, last: Song, f: GroupField)
    ensures GroupBy(prefix + [last], f) == AddToGroup(GroupBy(prefix, f), FieldValue(last, f), last)
  {
    assert (prefix + [last])[..|prefix|] == prefix;
  }

  /** No two groups share a key. */
  lemma GroupByKeysDistinct(songs: seq<Song>, f: GroupField)
    ensures DistinctKeys(GroupBy(songs, f))
  {
    GroupByInvariant(songs, f);
    DistinctFromFirstSeen(GroupBy(songs, f), FieldValues(songs, f));
  }

  /** Every song lands in the group keyed by its field value. */
  lemma GroupByPlacesEverySong(songs: seq<Song>, f: GroupField, s: Song)
    requires s in songs
    ensures exists i :: 0 <= i < |GroupBy(songs, f)| && GroupBy(songs, f)[i].key == FieldValue(s, f)
                        && s in GroupBy(songs, f)[i].songs
  {
    var gs := GroupBy(songs, f);
    GroupByInvariant(songs, f);
    var m :| 0 <= m < |songs| && songs[m] == s;
    assert FieldValues(songs, f)[m] == FieldValue(s, f);
    assert FieldValue(s, f) in Keys(gs);
    var i :| 0 <= i < |gs| && Keys(gs)[i] == FieldValue(s, f);
    MembersIsFilter(songs, f, gs[i].key);
    assert s in gs[i].songs;
  }

  /** No group is empty: each key is the field value of some song. */
  lemma GroupByNoEmptyGroup(songs: seq<Song>, f: GroupField, i: int)
    requires 0 <= i < |GroupBy(songs, f)|
    ensures GroupBy(songs, f)[i].songs != []
  {
    var gs := GroupBy(songs, f);
    GroupByInvariant(songs, f);
    assert Keys(gs)[i] == gs[i].key;
    assert gs[i].key in FieldValues(songs, f);
    var m :| 0 <= m < |songs| && FieldValues(songs, f)[m] == gs[i].key;
    MembersIsFilter(songs, f, gs[i].key);
    assert songs[m] in gs[i].songs;
  }

  /** Each group of a sorted list is itself sorted. */
  lemma GroupsKeepSortedOrder(cmp: (Song, Song) -> int, songs: seq<Song>, f: GroupField)
    requires SortedBy(cmp, songs)
    ensures forall i :: 0 <= i < |GroupBy(songs, f)| ==> SortedBy(cmp, GroupBy(songs, f)[i].songs)
  {
    var gs := GroupBy(songs, f);
    GroupByInvariant(songs, f);
    forall i | 0 <= i < |gs|
      ensures SortedBy(cmp, gs[i].songs)
    {
      MembersIsFilter(songs, f, gs[i].key);
      FilterKeepsSorted(cmp, (s: Song) => FieldValue(s, f) == gs[i].key, songs);
    }
  }

  /** `groupedSongs`: without a grouping field, one "All Songs" group holding
      the whole sorted list (even when it is empty); otherwise `GroupBy`. */
  function GroupedSongs(sorted: seq<Song>, groupBy: Option<GroupField>): (gs: seq<Group>)
    ensures groupBy.None? ==> gs == [Group(AllSongsKey, sorted)]
    ensures groupBy.Some? ==> GroupsOf(gs, sorted, groupBy.value)
    ensures multiset(Flatten(gs)) == multiset(sorted)
  {
    match groupBy
    case None =>
      assert Flatten([Group(AllSongsKey, sorted)]) == sorted + [];
      [Group(AllSongsKey, sorted)]
    case Some(f) =>
      GroupByIsPermutation(sorted, f);
      GroupByInvariant(sorted, f);
      GroupBy(sorted, f)
  }

  /** The "no songs found" panel shows only when the table has no keys, which
      needs an active grouping and an empty list. */
  lemma NoGroupsIffGroupedAndEmpty(sorted: seq<Song>, groupBy: Option<GroupField>)
    ensures |GroupedSongs(sorted, groupBy)| == 0 <==> groupBy.Some? && sorted == []
  {
    if groupBy.Some? && sorted != [] {
      assert FieldValues(sorted, groupBy.value)[0] in Keys(GroupedSongs(sorted, groupBy));
    }
  }

  // ----------------------------------------- the table as a plain object

  /** The property names every plain object `{}` inherits from
      `Object.prototype`. Reading one of them yields a function (or, for
      `__proto__`, the prototype object), which is truthy. */
  const InheritedNames: set<string> := {
    "constructor", "hasOwnProperty", "isPrototypeOf", "propertyIsEnumerable",
    "toLocaleString", "toString", "valueOf", "__defineGetter__",
    "__defineSetter__", "__lookupGetter__", "__lookupSetter__", "__proto__"
  }

  /** The outcome of the `reduce` as the code runs it: the table, or the
      `TypeError` thrown by `groups[key].push` on an inherited value. */
  datatype Reduced = Table(groups: seq<Group>) | Throws

  /** One step of the `reduce` with the accumulator `{}`: the lookup
      `groups[key]` also sees inherited names, finds a truthy non-array there
      and skips the initialisation, and the `push` that follows throws. */
  function AddToGroupAsWritten(gs: seq<Group>, k: string, s: Song): (r: Reduced)
    ensures r.Throws? <==> k !in Keys(gs) && k in InheritedNames
    ensures r.Table? ==> r.groups == AddToGroup(gs, k, s)
  {
    if k in Keys(gs) then Table(AddToGroup(gs, k, s))
    else if k in InheritedNames then Throws
    else Table(AddToGroup(gs, k, s))
  }

  /** `sortedSongs.reduce(..., {})` as written. It throws only when some
      song's field value is an inherited name, and otherwise builds at most
      one group per song. */
  function GroupByAsWritten(songs: seq<Song>, f: GroupField): (r: Reduced)
    ensures r.Throws? ==> exists i :: 0 <= i < |songs| && FieldValue(songs[i], f) in InheritedNames
    ensures r.Table? ==> |r.groups| <= |songs|
    decreases |songs|
  {
    if songs == [] then Table([])
    else
      var n := |songs| - 1;
      var prev := GroupByAsWritten(songs[..n], f);
      if prev.Throws? then
        var i :| 0 <= i < n && FieldValue(songs[..n][i], f) in InheritedNames;
        assert songs[..n][i] == songs[i];
        Throws
      else
        AddToGroupAsWritten(prev.groups, FieldValue(songs[n], f), songs[n])
  }

  /** Some song's field value is an inherited name (counted from the end,
      as `GroupByAsWritten` walks). */
  predicate AnyInherited(songs: seq<Song>, f: GroupField)
    decreases |songs|
  {
    songs != [] && (AnyInherited(songs[..|songs| - 1], f) || FieldValue(songs[|songs| - 1], f) in InheritedNames)
  }

  lemma {:induction false} AnyInheritedIff(songs: seq<Song>, f: GroupField)
    ensures AnyInherited(songs, f) <==> exists i :: 0 <= i < |songs| && FieldValue(songs[i], f) in InheritedNames
    decreases |songs|
  {
    if songs != [] {
      var n := |songs| - 1;
      AnyInheritedIff(songs[..n], f);
      assert forall i :: 0 <= i < n ==> songs[..n][i] == songs[i];
    }
  }

  /** The plain-object table throws exactly when some song's field value is
      an inherited name, and otherwise builds the own-key table `GroupBy`. */
  lemma GroupByAsWrittenAgrees(songs: seq<Song>, f: GroupField)
    ensures GroupByAsWritten(songs, f).Throws? <==> exists i :: 0 <= i < |songs| && FieldValue(songs[i], f) in InheritedNames
    ensures GroupByAsWritten(songs, f).Table? ==> GroupByAsWritten(songs, f).groups == GroupBy(songs, f)
  {
    AsWrittenAgrees(songs, f);
    AnyInheritedIff(songs, f);
  }

  lemma {:induction false} AsWrittenAgrees(songs: seq<Song>, f: GroupField)
    ensures GroupByAsWritten(songs, f).Throws? <==> AnyInherited(songs, f)
    ensures GroupByAsWritten(songs, f).Table? ==> GroupByAsWritten(songs, f).groups == GroupBy(songs, f)
    decreases |songs|
  {
    if songs != [] {
      var n := |songs| - 1;
      var prefix := songs[..n];
      AsWrittenAgrees(prefix, f);
      var k := FieldValue(songs[n], f);
      if !AnyInherited(prefix, f) && k in Keys(GroupBy(prefix, f)) {
        KnownKeyNotInherited(prefix, f, k);
      }
    }
  }

  /** A key already in the table came from an earlier song, so it is not an
      inherited name when no earlier value was. */
  lemma KnownKeyNotInherited(songs: seq<Song>, f: GroupField, k: string)
    requires !AnyInherited(songs, f) && k in Keys(GroupBy(songs, f))
    ensures k !in InheritedNames
  {
    var i := KeyComesFromList(songs, f, k);
    AnyInheritedIff(songs, f);
  }

  /** Every key of the table is the field value of some song. */
  lemma KeyComesFromList(songs: seq<Song>, f: GroupField, k: string) returns (i: nat)
    requires k in Keys(GroupBy(songs, f))
    ensures i < |songs| && FieldValue(songs[i], f) == k
  {
    GroupByInvariant(songs, f);
    assert k in FieldValues(songs, f);
    i :| 0 <= i < |songs| && FieldValues(songs, f)[i] == k;
  }

  /** An album called "constructor", grouped by album, makes the table
      throw. */
  lemma InheritedKeyThrows(s: Song)
    requires s.album == "constructor"
    ensures GroupByAsWritten([s], ByAlbum) == Throws
  {
    assert [s][..0] == [];
  }
}
