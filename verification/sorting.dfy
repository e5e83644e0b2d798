/**
 Stable sorting by a three-way comparator, the contract `Array.prototype.sort`
 gives a consistent comparator: the result is a permutation of the input,
 ordered by the comparator, and elements the comparator ties keep their
 input order.
 */
module Sorting {
  import opened Seqs

  function Sign(n: int): int {
    if n < 0 then -1 else if n > 0 then 1 else 0
  }

  /** A consistent comparator: swapping the arguments flips the sign, and
      "compares at most equal" is transitive (a total preorder). */
  ghost predicate IsComparator<T(!new)>(cmp: (T, T) -> int) {
    && (forall a, b :: Sign(cmp(a, b)) == -Sign(cmp(b, a)))
    && (forall a, b, c :: cmp(a, b) <= 0 && cmp(b, c) <= 0 ==> cmp(a, c) <= 0)
  }

  /** Every earlier element compares at most equal to every later one. */
  ghost predicate SortedBy<T>(cmp: (T, T) -> int, s: seq<T>) {
    forall i, j :: 0 <= i < j < |s| ==> cmp(s[i], s[j]) <= 0
  }

  /** The elements of `s` that the comparator ties with `x`, in order
      (the `Filter` of `s` by "ties with `x`", spelled out so that proofs
      about it see only concatenations). */
  function TiedWith<T>(cmp: (T, T) -> int, s: seq<T>, x: T): seq<T> {
    if s == [] then []
    else (if cmp(s[0], x) == 0 then [s[0]] else []) + TiedWith(cmp, s[1..], x)
  }

  /** `TiedWith` is the filter by "ties with `x`". */
  lemma {:induction false} TiedWithIsFilter<T(!new)>(cmp: (T, T) -> int, s: seq<T>, x: T)
    ensures TiedWith(cmp, s, x) == Filter(y => cmp(y, x) == 0, s)
    decreases |s|
  {
    if s != [] {
      TiedWithIsFilter(cmp, s[1..], x);
    }
  }

  lemma {:induction false} TiedWithAppend<T>(cmp: (T, T) -> int, a: seq<T>, b: seq<T>, x: T)
    ensures TiedWith(cmp, a + b, x) == TiedWith(cmp, a, x) + TiedWith(cmp, b, x)
    decreases |a|
  {
    if a == [] {
      assert a + b == b;
    } else {
      TiedWithAppend(cmp, a[1..], b, x);
      TiedCons(cmp, a[0], a[1..] + b, x);
      TiedCons(cmp, a[0], a[1..], x);
      assert [a[0]] + (a[1..] + b) == a + b;
      assert [a[0]] + a[1..] == a;
    }
  }

  lemma TieIsSymmetric<T(!new)>(cmp: (T, T) -> int, a: T, b: T)
    requires IsComparator(cmp)
    ensures cmp(a, b) == 0 <==> cmp(b, a) == 0
  {
    assert Sign(cmp(a, b)) == -Sign(cmp(b, a));
  }

  /** Inserts `x` after every element of `t` that compares at most equal to it. */
  function Insert<T(!new)>(cmp: (T, T) -> int, t: seq<T>, x: T): (r: seq<T>)
    ensures multiset(r) == multiset(t) + multiset{x}
    ensures forall y :: y in r <==> y in t || y == x
    ensures |r| == |t| + 1
  {
    if t == [] then [x]
    else if cmp(t[0], x) > 0 then [x] + t
    else
      assert t == [t[0]] + t[1..];
      [t[0]] + Insert(cmp, t[1..], x)
  }

  /** A sorted sequence whose head is above `x` lies wholly above `x`. */
  lemma AllAbove<T(!new)>(cmp: (T, T) -> int, t: seq<T>, x: T)
    requires IsComparator(cmp) && SortedBy(cmp, t)
    requires t != [] && cmp(t[0], x) > 0
    ensures forall i :: 0 <= i < |t| ==> cmp(t[i], x) > 0
  {
    forall i | 0 < i < |t|
      ensures cmp(t[i], x) > 0
    {
      assert cmp(t[0], t[i]) <= 0;
    }
  }

  /** Case of `InsertSorted` where `x` goes in front. */
  lemma InsertSortedFront<T(!new)>(cmp: (T, T) -> int, t: seq<T>, x: T)
    requires IsComparator(cmp) && SortedBy(cmp, t)
    requires t != [] && cmp(t[0], x) > 0
    ensures SortedBy(cmp, [x] + t)
  {
    AllAbove(cmp, t, x);
    var r := [x] + t;
    forall i, j | 0 <= i < j < |r|
      ensures cmp(r[i], r[j]) <= 0
    {
      if i == 0 {
        assert Sign(cmp(t[j - 1], x)) == -Sign(cmp(x, t[j - 1]));
      } else {
        assert r[i] == t[i - 1] && r[j] == t[j - 1];
      }
    }
  }

  /** Prepending an element at most every element keeps a sequence sorted. */
  lemma SortedCons<T(!new)>(cmp: (T, T) -> int, h: T, t: seq<T>)
    requires SortedBy(cmp, t)
    requires forall y :: y in t ==> cmp(h, y) <= 0
    ensures SortedBy(cmp, [h] + t)
  {
    var r := [h] + t;
    forall i, j | 0 <= i < j < |r|
      ensures cmp(r[i], r[j]) <= 0
    {
      if i == 0 {
        assert r[j] == t[j - 1] && r[j] in t;
      } else {
        assert r[i] == t[i - 1] && r[j] == t[j - 1];
      }
    }
  }

  lemma {:induction false} InsertSorted<T(!new)>(cmp: (T, T) -> int, t: seq<T>, x: T)
    requires IsComparator(cmp) && SortedBy(cmp, t)
    ensures SortedBy(cmp, Insert(cmp, t, x))
    decreases |t|
  {
    if t == [] {
    } else if cmp(t[0], x) > 0 {
      InsertSortedFront(cmp, t, x);
    } else {
      var rest := Insert(cmp, t[1..], x);
      assert SortedBy(cmp, t[1..]);
      InsertSorted(cmp, t[1..], x);
      forall y | y in rest
        ensures cmp(t[0], y) <= 0
      {
        if y != x {
          var m :| 1 <= m < |t| && t[m] == y;
        }
      }
      SortedCons(cmp, t[0], rest);
    }
  }

  /** In a sorted sequence none of whose elements are at most `x`, nothing
      tied with `z` remains when `x` itself is tied with `z`. */
  lemma NoTieAbove<T(!new)>(cmp: (T, T) -> int, t: seq<T>, x: T, z: T)
    requires IsComparator(cmp)
    requires forall i :: 0 <= i < |t| ==> cmp(t[i], x) > 0
    requires cmp(x, z) == 0
    ensures TiedWith(cmp, t, z) == []
  {
    TieIsSymmetric(cmp, x, z);
    NoneTied(cmp, t, z);
  }

  lemma {:induction false} NoneTied<T>(cmp: (T, T) -> int, t: seq<T>, z: T)
    requires forall i :: 0 <= i < |t| ==> cmp(t[i], z) != 0
    ensures TiedWith(cmp, t, z) == []
    decreases |t|
  {
    if t != [] {
      NoneTied(cmp, t[1..], z);
    }
  }

  /** Case of `InsertStable` where `x` goes in front. */
  lemma InsertStableFront<T(!new)>(cmp: (T, T) -> int, t: seq<T>, x: T, z: T)
    requires IsComparator(cmp) && SortedBy(cmp, t)
    requires t != [] && cmp(t[0], x) > 0
    ensures TiedWith(cmp, [x] + t, z)
         == TiedWith(cmp, t, z) + (if cmp(x, z) == 0 then [x] else [])
  {
    TiedCons(cmp, x, t, z);
    if cmp(x, z) == 0 {
      AllAbove(cmp, t, x);
      NoTieAbove(cmp, t, x, z);
    }
  }

  /** Inserting `x` adds it at the end of its own tie class and leaves every
      other tie class as it was. */
  lemma {:induction false} InsertStable<T(!new)>(cmp: (T, T) -> int, t: seq<T>, x: T, z: T)
    requires IsComparator(cmp) && SortedBy(cmp, t)
    ensures TiedWith(cmp, Insert(cmp, t, x), z)
         == TiedWith(cmp, t, z) + (if cmp(x, z) == 0 then [x] else [])
    decreases |t|
  {
    if t == [] {
      TiedCons(cmp, x, [], z);
      assert [x] + [] == [x];
    } else if cmp(t[0], x) > 0 {
      InsertStableFront(cmp, t, x, z);
    } else {
      assert SortedBy(cmp, t[1..]);
      InsertStable(cmp, t[1..], x, z);
      InsertStableCons(cmp, t, x, z);
    }
  }

  /** Case of `InsertStable` where `x` goes after the head, given the tail's case. */
  lemma InsertStableCons<T(!new)>(cmp: (T, T) -> int, t: seq<T>, x: T, z: T)
    requires t != [] && cmp(t[0], x) <= 0
    requires TiedWith(cmp, Insert(cmp, t[1..], x), z)
          == TiedWith(cmp, t[1..], z) + (if cmp(x, z) == 0 then [x] else [])
    ensures TiedWith(cmp, Insert(cmp, t, x), z)
         == TiedWith(cmp, t, z) + (if cmp(x, z) == 0 then [x] else [])
  {
    InsertCons(cmp, t, x);
    assert [t[0]] + t[1..] == t;
    TiedConsStep(cmp, t[0], t[1..], Insert(cmp, t[1..], x), Insert(cmp, t, x),
                 if cmp(x, z) == 0 then [x] else [], z);
  }

  /** Putting the same head in front of two lists whose tied parts differ by
      a suffix keeps that difference. */
  lemma TiedConsStep<T>(cmp: (T, T) -> int, h: T, tail: seq<T>, rest: seq<T>, ins: seq<T>, extra: seq<T>, z: T)
    requires ins == [h] + rest
    requires TiedWith(cmp, rest, z) == TiedWith(cmp, tail, z) + extra
    ensures TiedWith(cmp, ins, z) == TiedWith(cmp, [h] + tail, z) + extra
  {
    TiedCons(cmp, h, rest, z);
    TiedCons(cmp, h, tail, z);
    Reassociate(TiedWith(cmp, ins, z), TiedWith(cmp, [h] + tail, z),
                if cmp(h, z) == 0 then [h] else [], extra,
                TiedWith(cmp, rest, z), TiedWith(cmp, tail, z));
  }

  /** `x` goes after a head that does not exceed it. */
  lemma InsertCons<T(!new)>(cmp: (T, T) -> int, t: seq<T>, x: T)
    requires t != [] && cmp(t[0], x) <= 0
    ensures Insert(cmp, t, x) == [t[0]] + Insert(cmp, t[1..], x)
  {
  }

  /** Sequence bookkeeping for `InsertStableCons`, kept apart so that the
      solver sees only concatenations. */
  lemma Reassociate<T>(lhs: seq<T>, rhs: seq<T>, hd: seq<T>, tl: seq<T>, a: seq<T>, b: seq<T>)
    requires lhs == hd + a && a == b + tl && rhs == hd + b
    ensures lhs == rhs + tl
  {
  }

  lemma TiedCons<T>(cmp: (T, T) -> int, h: T, t: seq<T>, z: T)
    ensures TiedWith(cmp, [h] + t, z) == (if cmp(h, z) == 0 then [h] else []) + TiedWith(cmp, t, z)
  {
    assert ([h] + t)[1..] == t;
  }

  /** Insertion sort: each element in turn is inserted into the sorted prefix. */
  function Sort<T(!new)>(cmp: (T, T) -> int, s: seq<T>): (r: seq<T>)
    ensures multiset(r) == multiset(s)
    ensures IsComparator(cmp) ==> SortedBy(cmp, r)
    ensures IsComparator(cmp) ==> forall z :: TiedWith(cmp, r, z) == TiedWith(cmp, s, z)
    decreases |s|
  {
    if s == [] then []
    else
      var n := |s| - 1;
      var prefix := Sort(cmp, s[..n]);
      SortStep(cmp, s[..n], s[n], prefix);
      assert s[..n] + [s[n]] == s;
      Insert(cmp, prefix, s[n])
  }

  /** Inserting the next element into a stable sort of the prefix gives a
      stable sort of the extended sequence. */
  lemma SortStep<T(!new)>(cmp: (T, T) -> int, s: seq<T>, x: T, sorted: seq<T>)
    requires multiset(sorted) == multiset(s)
    requires IsComparator(cmp) ==> SortedBy(cmp, sorted)
    requires IsComparator(cmp) ==> forall z :: TiedWith(cmp, sorted, z) == TiedWith(cmp, s, z)
    ensures multiset(Insert(cmp, sorted, x)) == multiset(s + [x])
    ensures IsComparator(cmp) ==> SortedBy(cmp, Insert(cmp, sorted, x))
    ensures IsComparator(cmp) ==> forall z :: TiedWith(cmp, Insert(cmp, sorted, x), z) == TiedWith(cmp, s + [x], z)
  {
    if IsComparator(cmp) {
      InsertSorted(cmp, sorted, x);
      forall z ensures TiedWith(cmp, Insert(cmp, sorted, x), z) == TiedWith(cmp, s + [x], z) {
        InsertStable(cmp, sorted, x, z);
        TiedWithAppend(cmp, s, [x], z);
        TiedCons(cmp, x, [], z);
      }
    }
  }

  /** Inserting an element that is at least every element appends it. */
  lemma {:induction false} InsertAtEnd<T(!new)>(cmp: (T, T) -> int, t: seq<T>, x: T)
    requires forall i :: 0 <= i < |t| ==> cmp(t[i], x) <= 0
    ensures Insert(cmp, t, x) == t + [x]
    decreases |t|
  {
    if t != [] {
      InsertAtEnd(cmp, t[1..], x);
      assert t == [t[0]] + t[1..];
    }
  }

  /** Sorting an already sorted sequence leaves it as it is. */
  lemma {:induction false} SortOfSorted<T(!new)>(cmp: (T, T) -> int, s: seq<T>)
    requires IsComparator(cmp) && SortedBy(cmp, s)
    ensures Sort(cmp, s) == s
    decreases |s|
  {
    if s != [] {
      var n := |s| - 1;
      assert SortedBy(cmp, s[..n]);
      SortOfSorted(cmp, s[..n]);
      InsertAtEnd(cmp, s[..n], s[n]);
      assert s[..n] + [s[n]] == s;
    }
  }

  /** Sorting is idempotent: re-sorting a sorted result changes nothing. */
  lemma SortIdempotent<T(!new)>(cmp: (T, T) -> int, s: seq<T>)
    requires IsComparator(cmp)
    ensures Sort(cmp, Sort(cmp, s)) == Sort(cmp, s)
  {
    SortOfSorted(cmp, Sort(cmp, s));
  }

  /** Filtering a sorted sequence keeps it sorted. */
  lemma {:induction false} FilterKeepsSorted<T(!new)>(cmp: (T, T) -> int, p: T -> bool, s: seq<T>)
    requires SortedBy(cmp, s)
    ensures SortedBy(cmp, Filter(p, s))
    decreases |s|
  {
    if s != [] {
      assert SortedBy(cmp, s[1..]);
      FilterKeepsSorted(cmp, p, s[1..]);
      if p(s[0]) {
        var rest := Filter(p, s[1..]);
        forall y | y in rest
          ensures cmp(s[0], y) <= 0
        {
          var m :| 0 <= m < |s[1..]| && s[1..][m] == y;
          assert s[m + 1] == y;
        }
        SortedCons(cmp, s[0], rest);
      }
    }
  }

  lemma {:induction false} TiedWithAll<T>(cmp: (T, T) -> int, s: seq<T>, z: T)
    requires forall i :: 0 <= i < |s| ==> cmp(s[i], z) == 0
    ensures TiedWith(cmp, s, z) == s
    decreases |s|
  {
    if s != [] {
      TiedWithAll(cmp, s[1..], z);
    }
  }

  /** When the comparator ties all elements, sorting changes nothing: a
      stable sort has no reason to move anything. */
  lemma SortAllTied<T(!new)>(cmp: (T, T) -> int, s: seq<T>)
    requires IsComparator(cmp)
    requires forall i, j :: 0 <= i < |s| && 0 <= j < |s| ==> cmp(s[i], s[j]) == 0
    ensures Sort(cmp, s) == s
  {
    if s != [] {
      var r := Sort(cmp, s);
      TiedWithAll(cmp, s, s[0]);
      forall i | 0 <= i < |r|
        ensures cmp(r[i], s[0]) == 0
      {
        assert r[i] in multiset(s);
      }
      TiedWithAll(cmp, r, s[0]);
    }
  }

  /** Sorting a sequence with one more element at the end inserts that
      element into the sorted rest. */
  lemma SortSnoc<T(!new)>(cmp: (T, T) -> int, s: seq<T>, x: T)
    ensures Sort(cmp, s + [x]) == Insert(cmp, Sort(cmp, s), x)
  {
    assert (s + [x])[..|s|] == s;
  }
}
