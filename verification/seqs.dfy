/**
 Order-preserving selection over sequences: the `Array.prototype.filter`
 that every list update in the catalog, the library view and the
 notification list is built on.
 */
module Seqs {

  /** The elements of `s` that satisfy `p`, in their original order. */
  function Filter<T(!new)>(p: T -> bool, s: seq<T>): (r: seq<T>)
    ensures |r| <= |s|
    ensures forall x :: x in r <==> x in s && p(x)
  {
    if s == [] then []
    else
      var rest := Filter(p, s[1..]);
      assert s == [s[0]] + s[1..];
      if p(s[0]) then [s[0]] + rest else rest
  }

  /** Filtering keeps every occurrence of a kept value and none of the others. */
  lemma {:induction false} FilterMultiset<T(!new)>(p: T -> bool, s: seq<T>)
    ensures forall x :: multiset(Filter(p, s))[x] == if p(x) then multiset(s)[x] else 0
    decreases |s|
  {
    if s != [] {
      FilterMultiset(p, s[1..]);
      assert s == [s[0]] + s[1..];
    }
  }

  /** Filtering distributes over concatenation: relative order is kept. */
  lemma {:induction false} FilterAppend<T(!new)>(p: T -> bool, a: seq<T>, b: seq<T>)
    ensures Filter(p, a + b) == Filter(p, a) + Filter(p, b)
    decreases |a|
  {
    if a == [] {
      assert a + b == b;
    } else {
      assert (a + b)[1..] == a[1..] + b;
      FilterAppend(p, a[1..], b);
    }
  }

  /** On one element, filtering keeps it exactly when it satisfies `p`. */
  lemma FilterSingleton<T(!new)>(p: T -> bool, x: T)
    ensures Filter(p, [x]) == if p(x) then [x] else []
  {
    assert [x][1..] == [];
  }

  /** Appending one element to the input appends it to the output iff it is kept. */
  lemma FilterSnoc<T(!new)>(p: T -> bool, s: seq<T>, x: T)
    ensures Filter(p, s + [x]) == Filter(p, s) + (if p(x) then [x] else [])
  {
    FilterAppend(p, s, [x]);
    FilterSingleton(p, x);
  }

  /** A predicate that holds everywhere keeps the whole sequence. */
  lemma {:induction false} FilterAll<T(!new)>(p: T -> bool, s: seq<T>)
    requires forall i :: 0 <= i < |s| ==> p(s[i])
    ensures Filter(p, s) == s
    decreases |s|
  {
    if s != [] {
      FilterAll(p, s[1..]);
    }
  }

  /** Filtering twice by the same predicate is filtering once. */
  lemma FilterIdempotent<T(!new)>(p: T -> bool, s: seq<T>)
    ensures Filter(p, Filter(p, s)) == Filter(p, s)
  {
    var r := Filter(p, s);
    forall i | 0 <= i < |r|
      ensures p(r[i])
    {
      assert r[i] in r;
    }
    FilterAll(p, r);
  }
}
