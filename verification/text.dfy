/**
 The string operations the view engine leans on: lower-casing (ASCII letters
 only), substring search as `String.prototype.includes` performs it, and a
 code-point lexicographic order that is one admissible stand-in for the
 locale collation behind `localeCompare`.
 */
module Text {
  import opened Sorting

  function LowerChar(c: char): char {
    if 'A' <= c <= 'Z' then (c as int + 32) as char else c
  }

  /** Lower-cases the ASCII letters of `s`; every other character is kept. */
  function ToLower(s: string): (r: string)
    ensures |r| == |s|
    ensures forall i :: 0 <= i < |s| ==> r[i] == LowerChar(s[i])
  {
    if s == [] then [] else [LowerChar(s[0])] + ToLower(s[1..])
  }

  /** `needle` occurs in `hay` starting at index `i`. */
  ghost predicate OccursAt(needle: string, hay: string, i: int) {
    0 <= i && i + |needle| <= |hay| && hay[i..i + |needle|] == needle
  }

  ghost predicate IsSubstring(needle: string, hay: string) {
    exists i :: OccursAt(needle, hay, i)
  }

  predicate IsPrefix(p: string, s: string) {
    |p| <= |s| && s[..|p|] == p
  }

  /** `hay.includes(needle)`: tries every start position from the left. */
  function Includes(hay: string, needle: string): (b: bool)
    ensures b <==> IsSubstring(needle, hay)
    decreases |hay|
  {
    if IsPrefix(needle, hay) then
      assert OccursAt(needle, hay, 0);
      true
    else if |hay| == 0 then
      false
    else
      var rest := Includes(hay[1..], needle);
      assert rest ==> IsSubstring(needle, hay) by {
        if rest {
          var i :| OccursAt(needle, hay[1..], i);
          assert hay[1..][i..i + |needle|] == hay[i + 1..i + 1 + |needle|];
          assert OccursAt(needle, hay, i + 1);
        }
      }
      assert IsSubstring(needle, hay) ==> rest by {
        if IsSubstring(needle, hay) {
          var i :| OccursAt(needle, hay, i);
          if i != 0 {
            assert hay[1..][i - 1..i - 1 + |needle|] == hay[i..i + |needle|];
            assert OccursAt(needle, hay[1..], i - 1);
          }
        }
      }
      rest
  }

  /** The empty string is a substring of every string. */
  lemma EmptyIsIncluded(hay: string)
    ensures Includes(hay, "")
  {
    assert OccursAt("", hay, 0);
  }

  /** Compares by the first differing code point (a Dafny `char` is a
      Unicode scalar value, not a UTF-16 code unit); a proper prefix comes
      first. Returns -1, 0 or 1. */
  function CodePointCompare(a: string, b: string): (r: int)
    ensures r == 0 <==> a == b
    decreases |a|
  {
    if a == [] && b == [] then 0
    else if a == [] then -1
    else if b == [] then 1
    else if a[0] < b[0] then -1
    else if a[0] > b[0] then 1
    else
      var r := CodePointCompare(a[1..], b[1..]);
      assert r == 0 <==> a == b by {
        assert a == [a[0]] + a[1..] && b == [b[0]] + b[1..];
      }
      r
  }

  lemma {:induction false} CodePointAntisymmetric(a: string, b: string)
    ensures Sign(CodePointCompare(a, b)) == -Sign(CodePointCompare(b, a))
    decreases |a|
  {
    if a != [] && b != [] && a[0] == b[0] {
      CodePointAntisymmetric(a[1..], b[1..]);
    }
  }

  lemma {:induction false} CodePointTransitive(a: string, b: string, c: string)
    requires CodePointCompare(a, b) <= 0 && CodePointCompare(b, c) <= 0
    ensures CodePointCompare(a, c) <= 0
    decreases |a|
  {
    if a != [] && b != [] && c != [] && a[0] == b[0] && b[0] == c[0] {
      CodePointTransitive(a[1..], b[1..], c[1..]);
    }
  }

  /** The code-point order is a consistent comparator, so it may stand in for
      the locale collation wherever the view engine sorts by a string field. */
  lemma CodePointIsComparator()
    ensures IsComparator(CodePointCompare)
  {
    forall a, b ensures Sign(CodePointCompare(a, b)) == -Sign(CodePointCompare(b, a)) {
      CodePointAntisymmetric(a, b);
    }
    forall a, b, c | CodePointCompare(a, b) <= 0 && CodePointCompare(b, c) <= 0
      ensures CodePointCompare(a, c) <= 0
    {
      CodePointTransitive(a, b, c);
    }
  }
}
