/**
 * Python's ordering of `str` values (code point by code point, a proper prefix
 * first) and `sorted()` of a list of strings under it.
 */
module LexOrder {

  /** `a <= b` on Python strings. */
  predicate LexLe(a: string, b: string)
    decreases |a|
  {
    a == [] || (b != [] && (a[0] < b[0] || (a[0] == b[0] && LexLe(a[1..], b[1..]))))
  }

  lemma {:induction false} LexLeReflexive(a: string)
    ensures LexLe(a, a)
  {
    if a != [] {
      LexLeReflexive(a[1..]);
    }
  }

  lemma {:induction false} LexLeTotal(a: string, b: string)
    ensures LexLe(a, b) || LexLe(b, a)
  {
    if a != [] && b != [] && a[0] == b[0] {
      LexLeTotal(a[1..], b[1..]);
    }
  }

  lemma {:induction false} LexLeTransitive(a: string, b: string, c: string)
    requires LexLe(a, b) && LexLe(b, c)
    ensures LexLe(a, c)
  {
    if a != [] && b != [] && c != [] && a[0] == b[0] == c[0] {
      LexLeTransitive(a[1..], b[1..], c[1..]);
    }
  }

  lemma {:induction false} LexLeAntisymmetric(a: string, b: string)
    requires LexLe(a, b) && LexLe(b, a)
    ensures a == b
  {
    if a != [] && b != [] {
      LexLeAntisymmetric(a[1..], b[1..]);
      assert a == [a[0]] + a[1..] && b == [b[0]] + b[1..];
    }
  }

  predicate Sorted(s: seq<string>) {
    forall i, j :: 0 <= i < j < |s| ==> LexLe(s[i], s[j])
  }

  /** A string below every element of a sorted sequence can go in front of it. */
  lemma SortedCons(y: string, s: seq<string>)
    requires Sorted(s)
    requires forall j :: 0 <= j < |s| ==> LexLe(y, s[j])
    ensures Sorted([y] + s)
  {
  }

  /** A string below the first element of a sorted sequence is below all of them. */
  lemma BelowHead(x: string, s: seq<string>)
    requires Sorted(s) && s != [] && LexLe(x, s[0])
    ensures forall j :: 0 <= j < |s| ==> LexLe(x, s[j])
  {
    forall j | 0 < j < |s| ensures LexLe(x, s[j]) { LexLeTransitive(x, s[0], s[j]); }
  }

  /** A lower bound of `s` and of `x` is a lower bound of any rearrangement of `s` plus `x`. */
  lemma LowerBound(lo: string, s: seq<string>, x: string, r: seq<string>)
    requires forall j :: 0 <= j < |s| ==> LexLe(lo, s[j])
    requires LexLe(lo, x)
    requires multiset(r) == multiset(s) + multiset{x}
    ensures forall j :: 0 <= j < |r| ==> LexLe(lo, r[j])
  {
    forall j | 0 <= j < |r| ensures LexLe(lo, r[j]) {
      assert r[j] in multiset(r);
      if r[j] != x {
        assert r[j] in multiset(s);
        var k :| 0 <= k < |s| && s[k] == r[j];
      }
    }
  }

  /** Put `x` in front of the first element of the sorted `s` that is not below it. */
  function Insert(x: string, s: seq<string>): (r: seq<string>)
    requires Sorted(s)
    ensures Sorted(r)
    ensures multiset(r) == multiset(s) + multiset{x}
  {
    if s == [] then [x]
    else if LexLe(x, s[0]) then
      BelowHead(x, s);
      SortedCons(x, s);
      [x] + s
    else
      var rest := Insert(x, s[1..]);
      LexLeTotal(x, s[0]);
      LowerBound(s[0], s[1..], x, rest);
      SortedCons(s[0], rest);
      assert s == [s[0]] + s[1..];
      [s[0]] + rest
  }

  /** `sorted(xs)`: the same strings, in ascending order. */
  function SortStrings(xs: seq<string>): (r: seq<string>)
    ensures Sorted(r)
    ensures multiset(r) == multiset(xs)
  {
    if xs == [] then []
    else
      assert xs == [xs[0]] + xs[1..];
      Insert(xs[0], SortStrings(xs[1..]))
  }
}
