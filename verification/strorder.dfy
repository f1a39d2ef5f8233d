/** Python's ordering of `str` values (lexicographic by code point, a
    proper prefix first) and `sorted()` of a list of strings. */
module StrOrder {

  /** `a < b` on Python strings. */
  predicate Less(a: string, b: string)
    decreases |a|
  {
    if |a| == 0 then |b| > 0
    else if |b| == 0 then false
    else if a[0] == b[0] then Less(a[1..], b[1..])
    else a[0] < b[0]
  }

  predicate LessEq(a: string, b: string) {
    a == b || Less(a, b)
  }

  lemma {:induction false} LessIrreflexive(a: string)
    ensures !Less(a, a)
    decreases |a|
  {
    if |a| > 0 { LessIrreflexive(a[1..]); }
  }

  lemma {:induction false} LessTransitive(a: string, b: string, c: string)
    requires Less(a, b) && Less(b, c)
    ensures Less(a, c)
    decreases |a|
  {
    if |a| > 0 && |b| > 0 && |c| > 0 && a[0] == b[0] && b[0] == c[0] {
      LessTransitive(a[1..], b[1..], c[1..]);
    }
  }

  /** Any two different strings are ordered one way or the other. */
  lemma {:induction false} LessTotal(a: string, b: string)
    ensures a == b || Less(a, b) || Less(b, a)
    decreases |a|
  {
    if |a| > 0 && |b| > 0 && a[0] == b[0] {
      LessTotal(a[1..], b[1..]);
      if a[1..] == b[1..] { assert a == [a[0]] + a[1..] && b == [b[0]] + b[1..]; }
    }
  }

  lemma LessAsymmetric(a: string, b: string)
    requires Less(a, b)
    ensures !Less(b, a) && a != b
  {
    LessIrreflexive(a);
    if Less(b, a) { LessTransitive(a, b, a); }
  }

  /** Every pair of positions is in strictly increasing order. */
  predicate StrictlySorted(s: seq<string>) {
    forall i, j :: 0 <= i < j < |s| ==> Less(s[i], s[j])
  }

  /** Every pair of positions is in non-decreasing order. */
  predicate Sorted(s: seq<string>) {
    forall i, j :: 0 <= i < j < |s| ==> LessEq(s[i], s[j])
  }

  function Insert(x: string, s: seq<string>): (r: seq<string>)
    requires Sorted(s)
    ensures multiset(r) == multiset(s) + multiset{x}
    ensures Sorted(r)
  {
    if |s| == 0 then [x]
    else if LessEq(x, s[0]) then
      var r := [x] + s;
      forall i, j | 0 <= i < j < |r| ensures LessEq(r[i], r[j]) {
        assert r[j] == s[j - 1];
        if i == 0 {
          assert LessEq(s[0], s[j - 1]);
          if x != s[0] && s[0] != s[j - 1] { LessTransitive(x, s[0], s[j - 1]); }
        } else {
          assert r[i] == s[i - 1];
        }
      }
      r
    else
      var t := Insert(x, s[1..]);
      assert s == [s[0]] + s[1..];
      LessTotal(x, s[0]);
      assert forall k :: 0 <= k < |t| ==> LessEq(s[0], t[k]) by {
        forall k | 0 <= k < |t| ensures LessEq(s[0], t[k]) {
          assert t[k] in multiset(t);
          assert t[k] == x || t[k] in multiset(s[1..]);
          if t[k] != x {
            var i :| 0 <= i < |s[1..]| && s[1..][i] == t[k];
            assert s[i + 1] == t[k];
          }
        }
      }
      [s[0]] + t
  }

  /** `sorted(xs)`: a sorted permutation of `xs`. */
  function Sort(xs: seq<string>): (r: seq<string>)
    ensures multiset(r) == multiset(xs)
    ensures Sorted(r)
  {
    if |xs| == 0 then []
    else
      assert xs == xs[..|xs| - 1] + [xs[|xs| - 1]];
      Insert(xs[|xs| - 1], Sort(xs[..|xs| - 1]))
  }

  /** Sorting keeps exactly the elements of the list. */
  lemma SortElements(xs: seq<string>)
    ensures forall x :: x in Sort(xs) <==> x in xs
  {
    var r := Sort(xs);
    forall x ensures x in r <==> x in xs {
      assert x in r <==> x in multiset(r);
      assert x in xs <==> x in multiset(xs);
    }
  }

  predicate Distinct(s: seq<string>) {
    forall i, j :: 0 <= i < j < |s| ==> s[i] != s[j]
  }

  /** Sorting a list without repeats gives a strictly increasing list. */
  lemma SortDistinct(xs: seq<string>)
    requires Distinct(xs)
    ensures StrictlySorted(Sort(xs))
  {
    var r := Sort(xs);
    forall i, j | 0 <= i < j < |r| ensures Less(r[i], r[j]) {
      if r[i] == r[j] {
        RepeatCount(r, i, j);
        DistinctCount(xs, r[i]);
      }
    }
  }

  /** A value found at two positions occurs at least twice. */
  lemma RepeatCount(r: seq<string>, i: nat, j: nat)
    requires i < j < |r| && r[i] == r[j]
    ensures multiset(r)[r[i]] >= 2
  {
    assert r == r[..j] + [r[j]] + r[j + 1..];
    assert r[i] in r[..j];
  }

  lemma {:induction false} DistinctCount(xs: seq<string>, x: string)
    requires Distinct(xs)
    ensures multiset(xs)[x] <= 1
    decreases |xs|
  {
    if |xs| > 0 {
      assert xs == [xs[0]] + xs[1..];
      DistinctCount(xs[1..], x);
      if xs[0] == x { assert x !in xs[1..]; }
    }
  }

  /** The first occurrence of every element, in order. */
  function Dedupe(xs: seq<string>): (r: seq<string>)
    ensures Distinct(r)
    ensures forall x :: x in r <==> x in xs
  {
    if |xs| == 0 then []
    else
      var init := xs[..|xs| - 1];
      var last := xs[|xs| - 1];
      var d := Dedupe(init);
      assert xs == init + [last];
      if last in d then d else d + [last]
  }

  /** `sorted(set(xs))`: the distinct elements in increasing order. */
  function SortedSet(xs: seq<string>): (r: seq<string>)
    ensures StrictlySorted(r)
    ensures forall x :: x in r <==> x in xs
  {
    var d := Dedupe(xs);
    SortDistinct(d);
    SortElements(d);
    Sort(d)
  }

  /** Two strictly sorted lists with the same elements are the same list:
      the order in which a directory was listed cannot change `sorted`. */
  lemma {:induction false} SortedUnique(a: seq<string>, b: seq<string>)
    requires StrictlySorted(a) && StrictlySorted(b)
    requires forall x :: x in a <==> x in b
    ensures a == b
    decreases |a|
  {
    if |a| > 0 { assert a[0] in b; }
    if |b| > 0 { assert b[0] in a; }
    if |a| > 0 && |b| > 0 {
      var i :| 0 <= i < |a| && a[i] == b[0];
      var j :| 0 <= j < |b| && b[j] == a[0];
      if i > 0 && j > 0 {
        assert Less(a[0], a[i]) && Less(b[0], b[j]);
        LessAsymmetric(a[0], b[0]);
      }
      assert a[0] == b[0] by {
        if i == 0 { } else if j == 0 { }
      }
      forall x | x in a[1..] ensures x in b[1..] {
        var k :| 1 <= k < |a| && a[k] == x;
        assert Less(a[0], a[k]);
        LessAsymmetric(a[0], a[k]);
        assert x in a;
        var l :| 0 <= l < |b| && b[l] == x;
        assert l != 0;
        assert b[1..][l - 1] == x;
      }
      forall x | x in b[1..] ensures x in a[1..] {
        var k :| 1 <= k < |b| && b[k] == x;
        assert Less(b[0], b[k]);
        LessAsymmetric(b[0], b[k]);
        assert x in b;
        var l :| 0 <= l < |a| && a[l] == x;
        assert l != 0;
        assert a[1..][l - 1] == x;
      }
      SortedUnique(a[1..], b[1..]);
      assert a == [a[0]] + a[1..] && b == [b[0]] + b[1..];
    }
  }
}
