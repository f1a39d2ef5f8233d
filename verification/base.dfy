/** Shared vocabulary: optional values, real-number helpers and the exact
    semantics of the Python primitives the scripts rely on (`int()` on a
    float, `round()`, `//`, `math.ceil` and slicing with possibly negative
    bounds). */
module Base {

  datatype Option<T> = None | Some(value: T)

  function OrElse<T>(o: Option<T>, d: T): T { if o.Some? then o.value else d }

  function Min(a: real, b: real): real { if a <= b then a else b }
  function Max(a: real, b: real): real { if a >= b then a else b }
  function Abs(x: real): real { if x >= 0.0 then x else -x }
  function MinInt(a: int, b: int): int { if a <= b then a else b }
  function MaxInt(a: int, b: int): int { if a >= b then a else b }

  /** Python `int(x)` for a float: truncation toward zero. */
  function Trunc(x: real): (r: int)
    ensures Abs(r as real) <= Abs(x) < Abs(r as real) + 1.0
    ensures x >= 0.0 ==> r >= 0 && r as real <= x
    ensures x <= 0.0 ==> r <= 0 && x <= r as real
  {
    if x >= 0.0 then x.Floor else -((-x).Floor)
  }

  /** `int()` never decreases when its argument grows. */
  lemma TruncMonotone(x: real, y: real)
    requires x <= y
    ensures Trunc(x) <= Trunc(y)
  {
    if x >= 0.0 {
      assert y >= 0.0;
    } else if y >= 0.0 {
    } else {
      assert (-y).Floor <= (-x).Floor;
    }
  }

  /** `math.floor` / `np.floor` on an exact real. */
  function Floor(x: real): (r: int)
    ensures r as real <= x < r as real + 1.0
  {
    x.Floor
  }

  /** `math.ceil` / `np.ceil` on an exact real. */
  function Ceil(x: real): (r: int)
    ensures x <= r as real < x + 1.0
  {
    -((-x).Floor)
  }

  /** Python's `round(x)` with one argument: round half to even. */
  function RoundHalfEven(x: real): (r: int)
    ensures Abs(r as real - x) <= 0.5
    ensures Abs(r as real - x) == 0.5 ==> r % 2 == 0
  {
    var f := x.Floor;
    var d := x - f as real;
    if d < 0.5 then f
    else if d > 0.5 then f + 1
    else if f % 2 == 0 then f else f + 1
  }

  /** Python's `a // b` on integers: floor division (Dafny's `/` is
      Euclidean, which differs from it for a negative divisor). */
  function PyFloorDiv(a: int, b: int): (q: int)
    requires b != 0
    ensures b > 0 ==> q * b <= a < q * b + b
    ensures b < 0 ==> q * b + b < a <= q * b
  {
    if b > 0 then a / b
    else
      var q := (-a) / (-b);
      assert q * (-b) <= -a < q * (-b) + (-b);
      assert q * (-b) == -(q * b);
      q
  }

  lemma MulMono(a: int, b: int, c: nat)
    requires a <= b
    ensures a * c <= b * c
  {}

  /** Multiplying by a non-negative factor keeps the order, and a strict
      order keeps a gap of one factor. */
  lemma MulStep(a: int, b: int, c: nat)
    ensures a <= b ==> a * c <= b * c
    ensures a < b ==> a * c + c <= b * c
  {
    if a < b {
      MulMono(a + 1, b, c);
      assert (a + 1) * c == a * c + c;
    }
  }

  /** Ceiling division `(n + t - 1) // t` for non-negative n and positive t. */
  function CeilDiv(n: nat, t: nat): (c: nat)
    requires t > 0
    ensures n <= c * t
    ensures c * t < n + t
    ensures n == 0 ==> c == 0
    ensures n > 0 ==> c > 0
  {
    var q := PyFloorDiv(n + t - 1, t);
    assert q * t <= n + t - 1 < q * t + t;
    NonNegFactor(q, t);
    q
  }

  lemma NonNegFactor(q: int, t: int)
    requires t > 0 && q * t > -t
    ensures q >= 0
  {
    MulStep(q, 0, t);
  }

  /** The ceiling quotient is the only multiplier landing in `[n, n + t)`. */
  lemma CeilDivUnique(n: nat, t: nat, q: int)
    requires t > 0 && n <= q * t < n + t
    ensures q == CeilDiv(n, t)
  {
    var p := CeilDiv(n, t);
    MulStep(q, p, t);
    MulStep(p, q, t);
  }

  /** Counting one more element opens a new chunk exactly when the count
      so far is a multiple of `t`. */
  lemma CeilDivStep(n: nat, t: nat)
    requires t > 0
    ensures CeilDiv(n + 1, t) == CeilDiv(n, t) + (if n % t == 0 then 1 else 0)
  {
    var a := n / t;
    var b := n % t;
    assert n == a * t + b;
    assert (a + 1) * t == a * t + t;
    if b == 0 {
      CeilDivUnique(n, t, a);
      CeilDivUnique(n + 1, t, a + 1);
    } else {
      CeilDivUnique(n, t, a + 1);
      CeilDivUnique(n + 1, t, a + 1);
    }
  }

  /** `math.ceil(n / t)` over exact reals is the integer ceiling division. */
  lemma CeilOfRatio(n: nat, t: int)
    requires t > 0
    ensures Ceil(n as real / t as real) == CeilDiv(n, t)
  {
    var c := CeilDiv(n, t);
    var tr := t as real;
    assert (c * t) as real == c as real * tr;
    assert ((c - 1) * t) as real == (c - 1) as real * tr;
    DivAtMost(n as real, c as real, tr);
    DivAbove(n as real, (c - 1) as real, tr);
  }

  lemma DivAtMost(a: real, b: real, d: real)
    requires d > 0.0 && a <= b * d
    ensures a / d <= b
  {
    assert (b - a / d) * d == b * d - a;
  }

  lemma DivAbove(a: real, b: real, d: real)
    requires d > 0.0 && b * d < a
    ensures b < a / d
  {
    assert (a / d - b) * d == a - b * d;
  }

  /** Python's normalisation of one slice bound against a length. */
  function PyBound(i: int, len: nat): (k: nat)
    ensures k <= len
    ensures 0 <= i <= len ==> k == i
  {
    if i < 0 then (if i + len < 0 then 0 else i + len)
    else if i > len then len else i
  }

  /** Python's `s[a:b]`, including negative and out-of-range bounds. */
  function PySlice<T>(s: seq<T>, a: int, b: int): (r: seq<T>)
    ensures 0 <= a <= b <= |s| ==> r == s[a..b]
    ensures |r| <= |s|
    ensures 0 <= a && 0 <= b && a <= |s| ==> r == s[a..MaxInt(a, MinInt(b, |s|))]
  {
    var lo := PyBound(a, |s|);
    var hi := PyBound(b, |s|);
    if lo < hi then s[lo..hi] else []
  }

  /** Capping the end of a slice at the length, as `min(end, n)` does,
      changes nothing. */
  lemma SliceMinEnd<T>(s: seq<T>, a: int, b: int)
    ensures PySlice(s, a, MinInt(b, |s|)) == PySlice(s, a, b)
  {}

  /** Cutting a list at any index `k` (`s[:k]` and `s[k:]`) loses and
      duplicates nothing, whatever the sign or size of `k`. */
  lemma PrefixSuffixPartition<T>(s: seq<T>, k: int)
    ensures PySlice(s, 0, k) + PySlice(s, k, |s|) == s
  {
    var m := PyBound(k, |s|);
    assert PySlice(s, 0, k) == s[..m];
    assert PySlice(s, k, |s|) == s[m..];
  }

  /** The chunk that job `j` of `t` receives: `s[j*c : j*c + c]` with
      `c = (n + t - 1) // t`. */
  function Chunk<T>(s: seq<T>, t: int, j: int): seq<T>
    requires t != 0
  {
    var c := PyFloorDiv(|s| + t - 1, t);
    PySlice(s, j * c, j * c + c)
  }

  /** Chunks `0 .. j-1` laid end to end. */
  function ChunksUpTo<T>(s: seq<T>, t: int, j: nat): seq<T>
    requires t != 0
  {
    if j == 0 then [] else ChunksUpTo(s, t, j - 1) + Chunk(s, t, j - 1)
  }

  lemma {:induction false} ChunksPrefix<T>(s: seq<T>, t: int, j: nat)
    requires t > 0
    ensures ChunksUpTo(s, t, j) == s[..MinInt(j * CeilDiv(|s|, t), |s|)]
  {
    if j > 0 {
      ChunksPrefix(s, t, j - 1);
      ChunksPrefixStep(s, t, j);
    }
  }

  /** One more chunk extends the covered prefix by one chunk length. */
  lemma ChunksPrefixStep<T>(s: seq<T>, t: int, j: nat)
    requires t > 0 && j >= 1
    requires ChunksUpTo(s, t, j - 1) == s[..MinInt((j - 1) * CeilDiv(|s|, t), |s|)]
    ensures ChunksUpTo(s, t, j) == s[..MinInt(j * CeilDiv(|s|, t), |s|)]
  {
    var c := CeilDiv(|s|, t);
    var lo, hi := ChunkEdges(|s|, c, j);
    assert Chunk(s, t, j - 1) == s[lo..hi] by { ChunkSlice(s, t, j, c, lo, hi); }
    ChunksStep(s, t, j, lo, hi);
  }

  /** Chunk `j - 1` extends the prefix the earlier chunks cover. */
  lemma ChunksStep<T>(s: seq<T>, t: int, j: nat, lo: nat, hi: nat)
    requires t > 0 && j >= 1 && lo <= hi <= |s|
    requires ChunksUpTo(s, t, j - 1) == s[..lo] && Chunk(s, t, j - 1) == s[lo..hi]
    ensures ChunksUpTo(s, t, j) == s[..hi]
  {
    PrefixThenSlice(s, lo, hi);
  }

  lemma PrefixThenSlice<T>(s: seq<T>, lo: nat, hi: nat)
    requires lo <= hi <= |s|
    ensures s[..lo] + s[lo..hi] == s[..hi]
  {
    assert s[..hi] == s[..lo] + s[lo..hi];
  }

  /** Chunk `j - 1` of a list of `n` spans `min((j-1)*c, n) .. min(j*c, n)`. */
  lemma ChunkEdges(n: nat, c: nat, j: nat) returns (lo: nat, hi: nat)
    requires j >= 1
    ensures lo == MinInt((j - 1) * c, n) && hi == MinInt(j * c, n)
    ensures lo <= hi <= n
    ensures j * c == (j - 1) * c + c
  {
    MulStep(j - 1, j, c);
    lo := MinInt((j - 1) * c, n);
    hi := MinInt(j * c, n);
  }

  lemma ChunkSlice<T>(s: seq<T>, t: int, j: nat, c: nat, lo: nat, hi: nat)
    requires t > 0 && j >= 1 && c == CeilDiv(|s|, t)
    requires lo == MinInt((j - 1) * c, |s|) && hi == MinInt(j * c, |s|) && lo <= hi <= |s|
    requires j * c == (j - 1) * c + c
    ensures Chunk(s, t, j - 1) == s[lo..hi]
  {
  }

  /** Over jobs `0 .. t-1` the chunks, concatenated in job order, are exactly
      the original list: they are pairwise disjoint and cover it. */
  lemma ChunksPartition<T>(s: seq<T>, t: int)
    requires t > 0
    ensures ChunksUpTo(s, t, t) == s
  {
    var c := CeilDiv(|s|, t);
    ChunksPrefix(s, t, t);
    assert c * t == t * c;
    assert MinInt(t * c, |s|) == |s|;
    assert s[..|s|] == s;
  }

  /** Index `x` lies in job `j`'s chunk for exactly one job, and that job
      is one of `0 .. t-1`. */
  lemma ChunkOwner(n: nat, t: int, x: nat, j1: nat, j2: nat)
    requires t > 0 && x < n
    requires j1 * CeilDiv(n, t) <= x < j1 * CeilDiv(n, t) + CeilDiv(n, t)
    requires j2 * CeilDiv(n, t) <= x < j2 * CeilDiv(n, t) + CeilDiv(n, t)
    ensures j1 == j2 && j1 < t
  {
    var c := CeilDiv(n, t);
    assert (j1 + 1) * c == j1 * c + c;
    assert (j2 + 1) * c == j2 * c + c;
    assert c * t == t * c;
    MulStep(j1, j2, c);
    MulStep(j2, j1, c);
    MulStep(t, j1, c);
  }

  /** A fraction in [0, 1] of a non-negative amount lies between 0 and
      the amount. */
  lemma ScaleDown(n: real, f: real)
    requires 0.0 <= n && 0.0 <= f <= 1.0
    ensures 0.0 <= n * f <= n
  {
    assert n - n * f == n * (1.0 - f);
  }

  /** A non-negative ratio below its denominator lies in [0, 1). */
  lemma RatioBounds(n: real, d: real)
    requires 0.0 <= n && d > 0.0
    ensures n / d >= 0.0
    ensures n < d ==> n / d < 1.0
    ensures n <= d ==> n / d <= 1.0
  {
    var q := n / d;
    assert q * d == n;
    if n <= d {
      assert q * d <= 1.0 * d;
    }
  }

  // ---------------------------------------------------------------------
  // List comprehensions

  /** `[g(x) for x in xs]` */
  function MapSeq<T, U>(g: T -> U, xs: seq<T>): (r: seq<U>)
    ensures |r| == |xs| && forall i :: 0 <= i < |xs| ==> r[i] == g(xs[i])
  {
    if |xs| == 0 then [] else [g(xs[0])] + MapSeq(g, xs[1..])
  }

  lemma {:induction false} MapSeqAppend<T, U>(g: T -> U, xs: seq<T>, ys: seq<T>)
    ensures MapSeq(g, xs + ys) == MapSeq(g, xs) + MapSeq(g, ys)
  {
    var w := MapSeq(g, xs + ys);
    var u := MapSeq(g, xs);
    var v := MapSeq(g, ys);
    forall i | 0 <= i < |w| ensures w[i] == (u + v)[i] {
      if i < |xs| {
        assert (xs + ys)[i] == xs[i];
        assert (u + v)[i] == u[i];
      } else {
        assert (xs + ys)[i] == ys[i - |xs|];
        assert (u + v)[i] == v[i - |xs|];
      }
    }
    assert |w| == |u + v|;
  }

  /** The lists laid end to end. */
  function Flatten<T>(xs: seq<seq<T>>): seq<T> {
    if |xs| == 0 then [] else xs[0] + Flatten(xs[1..])
  }

  /** An element of the flattened list is an element of one of the lists. */
  lemma {:induction false} FlattenMembers<T>(xs: seq<seq<T>>, x: T)
    ensures x in Flatten(xs) <==> exists i :: 0 <= i < |xs| && x in xs[i]
  {
    if |xs| > 0 {
      FlattenMembers(xs[1..], x);
      if exists i :: 0 <= i < |xs[1..]| && x in xs[1..][i] {
        var i :| 0 <= i < |xs[1..]| && x in xs[1..][i];
        assert xs[i + 1] == xs[1..][i];
      }
      if exists i :: 0 <= i < |xs| && x in xs[i] {
        var i :| 0 <= i < |xs| && x in xs[i];
        if i > 0 { assert xs[1..][i - 1] == xs[i]; }
      }
    }
  }

  lemma {:induction false} FlattenAppend<T>(xs: seq<seq<T>>, ys: seq<seq<T>>)
    ensures Flatten(xs + ys) == Flatten(xs) + Flatten(ys)
  {
    if |xs| > 0 {
      FlattenAppend(xs[1..], ys);
      assert (xs + ys)[1..] == xs[1..] + ys;
      assert (xs + ys)[0] == xs[0];
    } else {
      assert xs + ys == ys;
    }
  }

  /** `random.shuffle`, as a list of positions: `xs[order[0]], xs[order[1]], …`;
      positions out of range are dropped. */
  function Permute<T(==)>(xs: seq<T>, order: seq<nat>): (r: seq<T>)
    ensures forall x :: x in r ==> x in xs
  {
    if |order| == 0 then []
    else (if order[0] < |xs| then [xs[order[0]]] else []) + Permute(xs, order[1..])
  }

  /** When every position occurs in the order, the shuffled list has
      exactly the elements of the list. */
  lemma {:induction false} PermuteElements<T>(xs: seq<T>, order: seq<nat>, x: T)
    requires forall i :: 0 <= i < |xs| ==> i in order
    ensures x in Permute(xs, order) <==> x in xs
  {
    if x in xs {
      var i :| 0 <= i < |xs| && xs[i] == x;
      PermuteHas(xs, order, i);
    }
  }

  lemma {:induction false} PermuteHas<T>(xs: seq<T>, order: seq<nat>, i: nat)
    requires i < |xs| && i in order
    ensures xs[i] in Permute(xs, order)
  {
    if order[0] != i { PermuteHas(xs, order[1..], i); }
  }
}
