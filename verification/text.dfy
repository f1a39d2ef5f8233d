/** The Python string and path primitives the scripts use, over `string`
    (= `seq<char>`): `str.split(sep)`, `str.split()`, `str.join`, `str.strip`
    as a truthiness test, `upper`/`lower`, `str.replace`, `startswith`/
    `endswith`, `os.path.splitext`/`basename`/`join`, `str(n)`, and the
    `int()`/`float()` conversions of one token. Character classes are
    ASCII. */
module Text {
  import opened Base

  // ---------------------------------------------------------------------
  // Character classes

  /** ASCII characters that `str.split()` and `str.strip()` treat as
      whitespace. */
  predicate IsSpace(c: char) {
    // tab, line feed, vertical tab, form feed, carriage return,
    // the four separator controls, and space
    (9 <= c as int <= 13) || (28 <= c as int <= 32)
  }

  predicate IsDigit(c: char) { '0' <= c <= '9' }

  /** `not s.strip()`: the string holds whitespace only. */
  predicate IsBlank(s: string) {
    forall i :: 0 <= i < |s| ==> IsSpace(s[i])
  }

  function UpperChar(c: char): char {
    if 'a' <= c <= 'z' then (c as int - 32) as char else c
  }

  function LowerChar(c: char): char {
    if 'A' <= c <= 'Z' then (c as int + 32) as char else c
  }

  /** `s.upper()` */
  function Upper(s: string): (r: string)
    ensures |r| == |s|
    ensures forall i :: 0 <= i < |s| ==> r[i] == UpperChar(s[i])
  {
    seq(|s|, i requires 0 <= i < |s| => UpperChar(s[i]))
  }

  /** `s.lower()` */
  function Lower(s: string): (r: string)
    ensures |r| == |s|
    ensures forall i :: 0 <= i < |s| ==> r[i] == LowerChar(s[i])
  {
    seq(|s|, i requires 0 <= i < |s| => LowerChar(s[i]))
  }

  lemma UpperIdempotent(s: string)
    ensures Upper(Upper(s)) == Upper(s)
  {}

  // ---------------------------------------------------------------------
  // Prefixes, suffixes, searching

  predicate StartsWith(s: string, p: string) {
    |p| <= |s| && s[..|p|] == p
  }

  predicate EndsWith(s: string, p: string) {
    |p| <= |s| && s[|s| - |p|..] == p
  }

  /** Index of the first occurrence of `c`. */
  function IndexOf(s: string, c: char): (i: nat)
    requires c in s
    ensures i < |s| && s[i] == c && c !in s[..i]
  {
    if s[0] == c then 0 else
      var k := IndexOf(s[1..], c);
      assert s[1..][..k] == s[1..k + 1];
      1 + k
  }

  /** Index of the last occurrence of `c`, or -1. */
  function LastIndexOf(s: string, c: char): (i: int)
    ensures -1 <= i < |s|
    ensures i >= 0 ==> s[i] == c
    ensures forall k :: i < k < |s| ==> s[k] != c
  {
    if |s| == 0 then -1
    else if s[|s| - 1] == c then |s| - 1
    else LastIndexOf(s[..|s| - 1], c)
  }

  // ---------------------------------------------------------------------
  // str.split(sep) and str.join

  /** `s.split(c)` for a one-character separator. */
  function Split(s: string, c: char): (r: seq<string>)
    ensures |r| >= 1
    ensures forall k :: 0 <= k < |r| ==> c !in r[k]
    decreases |s|
  {
    if c !in s then [s]
    else
      var i := IndexOf(s, c);
      [s[..i]] + Split(s[i + 1..], c)
  }

  /** `c.join(parts)` */
  function Join(parts: seq<string>, c: char): string {
    if |parts| == 0 then ""
    else if |parts| == 1 then parts[0]
    else parts[0] + [c] + Join(parts[1..], c)
  }

  /** Splitting and re-joining on the same separator gives back the text. */
  lemma {:induction false} JoinSplit(s: string, c: char)
    ensures Join(Split(s, c), c) == s
    decreases |s|
  {
    if c in s {
      var i := IndexOf(s, c);
      var rest := s[i + 1..];
      JoinSplit(rest, c);
      assert Split(s, c)[1..] == Split(rest, c);
      assert s == s[..i] + [c] + rest;
    }
  }

  /** Joining separator-free pieces and splitting again gives the pieces. */
  lemma {:induction false} SplitJoin(parts: seq<string>, c: char)
    requires |parts| >= 1
    requires forall k :: 0 <= k < |parts| ==> c !in parts[k]
    ensures Split(Join(parts, c), c) == parts
    decreases |parts|
  {
    if |parts| > 1 {
      var s := Join(parts, c);
      var tail := Join(parts[1..], c);
      SplitJoin(parts[1..], c);
      assert s == parts[0] + [c] + tail;
      assert s[|parts[0]|] == c;
      var i := IndexOf(s, c);
      assert s[..|parts[0]|] == parts[0];
      assert i == |parts[0]|;
      assert s[..i] == parts[0];
      assert s[i + 1..] == tail;
    }
  }

  /** Appending a piece to a joined list adds one separator. */
  lemma {:induction false} JoinAppend(parts: seq<string>, x: string, c: char)
    requires |parts| >= 1
    ensures Join(parts + [x], c) == Join(parts, c) + [c] + x
    decreases |parts|
  {
    if |parts| == 1 {
      assert parts + [x] == [parts[0], x];
      assert Join([x], c) == x;
    } else {
      assert (parts + [x])[1..] == parts[1..] + [x];
      JoinAppend(parts[1..], x, c);
    }
  }

  /** The lines `for line in f` yields, line breaks removed: the text cut
      at every `\n`, where a final empty piece (after a closing `\n`, or
      of an empty file) is no line. */
  function FileLines(s: string): (r: seq<string>)
    ensures forall k :: 0 <= k < |r| ==> '\n' !in r[k]
    ensures s == "" ==> r == []
  {
    var parts := Split(s, '\n');
    if parts[|parts| - 1] == "" then parts[..|parts| - 1] else parts
  }

  /** Lines written with a `\n` after each are read back unchanged. */
  lemma FileLinesOfTerminated(ls: seq<string>)
    requires |ls| >= 1
    requires forall k :: 0 <= k < |ls| ==> '\n' !in ls[k]
    ensures FileLines(Join(ls, '\n') + "\n") == ls
  {
    JoinAppend(ls, "", '\n');
    assert Join(ls + [""], '\n') == Join(ls, '\n') + "\n";
    SplitJoin(ls + [""], '\n');
    assert (ls + [""])[..|ls|] == ls;
  }

  /** The last `_`-separated component (`s.split(c)[-1]`). */
  function LastPiece(s: string, c: char): string {
    var parts := Split(s, c);
    parts[|parts| - 1]
  }

  // ---------------------------------------------------------------------
  // str.split() with no argument

  /** Length of the leading run of non-whitespace characters. */
  function TokenLen(s: string): (n: nat)
    ensures n <= |s|
    ensures forall i :: 0 <= i < n ==> !IsSpace(s[i])
    ensures n < |s| ==> IsSpace(s[n])
  {
    if |s| == 0 || IsSpace(s[0]) then 0 else 1 + TokenLen(s[1..])
  }

  /** `s.split()`: the maximal runs of non-whitespace characters. */
  function Words(s: string): (r: seq<string>)
    ensures forall k :: 0 <= k < |r| ==> |r[k]| > 0
    ensures forall k :: 0 <= k < |r| ==> forall i :: 0 <= i < |r[k]| ==> !IsSpace(r[k][i])
    decreases |s|
  {
    if |s| == 0 then []
    else if IsSpace(s[0]) then Words(s[1..])
    else
      var n := TokenLen(s);
      [s[..n]] + Words(s[n..])
  }

  /** `s.split()` is empty exactly when `s.strip()` is empty. */
  lemma {:induction false} WordsEmptyIffBlank(s: string)
    ensures |Words(s)| == 0 <==> IsBlank(s)
    decreases |s|
  {
    if |s| > 0 {
      if IsSpace(s[0]) {
        WordsEmptyIffBlank(s[1..]);
        if IsBlank(s[1..]) {
          forall i | 0 <= i < |s| ensures IsSpace(s[i]) {
            if i > 0 { assert s[i] == s[1..][i - 1]; }
          }
        }
      }
    }
  }

  // ---------------------------------------------------------------------
  // str.replace(pat, rep)

  /** `s.replace(pat, rep)`: every non-overlapping occurrence of `pat`,
      scanning from the left, is replaced. */
  function ReplaceAll(s: string, pat: string, rep: string): string
    requires |pat| > 0
    decreases |s|
  {
    if |s| < |pat| then s
    else if s[..|pat|] == pat then rep + ReplaceAll(s[|pat|..], pat, rep)
    else [s[0]] + ReplaceAll(s[1..], pat, rep)
  }

  /** `pat` occurs somewhere in `s`. */
  predicate Occurs(s: string, pat: string) {
    exists i :: 0 <= i <= |s| - |pat| && OccursAt(s, pat, i)
  }

  /** `pat` occurs in `s` starting at index `i`. */
  predicate OccursAt(s: string, pat: string, i: int) {
    0 <= i <= |s| - |pat| && s[i..i + |pat|] == pat
  }

  /** A text in which `pat` never occurs is left unchanged. */
  lemma {:induction false} ReplaceAbsent(s: string, pat: string, rep: string)
    requires |pat| > 0 && !Occurs(s, pat)
    ensures ReplaceAll(s, pat, rep) == s
    decreases |s|
  {
    if |s| >= |pat| {
      assert !OccursAt(s, pat, 0);
      forall i | 0 <= i <= |s[1..]| - |pat|
        ensures !OccursAt(s[1..], pat, i)
      {
        assert s[1..][i..i + |pat|] == s[i + 1..i + 1 + |pat|];
        assert !OccursAt(s, pat, i + 1);
      }
      ReplaceAbsent(s[1..], pat, rep);
    }
  }

  /** A stem in which the first character of `pat` never appears, followed
      by `pat`: the trailing `pat` is the only occurrence and is replaced. */
  lemma {:induction false} ReplaceSuffix(stem: string, pat: string, rep: string)
    requires |pat| > 0
    requires forall i :: 0 <= i < |stem| ==> stem[i] != pat[0]
    ensures ReplaceAll(stem + pat, pat, rep) == stem + rep
    decreases |stem|
  {
    var s := stem + pat;
    if |stem| == 0 {
      assert s[..|pat|] == pat;
      assert s[|pat|..] == [];
    } else {
      assert s[0] == stem[0];
      assert s[..|pat|] != pat by { assert s[..|pat|][0] == stem[0]; }
      assert s[1..] == stem[1..] + pat;
      ReplaceSuffix(stem[1..], pat, rep);
      assert [stem[0]] + (stem[1..] + rep) == stem + rep;
    }
  }

  // ---------------------------------------------------------------------
  // os.path (POSIX)

  /** Appending text without `c` leaves the last `c` where it was. */
  lemma {:induction false} LastIndexOfAppend(p: string, q: string, c: char)
    requires forall k :: 0 <= k < |q| ==> q[k] != c
    ensures LastIndexOf(p + q, c) == LastIndexOf(p, c)
    decreases |q|
  {
    if |q| > 0 {
      var s := p + q;
      assert s[|s| - 1] == q[|q| - 1];
      assert s[..|s| - 1] == p + q[..|q| - 1];
      LastIndexOfAppend(p, q[..|q| - 1], c);
    } else {
      assert p + q == p;
    }
  }

  /** A suffix without `/` stays in the basename. */
  lemma BasenameAppend(p: string, q: string)
    requires forall k :: 0 <= k < |q| ==> q[k] != '/'
    ensures Basename(p + q) == Basename(p) + q
  {
    LastIndexOfAppend(p, q, '/');
    var j := LastIndexOf(p, '/');
    assert (p + q)[j + 1..] == p[j + 1..] + q;
  }

  /** The last component of `os.path.join(dir, name)` is `name` when the
      name holds no `/`. */
  lemma BasenameJoin(dir: string, name: string)
    requires '/' !in name
    ensures Basename(PathJoin(dir, name)) == name
  {
    if dir == "" {
      assert LastIndexOf(name, '/') == -1;
    } else {
      var sep := if EndsWith(dir, "/") then dir else dir + "/";
      assert sep[|sep| - 1] == '/';
      assert Basename(sep) == "";
      assert PathJoin(dir, name) == sep + name by {
        if |name| > 0 { assert name[0] != '/'; }
      }
      BasenameAppend(sep, name);
    }
  }

  /** `os.path.basename(p)`: the text after the last `/`. */
  function Basename(p: string): (r: string)
    ensures forall k :: 0 <= k < |r| ==> r[k] != '/'
    ensures EndsWith(p, r)
  {
    p[LastIndexOf(p, '/') + 1..]
  }

  /** Some character strictly between `lo` and `hi` is not a dot. */
  predicate HasNonDotBetween(p: string, lo: int, hi: int)
    requires -1 <= lo && hi <= |p|
  {
    exists k :: lo < k < hi && p[k] != '.'
  }

  /** `os.path.splitext(p)`: the extension starts at the last dot of the
      last path component, unless everything before that dot in the
      component is dots (a leading-dot name such as `.hea` has no
      extension). */
  function SplitExt(p: string): (r: (string, string))
    ensures r.0 + r.1 == p
    ensures r.1 == "" || (r.1[0] == '.' && '.' !in r.1[1..] && '/' !in r.1)
  {
    var sep := LastIndexOf(p, '/');
    var dot := LastIndexOf(p, '.');
    if dot > sep && HasNonDotBetween(p, sep, dot) then
      var ext := p[dot..];
      assert '.' !in ext[1..] by {
        forall k | 0 <= k < |ext[1..]| ensures ext[1..][k] != '.' { assert ext[1..][k] == p[dot + 1 + k]; }
      }
      assert '/' !in ext by {
        forall k | 0 <= k < |ext| ensures ext[k] != '/' { assert ext[k] == p[dot + k]; }
      }
      assert p[..dot] + ext == p;
      (p[..dot], ext)
    else (p, "")
  }

  /** A name `stem + ext`, where `ext` is a dot and dot-free characters and
      the stem has a non-dot character and no `/`, splits into exactly those
      parts. */
  lemma SplitExtOf(stem: string, ext: string)
    requires |ext| >= 1 && ext[0] == '.' && '.' !in ext[1..] && '/' !in ext
    requires '/' !in stem
    requires exists k :: 0 <= k < |stem| && stem[k] != '.'
    ensures SplitExt(stem + ext) == (stem, ext)
  {
    var p := stem + ext;
    var sep := LastIndexOf(p, '/');
    var dot := LastIndexOf(p, '.');
    assert sep == -1;
    assert p[|stem|] == '.';
    assert dot == |stem|;
    var k :| 0 <= k < |stem| && stem[k] != '.';
    assert p[k] == stem[k];
    assert HasNonDotBetween(p, sep, dot);
    assert p[..dot] == stem;
  }

  /** `[f for f in listing if f.endswith(suffix)]` */
  function EndingWith(listing: seq<string>, suffix: string): (r: seq<string>)
    ensures forall f :: f in r <==> f in listing && EndsWith(f, suffix)
  {
    if |listing| == 0 then []
    else (if EndsWith(listing[0], suffix) then [listing[0]] else []) + EndingWith(listing[1..], suffix)
  }

  /** One file yielded by `os.walk`: the directory and the file name. */
  datatype WalkedFile = WalkedFile(root: string, name: string)

  /** `os.path.join(a, b)` for two components (POSIX). */
  function PathJoin(a: string, b: string): (r: string)
    ensures StartsWith(b, "/") ==> r == b
    ensures EndsWith(r, b)
  {
    if StartsWith(b, "/") then b
    else if a == "" || EndsWith(a, "/") then a + b
    else a + "/" + b
  }

  // ---------------------------------------------------------------------
  // Numbers as text

  function DigitChar(d: nat): char
    requires d < 10
  {
    ('0' as int + d) as char
  }

  /** `str(n)` for a non-negative integer. */
  function NatToString(n: nat): (r: string)
    ensures |r| >= 1
    ensures forall i :: 0 <= i < |r| ==> IsDigit(r[i])
    decreases n
  {
    if n < 10 then [DigitChar(n)] else NatToString(n / 10) + [DigitChar(n % 10)]
  }

  /** `str(n)` for any integer. */
  function IntToString(n: int): (r: string)
    ensures n >= 0 ==> r == NatToString(n)
    ensures n < 0 ==> |r| >= 2 && r[0] == '-' && r[1..] == NatToString(-n)
  {
    if n >= 0 then NatToString(n) else "-" + NatToString(-n)
  }

  /** Value of a string of decimal digits. */
  function DigitsValue(s: string): nat
    requires forall i :: 0 <= i < |s| ==> IsDigit(s[i])
  {
    if |s| == 0 then 0
    else
      var last := s[|s| - 1];
      assert IsDigit(last);
      10 * DigitsValue(s[..|s| - 1]) + (last as int - '0' as int)
  }

  predicate AllDigits(s: string) {
    forall i :: 0 <= i < |s| ==> IsDigit(s[i])
  }

  /** Reading back `str(n)` gives `n`, so `str` is injective on naturals. */
  lemma {:induction false} NatToStringValue(n: nat)
    ensures DigitsValue(NatToString(n)) == n
    decreases n
  {
    if n >= 10 {
      NatToStringValue(n / 10);
      var s := NatToString(n);
      assert s[..|s| - 1] == NatToString(n / 10);
    }
  }

  lemma NatToStringInjective(a: nat, b: nat)
    requires NatToString(a) == NatToString(b)
    ensures a == b
  {
    NatToStringValue(a);
    NatToStringValue(b);
  }

  lemma IntToStringInjective(a: int, b: int)
    requires IntToString(a) == IntToString(b)
    ensures a == b
  {
    if a >= 0 && b >= 0 {
      NatToStringInjective(a, b);
    } else if a < 0 && b < 0 {
      NatToStringInjective(-a, -b);
    }
  }

  /** `f"{n:03d}"` for a non-negative integer. */
  function ZeroPad3(n: nat): (r: string)
    ensures |r| >= 3
    ensures AllDigits(r)
    ensures DigitsValue(r) == n
  {
    var d := NatToString(n);
    NatToStringValue(n);
    var pad := if |d| >= 3 then "" else seq(3 - |d|, _ => '0');
    LeadingZeros(pad, d);
    pad + d
  }

  lemma {:induction false} LeadingZeros(pad: string, d: string)
    requires forall i :: 0 <= i < |pad| ==> pad[i] == '0'
    requires AllDigits(d)
    ensures AllDigits(pad + d) && DigitsValue(pad + d) == DigitsValue(d)
    decreases |d|
  {
    if |d| == 0 {
      assert pad + d == pad;
      AllZeros(pad);
    } else {
      var s := pad + d;
      assert s[..|s| - 1] == pad + d[..|d| - 1];
      LeadingZeros(pad, d[..|d| - 1]);
    }
  }

  lemma {:induction false} AllZeros(pad: string)
    requires forall i :: 0 <= i < |pad| ==> pad[i] == '0'
    ensures AllDigits(pad) && DigitsValue(pad) == 0
    decreases |pad|
  {
    if |pad| > 0 { AllZeros(pad[..|pad| - 1]); }
  }

  /** `int(tok)` for a whitespace-free token: optional sign, then one or more
      ASCII digits; anything else is the `ValueError` case (`None`). */
  function ParseInt(tok: string): (r: Option<int>)
    ensures r.Some? ==> |tok| > 0
  {
    if |tok| > 0 && (tok[0] == '-' || tok[0] == '+') then
      var body := tok[1..];
      if |body| > 0 && AllDigits(body) then
        Some(if tok[0] == '-' then -(DigitsValue(body) as int) else DigitsValue(body))
      else None
    else if |tok| > 0 && AllDigits(tok) then Some(DigitsValue(tok))
    else None
  }

  /** `str(n)` is read back by `int()`. */
  lemma ParseIntOfNat(n: nat)
    ensures ParseInt(NatToString(n)) == Some(n)
  {
    NatToStringValue(n);
  }

  function Pow10(k: nat): (r: nat)
    ensures r >= 1
  {
    if k == 0 then 1 else 10 * Pow10(k - 1)
  }

  /** Unsigned decimal `digits[.digits]` with at least one digit. */
  function ParseUnsignedDecimal(s: string): (r: Option<real>)
    ensures r.Some? ==> r.value >= 0.0
  {
    if '.' in s then
      var i := IndexOf(s, '.');
      var whole := s[..i];
      var frac := s[i + 1..];
      if AllDigits(whole) && AllDigits(frac) && |whole| + |frac| > 0 then
        Some(DigitsValue(whole) as real + DigitsValue(frac) as real / Pow10(|frac|) as real)
      else None
    else if |s| > 0 && AllDigits(s) then Some(DigitsValue(s) as real)
    else None
  }

  /** `float(tok)` for a whitespace-free token of the decimal form
      `[+-]digits[.digits]` or `[+-].digits`; anything else is `None`. */
  function ParseFloat(tok: string): (r: Option<real>)
  {
    if |tok| > 0 && (tok[0] == '-' || tok[0] == '+') then
      match ParseUnsignedDecimal(tok[1..])
      case Some(v) => Some(if tok[0] == '-' then -v else v)
      case None => None
    else ParseUnsignedDecimal(tok)
  }

  /** Every integer token reads as the same number through `float()`. */
  lemma ParseFloatOfNat(n: nat)
    ensures ParseFloat(NatToString(n)) == Some(n as real)
  {
    NatToStringValue(n);
    var s := NatToString(n);
    assert '.' !in s by {
      forall i | 0 <= i < |s| ensures s[i] != '.' { assert IsDigit(s[i]); }
    }
  }
}
