/** WFDB header reading (`helper_functions.py`): the `(baseline)` removal
    of `load_header`, `get_leads`, `get_frequency`, `get_adc_gains`, plus
    `truncate_signal`, `create_signal_dictionary` and `standardize_leads`.

    A header is text whose first line is the record line
    `name nsig fs[/counter] ...` and whose next `nsig` lines are signal
    lines `file fmt gain[(baseline)]/units ... description`, as in the
    PhysioNet `header(5)` format. The partner of the parsers is `Render`,
    which lays out record and signal fields as such a text. */
module WfdbHeader {
  import opened Base
  import opened Text

  // ---------------------------------------------------------------------
  // load_header: re.sub(r'\(\d+\)', '', text)

  /** Length of the leading run of ASCII digits. */
  function DigitRun(s: string): (n: nat)
    ensures n <= |s|
    ensures forall i :: 0 <= i < n ==> IsDigit(s[i])
    ensures n < |s| ==> !IsDigit(s[n])
  {
    if |s| == 0 || !IsDigit(s[0]) then 0 else 1 + DigitRun(s[1..])
  }

  /** Length of a `(digits)` group at the start of `s`, or 0 when `s` does
      not start with one. The digit run is maximal, as `\d+` is greedy and
      a digit can never match `)`. */
  function GroupLen(s: string): (n: nat)
    ensures n <= |s|
    ensures n > 0 ==> n >= 3 && s[0] == '('
  {
    if |s| > 0 && s[0] == '(' then
      var d := DigitRun(s[1..]);
      if d > 0 && 1 + d < |s| && s[1 + d] == ')' then d + 2 else 0
    else 0
  }

  /** `load_header`'s substitution: scanning left to right, each
      `(digits)` group is deleted; any other character is kept. */
  function StripGroups(s: string): (r: string)
    ensures |r| <= |s|
    decreases |s|
  {
    if |s| == 0 then ""
    else
      var n := GroupLen(s);
      if n > 0 then StripGroups(s[n..]) else [s[0]] + StripGroups(s[1..])
  }

  /** Text without an opening parenthesis is left unchanged. */
  lemma {:induction false} StripGroupsNoParen(s: string)
    requires '(' !in s
    ensures StripGroups(s) == s
    decreases |s|
  {
    if |s| > 0 {
      assert s[1..] == s[1..];
      assert '(' !in s[1..] by {
        forall k | 0 <= k < |s[1..]| ensures s[1..][k] != '(' { assert s[1..][k] == s[k + 1]; }
      }
      StripGroupsNoParen(s[1..]);
    }
  }

  /** A character other than `(` is kept. */
  lemma StripGroupsKeep(c: char, rest: string)
    requires c != '('
    ensures StripGroups([c] + rest) == [c] + StripGroups(rest)
  {
    var s := [c] + rest;
    assert GroupLen(s) == 0;
    assert s[1..] == rest;
  }

  /** A leading `(digits)` group is deleted. */
  lemma StripGroupsLeading(d: string, b: string)
    requires |d| > 0 && AllDigits(d)
    ensures StripGroups(['('] + d + [')'] + b) == StripGroups(b)
  {
    var s := ['('] + d + [')'] + b;
    assert s[1..] == d + ([')'] + b);
    DigitRunOf(d, [')'] + b);
    assert s[1 + |d|] == ')';
    assert GroupLen(s) == |d| + 2;
    assert s[|d| + 2..] == b;
  }

  /** The first group after a parenthesis-free prefix is deleted, and the
      scan resumes right after it. */
  lemma {:induction false} StripGroupsDeletes(a: string, d: string, b: string)
    requires '(' !in a
    requires |d| > 0 && AllDigits(d)
    ensures StripGroups(a + ['('] + d + [')'] + b) == a + StripGroups(b)
    decreases |a|
  {
    var g := ['('] + d + [')'] + b;
    assert a + ['('] + d + [')'] + b == a + g;
    if |a| == 0 {
      assert a + g == g;
      StripGroupsLeading(d, b);
    } else {
      var tail := a[1..];
      assert a + g == [a[0]] + (tail + g);
      assert tail + ['('] + d + [')'] + b == tail + g;
      StripGroupsKeep(a[0], tail + g);
      assert '(' !in tail by {
        forall k | 0 <= k < |tail| ensures tail[k] != '(' { assert tail[k] == a[k + 1]; }
      }
      StripGroupsDeletes(tail, d, b);
      assert [a[0]] + (tail + StripGroups(b)) == a + StripGroups(b);
    }
  }

  lemma DigitRunOf(d: string, rest: string)
    requires AllDigits(d)
    requires |rest| > 0 && !IsDigit(rest[0])
    ensures DigitRun(d + rest) == |d|
    decreases |d|
  {
    if |d| > 0 {
      assert (d + rest)[1..] == d[1..] + rest;
      DigitRunOf(d[1..], rest);
    }
  }

  // ---------------------------------------------------------------------
  // Line structure

  function Lines(h: string): seq<string> { Split(h, '\n') }

  /** The record line's second token read with `int()`; `None` is the
      `IndexError`/`ValueError` case. */
  function SignalCount(h: string): Option<int> {
    var w := Words(Lines(h)[0]);
    if |w| < 2 then None else ParseInt(w[1])
  }

  /** `lines[i]` for `i` in `range(1, min(nsig + 1, len(lines)))`. */
  function SignalLines(h: string, nsig: int): (r: seq<string>)
    ensures |r| <= MaxInt(nsig, 0)
  {
    var lines := Lines(h);
    var hi := MinInt(nsig + 1, |lines|);
    if hi <= 1 then [] else lines[1..hi]
  }

  /** Last whitespace-separated token of each non-blank line, in order. */
  function LastTokens(ls: seq<string>): (r: seq<string>)
    ensures |r| <= |ls|
    ensures forall k :: 0 <= k < |r| ==> |r[k]| > 0
  {
    if |ls| == 0 then []
    else if IsBlank(ls[0]) then LastTokens(ls[1..])
    else
      var w := Words(ls[0]);
      WordsEmptyIffBlank(ls[0]);
      [w[|w| - 1]] + LastTokens(ls[1..])
  }

  /** `get_leads`: the description of each signal line; an unreadable
      record line gives no leads. */
  function GetLeads(h: string): (r: seq<string>)
    ensures SignalCount(h).None? ==> r == []
    ensures SignalCount(h).Some? ==> |r| <= MaxInt(SignalCount(h).value, 0)
  {
    match SignalCount(h)
    case None => []
    case Some(n) => LastTokens(SignalLines(h, n))
  }

  /** Text before the first `/` of a field read with `float()`. */
  function NumberBeforeSlash(field: string): Option<real> {
    ParseFloat(Split(field, '/')[0])
  }

  /** `get_frequency`: the third token of the record line up to its first
      `/`, or `None` when it is missing or not a number. */
  function GetFrequency(h: string): (r: Option<real>)
    ensures |Words(Lines(h)[0])| < 3 ==> r.None?
  {
    var w := Words(Lines(h)[0]);
    if |w| < 3 then None else NumberBeforeSlash(w[2])
  }

  /** The index `dict(enumerate(leads))` keeps for `name`: the last one. */
  function LeadIndex(leads: seq<string>, name: string): (r: Option<nat>)
    ensures r.Some? ==> r.value < |leads| && leads[r.value] == name
    ensures r.Some? ==> forall k :: r.value < k < |leads| ==> leads[k] != name
    ensures r.None? ==> name !in leads
  {
    if |leads| == 0 then None
    else if leads[|leads| - 1] == name then Some(|leads| - 1)
    else LeadIndex(leads[..|leads| - 1], name)
  }

  /** The gain of a split signal line: `float(parts[2].split('/')[0])`. */
  function GainOf(parts: seq<string>): Option<real> {
    if |parts| < 3 then None else NumberBeforeSlash(parts[2])
  }

  /** The loop body of `get_adc_gains` over the signal lines. A line whose
      description is a known lead but whose gain is missing or unreadable
      raises, which ends the loop and keeps the gains set so far. */
  function ApplyGains(ls: seq<string>, leads: seq<string>, gains: seq<real>): (r: seq<real>)
    requires |gains| == |leads|
    ensures |r| == |leads|
  {
    if |ls| == 0 then gains
    else if IsBlank(ls[0]) then ApplyGains(ls[1..], leads, gains)
    else
      var parts := Words(ls[0]);
      WordsEmptyIffBlank(ls[0]);
      match LeadIndex(leads, parts[|parts| - 1])
      case None => ApplyGains(ls[1..], leads, gains)
      case Some(j) =>
        match GainOf(parts)
        case None => gains
        case Some(g) => ApplyGains(ls[1..], leads, gains[j := g])
  }

  function Zeros(n: nat): (r: seq<real>)
    ensures |r| == n && forall k :: 0 <= k < n ==> r[k] == 0.0
  {
    seq(n, _ => 0.0)
  }

  /** `get_adc_gains`: one gain per lead, 0 where no signal line names it. */
  function GetAdcGains(h: string, leads: seq<string>): (r: seq<real>)
    ensures |r| == |leads|
    ensures SignalCount(h).None? ==> r == Zeros(|leads|)
  {
    match SignalCount(h)
    case None => Zeros(|leads|)
    case Some(n) => ApplyGains(SignalLines(h, n), leads, Zeros(|leads|))
  }

  // ---------------------------------------------------------------------
  // Rendering a header from its fields (the partner of the parsers)

  /** A header field: non-empty, no whitespace (so no line break). */
  predicate IsToken(t: string) {
    |t| > 0 && forall i :: 0 <= i < |t| ==> !IsSpace(t[i])
  }

  predicate IsLine(fields: seq<string>) {
    |fields| >= 1 && forall k :: 0 <= k < |fields| ==> IsToken(fields[k])
  }

  /** Every signal line has at least one token field. */
  predicate AllLines(sigs: seq<seq<string>>) {
    forall k :: 0 <= k < |sigs| ==> IsLine(sigs[k])
  }

  /** A header line: its fields separated by single spaces. */
  function RenderLine(fields: seq<string>): string { Join(fields, ' ') }

  function RenderLines(sigs: seq<seq<string>>): (r: seq<string>)
    ensures |r| == |sigs|
    ensures forall k :: 0 <= k < |sigs| ==> r[k] == RenderLine(sigs[k])
  {
    if |sigs| == 0 then [] else [RenderLine(sigs[0])] + RenderLines(sigs[1..])
  }

  /** Record line, signal lines, then any further lines (comments). */
  function Render(rec: seq<string>, sigs: seq<seq<string>>, extra: seq<string>): string {
    Join([RenderLine(rec)] + RenderLines(sigs) + extra, '\n')
  }

  /** A header whose record line declares exactly its signal lines. */
  predicate WellFormed(rec: seq<string>, sigs: seq<seq<string>>, extra: seq<string>) {
    IsLine(rec) && |rec| >= 3 && rec[1] == NatToString(|sigs|)
    && AllLines(sigs)
    && (forall k :: 0 <= k < |extra| ==> '\n' !in extra[k])
  }

  /** Splitting a line rendered from tokens gives the tokens back. */
  lemma {:induction false} WordsOfLine(fields: seq<string>)
    requires IsLine(fields)
    ensures Words(RenderLine(fields)) == fields
    decreases |fields|
  {
    var t := fields[0];
    TokenLenOf(t, if |fields| == 1 then "" else " " + RenderLine(fields[1..]));
    if |fields| == 1 {
      assert RenderLine(fields) == t + "";
      WordsOfToken(t);
    } else {
      var rest := RenderLine(fields[1..]);
      var s := RenderLine(fields);
      assert s == t + (" " + rest);
      WordsOfLine(fields[1..]);
      assert s[|t|..] == " " + rest;
      assert (" " + rest)[1..] == rest;
      WordsNonEmpty(s, t, " " + rest);
    }
  }

  lemma TokenLenOf(t: string, rest: string)
    requires IsToken(t)
    requires |rest| == 0 || IsSpace(rest[0])
    ensures TokenLen(t + rest) == |t|
    decreases |t|
  {
    if |t| > 1 {
      assert (t + rest)[1..] == t[1..] + rest;
      TokenLenOf(t[1..], rest);
    } else {
      assert (t + rest)[1..] == rest;
    }
  }

  lemma WordsOfToken(t: string)
    requires IsToken(t)
    ensures Words(t) == [t]
  {
    TokenLenOf(t, "");
    assert t + "" == t;
    assert t[|t|..] == "";
  }

  /** `s` starting with a token followed by whitespace (or nothing) splits
      into that token and the words of the remainder. */
  lemma WordsNonEmpty(s: string, t: string, rest: string)
    requires IsToken(t) && s == t + rest
    requires |rest| == 0 || IsSpace(rest[0])
    ensures Words(s) == [t] + Words(rest)
  {
    TokenLenOf(t, rest);
    assert s[..|t|] == t;
    assert s[|t|..] == rest;
  }

  /** A rendered line holds no line break. */
  lemma LineHasNoBreak(fields: seq<string>)
    requires IsLine(fields)
    ensures '\n' !in RenderLine(fields)
    decreases |fields|
  {
    if |fields| > 1 {
      LineHasNoBreak(fields[1..]);
      var t := fields[0];
      assert '\n' !in t by {
        forall i | 0 <= i < |t| ensures t[i] != '\n' { assert !IsSpace(t[i]); }
      }
      assert RenderLine(fields) == t + [' '] + RenderLine(fields[1..]);
    } else {
      assert RenderLine(fields) == fields[0];
      var t := fields[0];
      forall i | 0 <= i < |t| ensures t[i] != '\n' { assert !IsSpace(t[i]); }
    }
  }

  /** The lines of a well-formed rendered header are its rendered lines. */
  lemma LinesOfRender(rec: seq<string>, sigs: seq<seq<string>>, extra: seq<string>)
    requires WellFormed(rec, sigs, extra)
    ensures Lines(Render(rec, sigs, extra)) == [RenderLine(rec)] + RenderLines(sigs) + extra
  {
    var all := [RenderLine(rec)] + RenderLines(sigs) + extra;
    forall k | 0 <= k < |all| ensures '\n' !in all[k] {
      if k == 0 { LineHasNoBreak(rec); }
      else if k <= |sigs| { LineHasNoBreak(sigs[k - 1]); }
      else { assert all[k] == extra[k - 1 - |sigs|]; }
    }
    SplitJoin(all, '\n');
  }

  /** The record line of a well-formed header declares its signal count. */
  lemma SignalCountOfRender(rec: seq<string>, sigs: seq<seq<string>>, extra: seq<string>)
    requires WellFormed(rec, sigs, extra)
    ensures SignalCount(Render(rec, sigs, extra)) == Some(|sigs|)
    ensures SignalLines(Render(rec, sigs, extra), |sigs|) == RenderLines(sigs)
  {
    LinesOfRender(rec, sigs, extra);
    WordsOfLine(rec);
    ParseIntOfNat(|sigs|);
    var lines := Lines(Render(rec, sigs, extra));
    assert lines[1..|sigs| + 1] == RenderLines(sigs);
  }

  function LastField(fields: seq<string>): string
    requires |fields| >= 1
  {
    fields[|fields| - 1]
  }

  function Descriptions(sigs: seq<seq<string>>): (r: seq<string>)
    requires AllLines(sigs)
    ensures |r| == |sigs|
    ensures forall k :: 0 <= k < |sigs| ==> r[k] == LastField(sigs[k])
  {
    if |sigs| == 0 then [] else [LastField(sigs[0])] + Descriptions(sigs[1..])
  }

  /** `get_leads` of a rendered header returns the description field of
      every signal line, in order; further lines are ignored. */
  lemma GetLeadsOfRender(rec: seq<string>, sigs: seq<seq<string>>, extra: seq<string>)
    requires WellFormed(rec, sigs, extra)
    ensures GetLeads(Render(rec, sigs, extra)) == Descriptions(sigs)
  {
    SignalCountOfRender(rec, sigs, extra);
    LastTokensOfLines(sigs);
  }

  lemma {:induction false} LastTokensOfLines(sigs: seq<seq<string>>)
    requires AllLines(sigs)
    ensures LastTokens(RenderLines(sigs)) == Descriptions(sigs)
    decreases |sigs|
  {
    if |sigs| > 0 {
      var ls := RenderLines(sigs);
      WordsOfLine(sigs[0]);
      WordsEmptyIffBlank(ls[0]);
      assert ls[1..] == RenderLines(sigs[1..]);
      LastTokensOfLines(sigs[1..]);
    }
  }

  /** `get_frequency` of a rendered header reads the record line's third
      field up to its first `/`. */
  lemma GetFrequencyOfRender(rec: seq<string>, sigs: seq<seq<string>>, extra: seq<string>)
    requires WellFormed(rec, sigs, extra)
    ensures GetFrequency(Render(rec, sigs, extra)) == NumberBeforeSlash(rec[2])
  {
    LinesOfRender(rec, sigs, extra);
    WordsOfLine(rec);
  }

  /** A sampling-frequency field `fs/counter` reads as `fs`. */
  lemma FrequencyFieldValue(fs: nat, counter: string)
    ensures NumberBeforeSlash(NatToString(fs) + "/" + counter) == Some(fs as real)
  {
    var d := NatToString(fs);
    SplitHead(d, '/', counter);
    ParseFloatOfNat(fs);
  }

  /** The first piece of `a + [c] + b` split on `c` is `a`, when `a` does
      not contain `c`. */
  lemma SplitHead(a: string, c: char, b: string)
    requires forall i :: 0 <= i < |a| ==> a[i] != c || (IsDigit(a[i]) && !IsDigit(c))
    ensures Split(a + [c] + b, c)[0] == a
  {
    var s := a + [c] + b;
    assert s[|a|] == c;
    var i := IndexOf(s, c);
    assert s[..|a|] == a;
    assert i == |a|;
  }

  /** Every signal line carries a readable gain. */
  predicate GainsReadable(sigs: seq<seq<string>>) {
    forall k :: 0 <= k < |sigs| ==> GainOf(sigs[k]).Some?
  }

  /** The gain of the last signal line describing `name`, if any. */
  function LastGain(sigs: seq<seq<string>>, name: string): Option<real>
    requires AllLines(sigs) && GainsReadable(sigs)
  {
    if |sigs| == 0 then None
    else
      match LastGain(sigs[1..], name)
      case Some(g) => Some(g)
      case None => if LastField(sigs[0]) == name then Some(GainOf(sigs[0]).value) else None
  }

  /** `get_adc_gains` of a rendered header with readable gains: entry `j`
      is the gain of the last signal line describing `leads[j]` when `j`
      is the last position of that name in `leads`, and 0 otherwise. */
  lemma GetAdcGainsOfRender(rec: seq<string>, sigs: seq<seq<string>>, extra: seq<string>,
                            leads: seq<string>, j: nat)
    requires WellFormed(rec, sigs, extra) && GainsReadable(sigs) && j < |leads|
    ensures GetAdcGains(Render(rec, sigs, extra), leads)[j] ==
            if LeadIndex(leads, leads[j]) == Some(j) && LastGain(sigs, leads[j]).Some?
            then LastGain(sigs, leads[j]).value else 0.0
  {
    SignalCountOfRender(rec, sigs, extra);
    ApplyGainsOfLines(sigs, leads, Zeros(|leads|), j);
  }

  lemma {:induction false} ApplyGainsOfLines(sigs: seq<seq<string>>, leads: seq<string>, gains: seq<real>, j: nat)
    requires AllLines(sigs) && GainsReadable(sigs)
    requires |gains| == |leads| && j < |leads|
    ensures ApplyGains(RenderLines(sigs), leads, gains)[j] ==
            if LeadIndex(leads, leads[j]) == Some(j) && LastGain(sigs, leads[j]).Some?
            then LastGain(sigs, leads[j]).value else gains[j]
    decreases |sigs|
  {
    if |sigs| > 0 {
      var gains' := ApplyGainsFirst(sigs, leads, gains);
      ApplyGainsOfLines(sigs[1..], leads, gains', j);
    }
  }

  /** The first rendered signal line sets the gain of its lead, if the
      lead is listed, and the rest of the lines go on from there. */
  lemma ApplyGainsFirst(sigs: seq<seq<string>>, leads: seq<string>, gains: seq<real>) returns (gains': seq<real>)
    requires AllLines(sigs) && GainsReadable(sigs) && |sigs| > 0 && |gains| == |leads|
    ensures gains' == match LeadIndex(leads, LastField(sigs[0]))
                      case None => gains
                      case Some(i) => gains[i := GainOf(sigs[0]).value]
    ensures |gains'| == |leads|
    ensures ApplyGains(RenderLines(sigs), leads, gains) == ApplyGains(RenderLines(sigs[1..]), leads, gains')
  {
    var ls := RenderLines(sigs);
    WordsOfLine(sigs[0]);
    WordsEmptyIffBlank(ls[0]);
    assert !IsBlank(ls[0]);
    assert ls[1..] == RenderLines(sigs[1..]);
    var name := LastField(sigs[0]);
    assert GainOf(sigs[0]).Some?;
    var g := GainOf(sigs[0]).value;
    match LeadIndex(leads, name)
    case None =>
      gains' := gains;
      assert ApplyGains(ls, leads, gains) == ApplyGains(ls[1..], leads, gains);
    case Some(i) =>
      gains' := gains[i := g];
      assert ApplyGains(ls, leads, gains) == ApplyGains(ls[1..], leads, gains[i := g]);
  }

  /** The signal-line gain field `gain(baseline)/units`, e.g. `1000(0)/mV`. */
  function GainField(g: nat, b: nat, units: string): string {
    NatToString(g) + ['('] + NatToString(b) + [')'] + ['/'] + units
  }

  /** A gain field yields `gain` once the baseline group is removed, as
      `load_header` does, but is unreadable with the group left in. */
  lemma GainFieldNeedsStrip(g: nat, b: nat, units: string)
    requires '(' !in units
    ensures NumberBeforeSlash(StripGroups(GainField(g, b, units))) == Some(g as real)
    ensures NumberBeforeSlash(GainField(g, b, units)) == None
  {
    StrippedGainField(g, b, units);
    FrequencyFieldValue(g, units);
    RawGainField(g, b, units);
  }

  lemma StrippedGainField(g: nat, b: nat, units: string)
    requires '(' !in units
    ensures StripGroups(GainField(g, b, units)) == NatToString(g) + "/" + units
  {
    var gs := NatToString(g);
    var bs := NatToString(b);
    var tail := ['/'] + units;
    assert '(' !in gs by { forall i | 0 <= i < |gs| ensures gs[i] != '(' { assert IsDigit(gs[i]); } }
    assert '(' !in tail by {
      forall i | 0 <= i < |tail| ensures tail[i] != '(' {
        if i > 0 { assert tail[i] == units[i - 1]; }
      }
    }
    assert GainField(g, b, units) == gs + ['('] + bs + [')'] + tail;
    StripGroupsDeletes(gs, bs, tail);
    StripGroupsNoParen(tail);
    assert gs + tail == gs + "/" + units;
  }

  lemma RawGainField(g: nat, b: nat, units: string)
    ensures NumberBeforeSlash(GainField(g, b, units)) == None
  {
    var gs := NatToString(g);
    var bs := NatToString(b);
    var head := gs + ['('] + bs + [')'];
    forall i | 0 <= i < |head| ensures head[i] != '/' || (IsDigit(head[i]) && !IsDigit('/')) {
      if i < |gs| { assert head[i] == gs[i]; }
      else if |gs| < i < |gs| + 1 + |bs| { assert head[i] == bs[i - |gs| - 1]; }
    }
    assert GainField(g, b, units) == head + ['/'] + units;
    SplitHead(head, '/', units);
    NotAFloat(gs, bs);
  }

  /** `digits(digits)` is not a decimal number. */
  lemma NotAFloat(gs: string, bs: string)
    requires AllDigits(gs) && AllDigits(bs) && |gs| > 0
    ensures ParseFloat(gs + ['('] + bs + [')']) == None
  {
    var s := gs + ['('] + bs + [')'];
    assert s[0] == gs[0];
    assert s[|gs|] == '(';
    assert !IsDigit(s[|gs|]);
  }

  // ---------------------------------------------------------------------
  // truncate_signal, create_signal_dictionary, standardize_leads

  /** `truncate_signal`: `signal[0:int(rate*secs)]`. */
  function TruncateSignal(signal: seq<real>, rate: real, secs: real): (r: seq<real>)
    ensures rate * secs >= 0.0 ==> r == signal[..MinInt(|signal|, Trunc(rate * secs))]
  {
    PySlice(signal, 0, Trunc(rate * secs))
  }

  /** Whatever the sign of its length, a truncated signal is a prefix. */
  lemma TruncateIsPrefix(signal: seq<real>, rate: real, secs: real)
    ensures TruncateSignal(signal, rate, secs) <= signal
  {}

  /** `create_signal_dictionary`: `full_leads[k]` maps to row `k`, a
      repeated name keeping its last row; too few rows is the `IndexError`
      case (`None`). */
  function SignalDictionary(rows: seq<seq<real>>, leads: seq<string>): (r: Option<map<string, seq<real>>>)
    ensures r.Some? <==> |rows| >= |leads|
    ensures r.Some? ==> r.value.Keys == set k | 0 <= k < |leads| :: leads[k]
    decreases |leads|
  {
    if |rows| < |leads| then None
    else if |leads| == 0 then Some(map[])
    else
      var n := |leads| - 1;
      var m := SignalDictionary(rows, leads[..n]).value;
      assert (set k | 0 <= k < |leads| :: leads[k]) == (set k | 0 <= k < n :: leads[..n][k]) + {leads[n]};
      Some(m[leads[n] := rows[n]])
  }

  /** Each name maps to the row at its last position in `full_leads`. */
  lemma SignalDictionaryRows(rows: seq<seq<real>>, leads: seq<string>, k: nat)
    requires |rows| >= |leads| && k < |leads|
    ensures LeadIndex(leads, leads[k]).Some?
    ensures SignalDictionary(rows, leads).value[leads[k]] == rows[LeadIndex(leads, leads[k]).value]
    decreases |leads|
  {
    var n := |leads| - 1;
    if leads[n] != leads[k] {
      assert leads[..n][k] == leads[k];
      SignalDictionaryRows(rows, leads[..n], k);
      assert LeadIndex(leads, leads[k]) == LeadIndex(leads[..n], leads[k]);
    }
  }

  /** `standardize_leads` on one name. */
  function StandardLead(l: string): string {
    var u := Upper(l);
    if u == "AVR" then "aVR" else if u == "AVL" then "aVL" else if u == "AVF" then "aVF" else u
  }

  /** `standardize_leads`. */
  function StandardizeLeads(ls: seq<string>): (r: seq<string>)
    ensures |r| == |ls|
    ensures forall k :: 0 <= k < |ls| ==> r[k] == StandardLead(ls[k])
  {
    seq(|ls|, k requires 0 <= k < |ls| => StandardLead(ls[k]))
  }

  /** A standardized name is the upper-cased name, except that the
      augmented limb leads keep their lower-case `a`. */
  lemma StandardLeadShape(l: string)
    ensures Upper(StandardLead(l)) == Upper(l)
    ensures StandardLead(l) == Upper(l) || StandardLead(l) in {"aVR", "aVL", "aVF"}
  {
    var u := Upper(l);
    UpperIdempotent(l);
    if u == "AVR" { assert Upper("aVR") == "AVR"; }
    else if u == "AVL" { assert Upper("aVL") == "AVL"; }
    else if u == "AVF" { assert Upper("aVF") == "AVF"; }
  }

  /** Standardizing twice is the same as once. */
  lemma StandardizeIdempotent(ls: seq<string>)
    ensures StandardizeLeads(StandardizeLeads(ls)) == StandardizeLeads(ls)
  {
    forall k | 0 <= k < |ls| ensures StandardLead(StandardLead(ls[k])) == StandardLead(ls[k]) {
      StandardLeadShape(ls[k]);
      StandardLeadShape(StandardLead(ls[k]));
    }
  }
}
