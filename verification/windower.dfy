/** The signal windower of `extract_leads.py` (`get_paper_ecg`): lead
    selection, the rhythm-lead choice, the record dictionary, single-start
    and continuous windowing, and the per-frame output names and JSON
    fields.

    A recording is a sequence of rows, one per header signal, in header
    order. Drawing, file writing and the random appearance draws are left
    to the caller; the draws are an input. */
module Windower {
  import opened Base
  import opened Text
  import opened WfdbHeader

  /** One frame: lead name (and `'full' + lead` for the rhythm strip) to
      its samples. */
  type Frame = map<string, seq<real>>

  /** The configuration keys `get_paper_ecg` reads. `paper_len` and
      `abs_lead_step` are read with `[]`, the others with `.get`. */
  datatype Config = Config(
    columns: Option<int>,
    desiredOrder: Option<seq<string>>,
    paperLen: real,
    absLeadStep: real,
    rhythmLen: Option<real>)

  // ---------------------------------------------------------------------
  // Lead selection

  /** `r` is `s` with some elements left out, order kept. */
  predicate Subsequence(r: seq<string>, s: seq<string>)
    decreases |s|
  {
    |r| == 0 || (|s| > 0 && ((r[0] == s[0] && Subsequence(r[1..], s[1..])) || Subsequence(r, s[1..])))
  }

  /** `[lead for lead in order if lead in present]` */
  function FilterPresent(order: seq<string>, present: seq<string>): (r: seq<string>)
    ensures Subsequence(r, order)
    ensures forall k :: 0 <= k < |r| ==> r[k] in present
    ensures forall k :: 0 <= k < |order| ==> (order[k] in present <==> order[k] in r)
  {
    if |order| == 0 then []
    else if order[0] in present then [order[0]] + FilterPresent(order[1..], present)
    else FilterPresent(order[1..], present)
  }

  /** The lead list after standardizing and, when configured, reordering
      by `desired_order` (lines 49-58). */
  function SelectLeads(headerLeads: seq<string>, desired: Option<seq<string>>): (r: seq<string>)
    ensures forall k :: 0 <= k < |r| ==> r[k] in StandardizeLeads(headerLeads)
    ensures desired.None? ==> r == StandardizeLeads(headerLeads)
    ensures desired.Some? ==> Subsequence(r, desired.value)
  {
    var std := StandardizeLeads(headerLeads);
    match desired
    case None => std
    case Some(d) => FilterPresent(d, std)
  }

  /** The rhythm lead (`full_mode`): kept if present in a 12-lead list,
      else the first lead; `'None'` for any other lead count. */
  function RhythmLead(leads: seq<string>, fullMode: string): (r: string)
    ensures |leads| == 12 ==> r in leads
    ensures |leads| == 12 && fullMode in leads ==> r == fullMode
    ensures |leads| == 12 && fullMode !in leads ==> r == leads[0]
    ensures |leads| != 12 ==> r == "None"
  {
    if |leads| == 12 then (if fullMode in leads then fullMode else leads[0]) else "None"
  }

  /** The key of the rhythm strip in a frame. */
  function RhythmKey(lead: string): string { "full" + lead }

  /** The column count as written (lines 52 and 68): the two-lead branch
      re-reads the configuration only when `columns` is still -1, which
      line 52 has already replaced. */
  function ColumnsAsWritten(cfgColumns: Option<int>, argColumns: int, nLeads: nat): int {
    var c := if argColumns == -1 then OrElse(cfgColumns, 4) else argColumns;
    if nLeads == 2 then (if c == -1 then OrElse(cfgColumns, 1) else c) else c
  }

  /** The two-lead adjustment never changes the column count. */
  lemma TwoLeadAdjustmentInert(cfgColumns: Option<int>, argColumns: int)
    ensures ColumnsAsWritten(cfgColumns, argColumns, 2) == ColumnsAsWritten(cfgColumns, argColumns, 3)
  {}

  /** A two-lead record with no configured column count gets 4 columns
      instead of the one the two-lead branch provides for. */
  lemma TwoLeadDefaultLost()
    ensures ColumnsAsWritten(None, -1, 2) == 4
    ensures Columns(None, -1, 2) == 1
  {}

  /** The column count with the two-lead default applied: an explicit
      argument wins, then the configured value, then 1 for two leads and 4
      otherwise. */
  function Columns(cfgColumns: Option<int>, argColumns: int, nLeads: nat): (c: int)
    ensures argColumns != -1 ==> c == argColumns
    ensures argColumns == -1 && cfgColumns.Some? ==> c == cfgColumns.value
    ensures argColumns == -1 && cfgColumns.None? ==> c == (if nLeads == 2 then 1 else 4)
    ensures nLeads != 2 ==> c == ColumnsAsWritten(cfgColumns, argColumns, nLeads)
  {
    if argColumns != -1 then argColumns
    else OrElse(cfgColumns, if nLeads == 2 then 1 else 4)
  }

  // ---------------------------------------------------------------------
  // The record dictionary

  /** As written (line 81): `create_signal_dictionary(recording, full_leads)`
      pairs the k-th selected lead with the k-th recording row, although
      the rows follow the header order. */
  function RecordDictAsWritten(rows: seq<seq<real>>, leads: seq<string>): Option<map<string, seq<real>>> {
    SignalDictionary(rows, leads)
  }

  /** The header position of each selected lead. */
  function HeaderRows(headerLeads: seq<string>, leads: seq<string>): (r: seq<nat>)
    requires forall k :: 0 <= k < |leads| ==> leads[k] in headerLeads
    ensures |r| == |leads|
    ensures forall k :: 0 <= k < |leads| ==> r[k] < |headerLeads| && headerLeads[r[k]] == leads[k]
  {
    seq(|leads|, k requires 0 <= k < |leads| => LeadIndex(headerLeads, leads[k]).value)
  }

  /** Corrected: every selected lead is paired with the row of its own
      header signal; a missing row is the `IndexError` case. */
  function RecordDict(rows: seq<seq<real>>, headerLeads: seq<string>, leads: seq<string>): (r: Option<map<string, seq<real>>>)
    requires forall k :: 0 <= k < |leads| ==> leads[k] in headerLeads
    ensures r.Some? <==> forall k :: 0 <= k < |leads| ==> HeaderRows(headerLeads, leads)[k] < |rows|
  {
    var idx := HeaderRows(headerLeads, leads);
    if forall k :: 0 <= k < |leads| ==> idx[k] < |rows| then
      SignalDictionary(seq(|leads|, k requires 0 <= k < |leads| => rows[idx[k]]), leads)
    else None
  }

  /** In the corrected dictionary each selected lead holds the row of the
      header signal of the same name. */
  lemma RecordDictRows(rows: seq<seq<real>>, headerLeads: seq<string>, leads: seq<string>, k: nat)
    requires forall j :: 0 <= j < |leads| ==> leads[j] in headerLeads
    requires RecordDict(rows, headerLeads, leads).Some? && k < |leads|
    ensures leads[k] in RecordDict(rows, headerLeads, leads).value
    ensures RecordDict(rows, headerLeads, leads).value[leads[k]] == rows[LeadIndex(headerLeads, leads[k]).value]
  {
    var idx := HeaderRows(headerLeads, leads);
    var picked := seq(|leads|, j requires 0 <= j < |leads| => rows[idx[j]]);
    SignalDictionaryRows(picked, leads, k);
    var last := LeadIndex(leads, leads[k]).value;
    assert leads[last] == leads[k];
  }

  /** Without reordering the two agree. */
  lemma RecordDictUnreordered(rows: seq<seq<real>>, leads: seq<string>)
    requires |rows| >= |leads|
    ensures RecordDict(rows, leads, leads) == RecordDictAsWritten(rows, leads)
  {
    var idx := HeaderRows(leads, leads);
    assert forall k :: 0 <= k < |leads| ==> idx[k] < |rows|;
    var a := RecordDict(rows, leads, leads).value;
    var b := RecordDictAsWritten(rows, leads).value;
    assert a.Keys == b.Keys;
    forall l | l in a.Keys ensures a[l] == b[l] {
      var k :| 0 <= k < |leads| && leads[k] == l;
      SignalDictionaryRows(rows, leads, k);
      RecordDictRows(rows, leads, leads, k);
    }
    assert a == b;
  }

  /** Reordering by `desired_order` hands lead II the samples of lead I. */
  lemma RecordDictReorderMismatch()
    ensures RecordDictAsWritten([[1.0], [2.0]], ["II", "I"]).value["II"] == [1.0]
    ensures RecordDict([[1.0], [2.0]], ["I", "II"], ["II", "I"]).value["II"] == [2.0]
  {
    var hdr := ["I", "II"];
    var leads := ["II", "I"];
    assert LeadIndex(hdr, "II") == Some(1);
    assert LeadIndex(hdr, "I") == Some(0);
    assert LeadIndex(leads, "II") == Some(0);
    SignalDictionaryRows([[1.0], [2.0]], leads, 0);
    RecordDictRows([[1.0], [2.0]], hdr, leads, 0);
  }

  // ---------------------------------------------------------------------
  // Windowing

  predicate HasLeads(rd: map<string, seq<real>>, leads: seq<string>) {
    forall k :: 0 <= k < |leads| ==> leads[k] in rd
  }

  /** `int(rate * lead_length_in_seconds)` with
      `lead_length_in_seconds = paper_len / columns`. */
  function SegmentSamples(rate: real, paperLen: real, columns: int): int
    requires columns != 0
  {
    Trunc(rate * (paperLen / columns as real))
  }

  /** The first sample of the lead at position `i`: its row's offset. */
  function LeadStart(start: int, i: nat, columns: int, seg: int): int
    requires columns != 0
  {
    start + PyFloorDiv(i, columns) * seg
  }

  /** A lead slice in single-start mode (lines 104-108): the full segment
      if available, else what remains, else nothing. */
  function TruncatedSlice(sig: seq<real>, ds: int, seg: int): (r: seq<real>)
    ensures 0 <= ds && 0 <= seg ==> r == sig[MinInt(ds, |sig|)..MinInt(ds + seg, |sig|)]
  {
    if |sig| >= ds + seg then PySlice(sig, ds, ds + seg)
    else if |sig| > ds then PySlice(sig, ds, |sig|)
    else []
  }

  /** The lead entries of a frame for the first `i` leads; a repeated lead
      name keeps its last slice. `truncated` selects single-start slicing. */
  function LeadSlices(rd: map<string, seq<real>>, leads: seq<string>, columns: int, seg: int,
                      start: int, i: nat, truncated: bool): (f: Frame)
    requires HasLeads(rd, leads) && i <= |leads| && columns != 0
    ensures forall j :: 0 <= j < i ==> leads[j] in f
  {
    if i == 0 then map[]
    else
      var k := i - 1;
      var sig := rd[leads[k]];
      var ds := LeadStart(start, k, columns, seg);
      var f := LeadSlices(rd, leads, columns, seg, start, k, truncated);
      f[leads[k] := if truncated then TruncatedSlice(sig, ds, seg) else PySlice(sig, ds, ds + seg)]
  }

  /** The entry of a lead comes from its last position in the lead list. */
  lemma {:induction false} LeadSlicesAt(rd: map<string, seq<real>>, leads: seq<string>, columns: int, seg: int,
                                        start: int, i: nat, truncated: bool, k: nat)
    requires HasLeads(rd, leads) && i <= |leads| && columns != 0
    requires k < i && forall j :: k < j < i ==> leads[j] != leads[k]
    ensures LeadSlices(rd, leads, columns, seg, start, i, truncated)[leads[k]] ==
      (var ds := LeadStart(start, k, columns, seg);
       if truncated then TruncatedSlice(rd[leads[k]], ds, seg) else PySlice(rd[leads[k]], ds, ds + seg))
    decreases i
  {
    if k < i - 1 {
      LeadSlicesAt(rd, leads, columns, seg, start, i - 1, truncated, k);
      assert leads[i - 1] != leads[k];
    }
  }

  /** Single-start mode (lines 93-118): one frame from `start`. */
  function SingleFrame(rd: map<string, seq<real>>, leads: seq<string>, columns: int, seg: int,
                       start: int, rhythm: string, rhythmSamples: int): (f: Frame)
    requires HasLeads(rd, leads) && columns != 0
    ensures forall k :: 0 <= k < |leads| ==> leads[k] in f
    ensures rhythm != "None" && rhythm in rd ==> RhythmKey(rhythm) in f
  {
    var f := LeadSlices(rd, leads, columns, seg, start, |leads|, true);
    if rhythm != "None" && rhythm in rd then
      var sig := rd[rhythm];
      f[RhythmKey(rhythm) := if |sig| >= start + rhythmSamples
                             then PySlice(sig, start, start + rhythmSamples)
                             else PySlice(sig, start, |sig|)]
    else f
  }

  /** Because a missing `full_mode` falls back to the first lead (lines
      62-64), a single-start frame of a twelve-lead record always carries a
      rhythm strip, whichever `full_mode` was asked for. */
  lemma TwelveLeadsHaveRhythm(rd: map<string, seq<real>>, leads: seq<string>, columns: int, seg: int,
                              start: int, fullMode: string, rhythmSamples: int)
    requires HasLeads(rd, leads) && columns != 0 && |leads| == 12 && "None" !in leads
    ensures RhythmKey(RhythmLead(leads, fullMode)) in SingleFrame(rd, leads, columns, seg, start,
                                                                  RhythmLead(leads, fullMode), rhythmSamples)
  {
  }

  /** In single-start mode each lead holds the samples of its row's segment
      that exist: all `seg` of them, fewer at the end of the recording,
      none past it. */
  lemma SingleFrameLead(rd: map<string, seq<real>>, leads: seq<string>, columns: int, seg: int,
                        start: int, rhythm: string, rhythmSamples: int, k: nat)
    requires HasLeads(rd, leads) && columns >= 1 && start >= 0 && seg >= 0
    requires k < |leads| && forall j :: k < j < |leads| ==> leads[j] != leads[k]
    requires leads[k] != RhythmKey(rhythm)
    ensures var ds := LeadStart(start, k, columns, seg);
            var sig := rd[leads[k]];
            ds >= 0 &&
            SingleFrame(rd, leads, columns, seg, start, rhythm, rhythmSamples)[leads[k]] ==
              sig[MinInt(ds, |sig|)..MinInt(ds + seg, |sig|)]
  {
    var ds := LeadStart(start, k, columns, seg);
    SingleFrameKeepsLead(rd, leads, columns, seg, start, rhythm, rhythmSamples, k);
    LeadSlicesAt(rd, leads, columns, seg, start, |leads|, true, k);
    RowStartNonNegative(start, k, columns, seg);
    assert 0 <= ds;
  }

  /** The rhythm entry never overwrites an ordinary lead. */
  lemma SingleFrameKeepsLead(rd: map<string, seq<real>>, leads: seq<string>, columns: int, seg: int,
                             start: int, rhythm: string, rhythmSamples: int, k: nat)
    requires HasLeads(rd, leads) && columns >= 1
    requires k < |leads| && leads[k] != RhythmKey(rhythm)
    ensures SingleFrame(rd, leads, columns, seg, start, rhythm, rhythmSamples)[leads[k]] ==
            LeadSlices(rd, leads, columns, seg, start, |leads|, true)[leads[k]]
  {
  }

  lemma RowStartNonNegative(start: int, k: nat, columns: int, seg: int)
    requires columns >= 1 && start >= 0 && seg >= 0
    ensures LeadStart(start, k, columns, seg) >= 0
  {
    assert PyFloorDiv(k, columns) >= 0;
  }

  /** The rows a lead list needs: `ceil(len(leads) / columns)`. */
  function MaxRows(n: nat, columns: int): int
    requires columns != 0
  {
    Ceil(n as real / columns as real)
  }

  /** `total_duration_needed` (line 126). */
  function Needed(n: nat, columns: int, seg: int, start: int): int
    requires columns != 0
  {
    start + MaxRows(n, columns) * seg
  }

  /** Every lead has the samples a frame needs (lines 128-131). */
  predicate Sufficient(rd: map<string, seq<real>>, leads: seq<string>, needed: int)
    requires HasLeads(rd, leads)
  {
    forall k :: 0 <= k < |leads| ==> |rd[leads[k]]| >= needed
  }

  /** One iteration of the continuous loop (lines 122-150): the frame at
      `start`, or `None` when the loop ends here. */
  function ContinuousFrame(rd: map<string, seq<real>>, leads: seq<string>, columns: int, seg: int,
                           start: int, rhythm: string, rhythmSamples: int): (r: Option<Frame>)
    requires HasLeads(rd, leads) && columns != 0
    ensures r.Some? ==> Sufficient(rd, leads, Needed(|leads|, columns, seg, start))
    ensures r.Some? ==> forall k :: 0 <= k < |leads| ==> leads[k] in r.value
    ensures r.Some? && rhythm != "None" && rhythm in rd ==>
      RhythmKey(rhythm) in r.value && |rd[rhythm]| >= start + rhythmSamples
    ensures !Sufficient(rd, leads, Needed(|leads|, columns, seg, start)) ==> r.None?
  {
    if !Sufficient(rd, leads, Needed(|leads|, columns, seg, start)) then None
    else
      var f := LeadSlices(rd, leads, columns, seg, start, |leads|, false);
      if rhythm != "None" && rhythm in rd then
        var sig := rd[rhythm];
        if |sig| >= start + rhythmSamples
        then Some(f[RhythmKey(rhythm) := PySlice(sig, start, start + rhythmSamples)])
        else None
      else Some(f)
  }

  /** The continuous loop from `start`: frames are emitted at `start`,
      `start + step`, ... until the first iteration that ends the loop. */
  function Windows(rd: map<string, seq<real>>, leads: seq<string>, columns: int, seg: int,
                   start: int, step: int, rhythm: string, rhythmSamples: int): (r: seq<Frame>)
    requires HasLeads(rd, leads) && columns != 0 && step >= 1 && |leads| >= 1
    ensures |r| > 0 ==> ContinuousFrame(rd, leads, columns, seg, start, rhythm, rhythmSamples) == Some(r[0])
    decreases |rd[leads[0]]| - Needed(|leads|, columns, seg, start) + 1
  {
    match ContinuousFrame(rd, leads, columns, seg, start, rhythm, rhythmSamples)
    case None => []
    case Some(f) => [f] + Windows(rd, leads, columns, seg, start + step, step, rhythm, rhythmSamples)
  }

  /** Frame `k` of the continuous loop is the frame at `start + k*step`, and
      the loop ends at the first start whose frame is not emitted. */
  lemma {:induction false} WindowsFrames(rd: map<string, seq<real>>, leads: seq<string>, columns: int, seg: int,
                                         start: int, step: int, rhythm: string, rhythmSamples: int)
    requires HasLeads(rd, leads) && columns != 0 && step >= 1 && |leads| >= 1
    ensures var r := Windows(rd, leads, columns, seg, start, step, rhythm, rhythmSamples);
            (forall k :: 0 <= k < |r| ==>
               ContinuousFrame(rd, leads, columns, seg, FrameStart(start, step, k), rhythm, rhythmSamples) == Some(r[k]))
            && ContinuousFrame(rd, leads, columns, seg, FrameStart(start, step, |r|), rhythm, rhythmSamples).None?
    decreases |rd[leads[0]]| - Needed(|leads|, columns, seg, start) + 1
  {
    var r := Windows(rd, leads, columns, seg, start, step, rhythm, rhythmSamples);
    var first := ContinuousFrame(rd, leads, columns, seg, start, rhythm, rhythmSamples);
    if first.Some? {
      WindowsFrames(rd, leads, columns, seg, start + step, step, rhythm, rhythmSamples);
      var rest := Windows(rd, leads, columns, seg, start + step, step, rhythm, rhythmSamples);
      WindowsStep(rd, leads, columns, seg, start, step, rhythm, rhythmSamples);
      forall k | 0 <= k < |r|
        ensures ContinuousFrame(rd, leads, columns, seg, FrameStart(start, step, k), rhythm, rhythmSamples) == Some(r[k])
      {
        if k > 0 {
          FrameStartShift(start, step, k);
          assert r[k] == rest[k - 1];
        }
      }
      FrameStartShift(start, step, |r|);
      assert FrameStart(start, step, |r|) == FrameStart(start + step, step, |rest|);
    } else {
      assert r == [];
    }
  }

  /** An emitted frame is followed by the loop from the next start. */
  lemma WindowsStep(rd: map<string, seq<real>>, leads: seq<string>, columns: int, seg: int,
                    start: int, step: int, rhythm: string, rhythmSamples: int)
    requires HasLeads(rd, leads) && columns != 0 && step >= 1 && |leads| >= 1
    requires ContinuousFrame(rd, leads, columns, seg, start, rhythm, rhythmSamples).Some?
    ensures Windows(rd, leads, columns, seg, start, step, rhythm, rhythmSamples)
            == [ContinuousFrame(rd, leads, columns, seg, start, rhythm, rhythmSamples).value]
               + Windows(rd, leads, columns, seg, start + step, step, rhythm, rhythmSamples)
  {
  }

  /** The start of frame `k`: `start` advanced `k` times by `step`. */
  function FrameStart(start: int, step: int, k: nat): int
  {
    if k == 0 then start else FrameStart(start, step, k - 1) + step
  }

  /** Frame `k` starts `k` steps after the first one. */
  lemma {:induction false} FrameStartClosed(start: int, step: int, k: nat)
    ensures FrameStart(start, step, k) == start + k * step
    decreases k
  {
    if k > 0 {
      FrameStartClosed(start, step, k - 1);
      assert (k - 1) * step + step == k * step;
    }
  }

  lemma {:induction false} FrameStartShift(start: int, step: int, k: nat)
    requires k >= 1
    ensures FrameStart(start, step, k) == FrameStart(start + step, step, k - 1)
    decreases k
  {
    if k > 1 { FrameStartShift(start, step, k - 1); }
  }

  /** A row index is below the row count. */
  lemma RowBelowMaxRows(i: nat, n: nat, columns: int)
    requires columns >= 1 && i < n
    ensures 0 <= PyFloorDiv(i, columns) && PyFloorDiv(i, columns) + 1 <= MaxRows(n, columns)
  {
    var q := PyFloorDiv(i, columns);
    CeilOfRatio(n, columns);
    var c := CeilDiv(n, columns);
    assert q * columns <= i < n <= c * columns;
    if c < q + 1 {
      MulMono(c, q, columns);
    }
  }

  /** Every lead of an emitted continuous frame holds exactly `seg`
      samples: those of its row's segment. */
  lemma ContinuousLead(rd: map<string, seq<real>>, leads: seq<string>, columns: int, seg: int,
                       start: int, rhythm: string, rhythmSamples: int, k: nat)
    requires HasLeads(rd, leads) && columns >= 1 && start >= 0 && seg >= 0
    requires ContinuousFrame(rd, leads, columns, seg, start, rhythm, rhythmSamples).Some?
    requires k < |leads| && forall j :: k < j < |leads| ==> leads[j] != leads[k]
    requires leads[k] != RhythmKey(rhythm)
    ensures var f := ContinuousFrame(rd, leads, columns, seg, start, rhythm, rhythmSamples).value;
            var ds := LeadStart(start, k, columns, seg);
            |f[leads[k]]| == seg && 0 <= ds && ds + seg <= |rd[leads[k]]| &&
            f[leads[k]] == rd[leads[k]][ds..ds + seg]
  {
    LeadSlicesAt(rd, leads, columns, seg, start, |leads|, false, k);
    assert |rd[leads[k]]| >= Needed(|leads|, columns, seg, start);
    SegmentFits(k, |leads|, columns, seg, start, |rd[leads[k]]|);
  }

  /** The segment of the lead at position `k` ends within the samples a
      sufficient lead holds. */
  lemma SegmentFits(k: nat, n: nat, columns: int, seg: int, start: int, len: int)
    requires columns >= 1 && seg >= 0 && start >= 0 && k < n
    requires len >= Needed(n, columns, seg, start)
    ensures 0 <= LeadStart(start, k, columns, seg)
    ensures LeadStart(start, k, columns, seg) + seg <= len
  {
    var row := PyFloorDiv(k, columns);
    RowBelowMaxRows(k, n, columns);
    MulMono(row + 1, MaxRows(n, columns), seg);
    assert (row + 1) * seg == row * seg + seg;
    assert row * seg >= 0;
  }

  /** The rhythm strip of an emitted continuous frame holds exactly
      `rhythm_strip_samples` samples from `start`. */
  lemma ContinuousRhythm(rd: map<string, seq<real>>, leads: seq<string>, columns: int, seg: int,
                         start: int, rhythm: string, rhythmSamples: int)
    requires HasLeads(rd, leads) && columns != 0 && start >= 0 && rhythmSamples >= 0
    requires rhythm != "None" && rhythm in rd
    requires ContinuousFrame(rd, leads, columns, seg, start, rhythm, rhythmSamples).Some?
    ensures var f := ContinuousFrame(rd, leads, columns, seg, start, rhythm, rhythmSamples).value;
            f[RhythmKey(rhythm)] == rd[rhythm][start..start + rhythmSamples]
  {}

  /** With a step below one sample, an emitted frame is emitted again at
      the next start: the loop never ends. */
  lemma StalledStep(rd: map<string, seq<real>>, leads: seq<string>, columns: int, seg: int,
                    start: int, step: int, rhythm: string, rhythmSamples: int)
    requires HasLeads(rd, leads) && columns != 0 && step <= 0
    requires ContinuousFrame(rd, leads, columns, seg, start, rhythm, rhythmSamples).Some?
    ensures ContinuousFrame(rd, leads, columns, seg, start + step, rhythm, rhythmSamples).Some?
  {}

  lemma {:induction false} StalledForever(rd: map<string, seq<real>>, leads: seq<string>, columns: int, seg: int,
                                          step: int, rhythm: string, rhythmSamples: int, n: nat)
    requires HasLeads(rd, leads) && columns != 0 && step <= 0
    requires ContinuousFrame(rd, leads, columns, seg, 0, rhythm, rhythmSamples).Some?
    ensures ContinuousFrame(rd, leads, columns, seg, n * step, rhythm, rhythmSamples).Some?
  {
    if n > 0 {
      StalledForever(rd, leads, columns, seg, step, rhythm, rhythmSamples, n - 1);
      StalledStep(rd, leads, columns, seg, (n - 1) * step, step, rhythm, rhythmSamples);
      assert (n - 1) * step + step == n * step;
    }
  }

  /** Without leads (and so without a rhythm lead) every iteration emits an
      empty frame. */
  lemma NoLeadsForever(rd: map<string, seq<real>>, columns: int, seg: int, start: int, rhythmSamples: int)
    requires columns != 0
    ensures ContinuousFrame(rd, [], columns, seg, start, "None", rhythmSamples) == Some(map[])
  {}

  // ---------------------------------------------------------------------
  // get_paper_ecg

  datatype Outcome = Frames(frames: seq<Frame>) | Crash | Diverges

  /** The frame list from a record dictionary and a column count, shared
      by the code as written and the corrected one: a zero column count
      and a missing recording row raise; a continuous loop that can never
      end is `Diverges`. */
  function FramesFrom(leads: seq<string>, dict: Option<map<string, seq<real>>>, columns: int,
                      fs: real, cfg: Config, startIndex: int, rhythm: string): (r: Outcome)
    requires dict.Some? ==> HasLeads(dict.value, leads)
    ensures r.Frames? ==> dict.Some? && columns != 0
    ensures startIndex != -1 && r.Frames? ==> |r.frames| == 1
  {
    match dict
    case None => Crash
    case Some(rd) =>
      if columns == 0 then Crash
      else
        var seg := SegmentSamples(fs, cfg.paperLen, columns);
        var rhythmSamples := Trunc(fs * OrElse(cfg.rhythmLen, 10.0));
        if startIndex != -1 then
          Frames([SingleFrame(rd, leads, columns, seg, startIndex, rhythm, rhythmSamples)])
        else
          var step := Trunc(fs * cfg.absLeadStep);
          if step < 1 || |leads| == 0 then
            (if ContinuousFrame(rd, leads, columns, seg, 0, rhythm, rhythmSamples).Some?
             then Diverges else Frames([]))
          else Frames(Windows(rd, leads, columns, seg, 0, step, rhythm, rhythmSamples))
  }

  /** `get_paper_ecg` up to the frame list, as written. A recording that
      did not load (`rows` is `None`: the loader failed, or the file is
      neither `.dat` nor `.mat`) gives no frames, before anything else is
      read. Otherwise the column count is that of lines 52 and 68 and the
      dictionary that of line 81, which pairs the k-th selected lead with
      the k-th recording row; an unreadable frequency raises, as do fewer
      rows than selected leads and a zero column count. */
  function PaperEcg(headerLeads: seq<string>, rows: Option<seq<seq<real>>>, rate: Option<real>, cfg: Config,
                    argColumns: int, startIndex: int, fullMode: string): (r: Outcome)
    ensures rows.None? ==> r == Frames([])
    ensures rows.Some? && rate.None? ==> r == Crash
    ensures rows.Some? && |rows.value| < |SelectLeads(headerLeads, cfg.desiredOrder)| ==> r == Crash
    ensures rows.Some? && ColumnsAsWritten(cfg.columns, argColumns, |SelectLeads(headerLeads, cfg.desiredOrder)|) == 0
            ==> r == Crash
    ensures startIndex != -1 && r.Frames? && rows.Some? ==> |r.frames| == 1
  {
    var leads := SelectLeads(headerLeads, cfg.desiredOrder);
    match rows
    case None => Frames([])
    case Some(rs) =>
      match rate
      case None => Crash
      case Some(fs) =>
        FramesFrom(leads, RecordDictAsWritten(rs, leads), ColumnsAsWritten(cfg.columns, argColumns, |leads|),
                   fs, cfg, startIndex, RhythmLead(leads, fullMode))
  }

  /** `get_paper_ecg` with both corrections: the two-lead default of one
      column, and each lead read from its own header row. */
  function PaperEcgCorrected(headerLeads: seq<string>, rows: Option<seq<seq<real>>>, rate: Option<real>, cfg: Config,
                             argColumns: int, startIndex: int, fullMode: string): (r: Outcome)
    ensures rows.None? ==> r == Frames([])
    ensures rows.Some? && rate.None? ==> r == Crash
    ensures rows.Some? && |rows.value| < |headerLeads| && cfg.desiredOrder.None? && |headerLeads| > 0 ==> r == Crash
    ensures rows.Some? && Columns(cfg.columns, argColumns, |SelectLeads(headerLeads, cfg.desiredOrder)|) == 0
            ==> r == Crash
    ensures startIndex != -1 && r.Frames? && rows.Some? ==> |r.frames| == 1
  {
    var std := StandardizeLeads(headerLeads);
    var leads := SelectLeads(headerLeads, cfg.desiredOrder);
    match rows
    case None => Frames([])
    case Some(rs) =>
      match rate
      case None => Crash
      case Some(fs) =>
        var dict := RecordDict(rs, std, leads);
        assert dict.Some? ==> HasLeads(dict.value, leads) by {
          if dict.Some? {
            forall k | 0 <= k < |leads| ensures leads[k] in dict.value {
              RecordDictRows(rs, std, leads, k);
            }
          }
        }
        FramesFrom(leads, dict, Columns(cfg.columns, argColumns, |leads|), fs, cfg, startIndex, RhythmLead(leads, fullMode))
  }

  /** Without `desired_order`, with enough rows and unless a two-lead
      record leaves the column count to its default, the code as written
      produces the corrected frames. */
  lemma PaperEcgAgrees(headerLeads: seq<string>, rows: Option<seq<seq<real>>>, rate: Option<real>, cfg: Config,
                       argColumns: int, startIndex: int, fullMode: string)
    requires cfg.desiredOrder.None? && (rows.Some? ==> |rows.value| >= |headerLeads|)
    requires argColumns != -1 || cfg.columns.Some? || |headerLeads| != 2
    ensures PaperEcg(headerLeads, rows, rate, cfg, argColumns, startIndex, fullMode)
         == PaperEcgCorrected(headerLeads, rows, rate, cfg, argColumns, startIndex, fullMode)
  {
    if rows.Some? {
      RecordDictUnreordered(rows.value, StandardizeLeads(headerLeads));
    }
  }

  /** Reordering a two-lead record by `desired_order` hands the first
      desired lead the samples of the other one in the frame the code
      produces; the corrected frame gives it its own. */
  lemma PaperEcgReorderMismatch(l1: string, l2: string, r1: seq<real>, r2: seq<real>,
                                fs: real, cfg: Config, fullMode: string)
    requires StandardLead(l1) == l1 && StandardLead(l2) == l2 && l1 != l2
    requires cfg.desiredOrder == Some([l2, l1]) && cfg.columns == Some(1)
    requires SegmentSamples(fs, cfg.paperLen, 1) == |r1| == |r2|
    ensures var a := PaperEcg([l1, l2], Some([r1, r2]), Some(fs), cfg, -1, 0, fullMode);
            var c := PaperEcgCorrected([l1, l2], Some([r1, r2]), Some(fs), cfg, -1, 0, fullMode);
            a.Frames? && c.Frames? && |a.frames| == |c.frames| == 1
            && l2 in a.frames[0] && l2 in c.frames[0] && a.frames[0][l2] == r1 && c.frames[0][l2] == r2
  {
    var hdr, rows, leads := [l1, l2], [r1, r2], [l2, l1];
    assert StandardizeLeads(hdr) == hdr;
    assert leads[1..] == [l1] && [l1][1..] == [];
    assert FilterPresent([l1], hdr) == [l1];
    assert SelectLeads(hdr, cfg.desiredOrder) == leads;
    var a, c := ReorderedDicts(l1, l2, r1, r2);
    var n := |r1|;
    var rs := Trunc(fs * OrElse(cfg.rhythmLen, 10.0));
    var rhythm := RhythmLead(leads, fullMode);
    assert rhythm == "None";
    assert PaperEcg(hdr, Some(rows), Some(fs), cfg, -1, 0, fullMode) == Frames([SingleFrame(a, leads, 1, n, 0, rhythm, rs)]);
    assert PaperEcgCorrected(hdr, Some(rows), Some(fs), cfg, -1, 0, fullMode) == Frames([SingleFrame(c, leads, 1, n, 0, rhythm, rs)]);
    FirstLeadWhole(a, leads, n, rs);
    FirstLeadWhole(c, leads, n, rs);
  }

  /** The two dictionaries of a reordered two-lead record. */
  lemma ReorderedDicts(l1: string, l2: string, r1: seq<real>, r2: seq<real>)
    returns (a: map<string, seq<real>>, c: map<string, seq<real>>)
    requires l1 != l2
    ensures RecordDictAsWritten([r1, r2], [l2, l1]) == Some(a) && HasLeads(a, [l2, l1]) && l2 in a && a[l2] == r1
    ensures RecordDict([r1, r2], [l1, l2], [l2, l1]) == Some(c) && HasLeads(c, [l2, l1]) && l2 in c && c[l2] == r2
  {
    var leads := [l2, l1];
    assert LeadIndex([l1, l2], l2) == Some(1);
    assert LeadIndex([l1, l2], l1) == Some(0);
    a := RecordDictAsWritten([r1, r2], leads).value;
    c := RecordDict([r1, r2], [l1, l2], leads).value;
    SignalDictionaryRows([r1, r2], leads, 0);
    assert LeadIndex(leads, l2) == Some(0);
    RecordDictRows([r1, r2], [l1, l2], leads, 0);
    RecordDictRows([r1, r2], [l1, l2], leads, 1);
  }

  /** With one column and a segment as long as the first lead's samples,
      the single-start frame holds that lead whole. */
  lemma FirstLeadWhole(rd: map<string, seq<real>>, leads: seq<string>, n: int, rs: int)
    requires |leads| == 2 && leads[0] != leads[1] && HasLeads(rd, leads) && |rd[leads[0]]| == n
    ensures leads[0] in SingleFrame(rd, leads, 1, n, 0, "None", rs)
    ensures SingleFrame(rd, leads, 1, n, 0, "None", rs)[leads[0]] == rd[leads[0]]
  {
    assert LeadStart(0, 0, 1, n) == 0;
    LeadSlicesAt(rd, leads, 1, n, 0, 2, true, 0);
    assert rd[leads[0]][0..n] == rd[leads[0]];
  }

  // ---------------------------------------------------------------------
  // Output names and per-frame JSON fields (lines 153-236)

  /** The random appearance draws of one frame. */
  datatype Appearance = Appearance(dcPulse: bool, bw: bool, gridlines: bool, printedText: bool)

  /** The six flags stored when `store_configs == 2`. */
  datatype StoredConfig = StoredConfig(dcPulse: bool, bw: bool, gridlines: bool, printedText: bool,
                                       columns: int, fullModeLead: string)

  datatype FrameJson = FrameJson(samplingFrequency: real, xGrid: real, yGrid: real,
                                 resolution: int, padInches: int, stored: Option<StoredConfig>)

  datatype FrameOutput = FrameOutput(png: string, json: FrameJson, jsonWritten: bool)

  /** `rec_file = name + '-' + str(i)` */
  function RecFile(name: string, i: nat): string { name + "-" + NatToString(i) }

  /** `os.path.join(output_directory, rec_tail + '.png')` */
  function PngName(outDir: string, name: string, i: nat): string {
    PathJoin(outDir, Basename(RecFile(name, i)) + ".png")
  }

  /** How many frames hold at least one lead. */
  function CountNonEmpty(frames: seq<Frame>): nat {
    if frames == [] then 0
    else (if frames[0] == map[] then 0 else 1) + CountNonEmpty(frames[1..])
  }

  /** The positions of the non-empty frames from `i` on, in order. */
  function NonEmptyFrom(frames: seq<Frame>, i: nat): (r: seq<nat>)
    requires i <= |frames|
    ensures forall k :: 0 <= k < |r| ==> i <= r[k] < |frames| && frames[r[k]] != map[]
    ensures forall a, b :: 0 <= a < b < |r| ==> r[a] < r[b]
    ensures forall j :: i <= j < |frames| && frames[j] != map[] ==> j in r
    decreases |frames| - i
  {
    if i == |frames| then []
    else if frames[i] == map[] then NonEmptyFrom(frames, i + 1)
    else [i] + NonEmptyFrom(frames, i + 1)
  }

  /** What the loop writes for frame `i`: its image and its JSON record. */
  function OutputOf(outDir: string, name: string, draws: seq<Appearance>, i: nat,
                    rate: real, resolution: int, padInches: int, storeConfigs: int,
                    columns: int, fullMode: string): FrameOutput
    requires i < |draws|
  {
    var d := draws[i];
    var stored := if storeConfigs == 2
                  then Some(StoredConfig(d.dcPulse, d.bw, d.gridlines, d.printedText, columns, fullMode))
                  else None;
    FrameOutput(PngName(outDir, name, i), FrameJson(rate, 1.0, 1.0, resolution, padInches, stored), storeConfigs != 0)
  }

  /** The outputs of a recording: one per non-empty frame, in frame order;
      empty frames are skipped, and the draws are indexed by frame. */
  function Outputs(outDir: string, name: string, frames: seq<Frame>, draws: seq<Appearance>,
                   rate: real, resolution: int, padInches: int, storeConfigs: int,
                   columns: int, fullMode: string): (r: seq<FrameOutput>)
    requires |draws| == |frames|
    ensures |r| == CountNonEmpty(frames) == |NonEmptyFrom(frames, 0)|
    ensures forall k :: 0 <= k < |r| ==> r[k].png == PngName(outDir, name, NonEmptyFrom(frames, 0)[k])
    ensures forall k :: 0 <= k < |r| ==> (r[k].json.stored.Some? <==> storeConfigs == 2)
    ensures forall k :: 0 <= k < |r| && storeConfigs == 2 ==>
              var d := draws[NonEmptyFrom(frames, 0)[k]];
              r[k].json.stored == Some(StoredConfig(d.dcPulse, d.bw, d.gridlines, d.printedText, columns, fullMode))
    ensures forall k :: 0 <= k < |r| ==>
              r[k].json.samplingFrequency == rate && r[k].json.resolution == resolution
              && r[k].json.padInches == padInches
    ensures forall k :: 0 <= k < |r| ==> (r[k].jsonWritten <==> storeConfigs != 0)
  {
    var idx := NonEmptyFrom(frames, 0);
    NonEmptyCount(frames, 0);
    seq(|idx|, k requires 0 <= k < |idx| =>
      OutputOf(outDir, name, draws, idx[k], rate, resolution, padInches, storeConfigs, columns, fullMode))
  }

  /** Counting the non-empty frames from `i` on. */
  lemma {:induction false} NonEmptyCount(frames: seq<Frame>, i: nat)
    requires i <= |frames|
    ensures |NonEmptyFrom(frames, i)| == CountNonEmpty(frames[i..])
    decreases |frames| - i
  {
    if i < |frames| {
      NonEmptyCount(frames, i + 1);
      assert frames[i..] == [frames[i]] + frames[i + 1..];
    }
  }

  /** The basename of `rec_file` is the header's basename, `-`, `i`. */
  lemma RecFileBasename(name: string, i: nat)
    ensures Basename(RecFile(name, i)) == Basename(name) + "-" + NatToString(i)
  {
    var q := "-" + NatToString(i);
    DashNumberNoSlash(i);
    BasenameAppend(name, q);
    assert RecFile(name, i) == name + q;
  }

  /** `-` followed by a number holds no path separator. */
  lemma DashNumberNoSlash(i: nat)
    ensures forall k :: 0 <= k < |"-" + NatToString(i)| ==> ("-" + NatToString(i))[k] != '/'
  {
    var d := NatToString(i);
    var q := "-" + d;
    forall k | 0 <= k < |q| ensures q[k] != '/' {
      if k > 0 { assert q[k] == d[k - 1]; assert IsDigit(d[k - 1]); }
    }
  }

  /** Joining onto a fixed directory is injective for relative names. */
  lemma PathJoinInjective(a: string, b1: string, b2: string)
    requires !StartsWith(b1, "/") && !StartsWith(b2, "/")
    requires PathJoin(a, b1) == PathJoin(a, b2)
    ensures b1 == b2
  {
    var p := PathJoin(a, b1);
    if a == "" || EndsWith(a, "/") {
      assert b1 == p[|a|..] && b2 == p[|a|..];
    } else {
      assert b1 == p[|a| + 1..] && b2 == p[|a| + 1..];
    }
  }

  /** Different frame numbers give different image names. */
  lemma PngNameInjective(outDir: string, name: string, i: nat, j: nat)
    requires PngName(outDir, name, i) == PngName(outDir, name, j)
    ensures i == j
  {
    var b := Basename(name);
    var di := NatToString(i);
    var dj := NatToString(j);
    RecFileBasename(name, i);
    RecFileBasename(name, j);
    var bi := b + "-" + di + ".png";
    var bj := b + "-" + dj + ".png";
    NotRooted(b, di);
    NotRooted(b, dj);
    PathJoinInjective(outDir, bi, bj);
    assert |di| == |dj|;
    assert di == bi[|b| + 1..|b| + 1 + |di|];
    assert dj == bj[|b| + 1..|b| + 1 + |dj|];
    NatToStringInjective(i, j);
  }

  lemma NotRooted(b: string, d: string)
    requires '/' !in b
    ensures !StartsWith(b + "-" + d + ".png", "/")
  {
    var s := b + "-" + d + ".png";
    if |b| > 0 { assert s[0] == b[0]; } else { assert s[0] == '-'; }
  }

  /** No two outputs share an image name. */
  lemma OutputsDistinct(outDir: string, name: string, frames: seq<Frame>, draws: seq<Appearance>,
                        rate: real, resolution: int, padInches: int, storeConfigs: int,
                        columns: int, fullMode: string)
    requires |draws| == |frames|
    ensures var r := Outputs(outDir, name, frames, draws, rate, resolution, padInches, storeConfigs, columns, fullMode);
            forall a, b :: 0 <= a < b < |r| ==> r[a].png != r[b].png
  {
    var r := Outputs(outDir, name, frames, draws, rate, resolution, padInches, storeConfigs, columns, fullMode);
    var idx := NonEmptyFrom(frames, 0);
    forall a, b | 0 <= a < b < |r| ensures r[a].png != r[b].png {
      if r[a].png == r[b].png {
        PngNameInjective(outDir, name, idx[a], idx[b]);
      }
    }
  }
}
