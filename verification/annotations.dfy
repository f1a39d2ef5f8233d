/** The per-lead annotation records of `helper_functions.py`:
    `convert_bounding_boxes_to_dict` builds one record per lead label, and
    `read_leads` reads a list of such records back into parallel lists.

    A record is the JSON object of one lead. Each optional key is an
    `Option` field. A box is stored under the keys `"0"`, `"1"`, ...; here
    the key `str(j)` is position `j` of a sequence of integer points. */
module Annotations {
  import opened Base

  type Point = (real, real)
  type IntPoint = (int, int)

  datatype LeadRecord = LeadRecord(
    name: Option<string>,
    leadBox: Option<seq<IntPoint>>,
    textBox: Option<seq<IntPoint>>,
    startSample: Option<int>,
    endSample: Option<int>,
    plottedPixels: Option<seq<Point>>)

  /** `{str(j): [round(p[0]), round(p[1])] for j, p in enumerate(box)}` */
  function RoundBox(box: seq<Point>): (r: seq<IntPoint>)
    ensures |r| == |box|
    ensures forall j :: 0 <= j < |box| ==>
      Abs(r[j].0 as real - box[j].0) <= 0.5 && Abs(r[j].1 as real - box[j].1) <= 0.5
  {
    seq(|box|, j requires 0 <= j < |box| => (RoundHalfEven(box[j].0), RoundHalfEven(box[j].1)))
  }

  /** An optional per-lead list (`startTimeList` and friends) is used only
      when truthy; it is then indexed at every label position, so a list
      shorter than the labels raises `IndexError`. */
  predicate ListFits<T>(xs: seq<T>, n: nat) { |xs| == 0 || |xs| >= n }

  function Pick<T>(xs: seq<T>, i: nat): Option<T>
    requires ListFits(xs, i + 1)
  {
    if |xs| == 0 then None else Some(xs[i])
  }

  /** `convert_bounding_boxes_to_dict`; `None` is the `IndexError` case. */
  function ConvertToDict(leadBoxes: seq<seq<Point>>, textBoxes: seq<seq<Point>>, labels: seq<string>,
                         starts: seq<int>, ends: seq<int>, pixels: seq<seq<Point>>): (r: Option<seq<LeadRecord>>)
    ensures r.Some? <==> ListFits(starts, |labels|) && ListFits(ends, |labels|) && ListFits(pixels, |labels|)
    ensures r.Some? ==> |r.value| == |labels|
    ensures r.Some? ==> forall i :: 0 <= i < |labels| ==>
      r.value[i].name == Some(labels[i])
      && (r.value[i].leadBox.Some? <==> i < |leadBoxes|)
      && (r.value[i].textBox.Some? <==> i < |textBoxes|)
      && (r.value[i].startSample.Some? <==> |starts| > 0)
  {
    if ListFits(starts, |labels|) && ListFits(ends, |labels|) && ListFits(pixels, |labels|) then
      Some(seq(|labels|, i requires 0 <= i < |labels| =>
        LeadRecord(
          Some(labels[i]),
          if i < |leadBoxes| then Some(RoundBox(leadBoxes[i])) else None,
          if i < |textBoxes| then Some(RoundBox(textBoxes[i])) else None,
          Pick(starts, i), Pick(ends, i), Pick(pixels, i))))
    else None
  }

  /** The four corners `parts['0'] .. parts['3']`; fewer is `KeyError`. */
  function Corners(box: seq<IntPoint>): Option<seq<IntPoint>> {
    if |box| < 4 then None else Some(box[..4])
  }

  /** What one optional box adds to a box list: nothing when absent, its
      four corners when it has them, and `None` for the `KeyError`. */
  function BoxPart(slot: Option<seq<IntPoint>>): (r: Option<seq<seq<IntPoint>>>)
    ensures r.None? <==> slot.Some? && |slot.value| < 4
    ensures r.Some? ==> |r.value| <= 1
  {
    match slot
    case None => Some([])
    case Some(b) => (match Corners(b) case None => None case Some(c) => Some([c]))
  }

  datatype LeadLists = LeadLists(
    leadBoxes: seq<seq<IntPoint>>,
    textBoxes: seq<seq<IntPoint>>,
    labels: seq<string>,
    starts: seq<int>,
    ends: seq<int>,
    pixels: seq<seq<Point>>)

  /** `read_leads`: one label/start/end/pixels entry per record (with the
      defaults `''`, 0, 0, `[]`), and one box per record that has one, so
      the box lists skip records without a box. A box with fewer than
      four corners is the `KeyError` case (`None`). */
  function ReadLeads(recs: seq<LeadRecord>): (r: Option<LeadLists>)
    ensures r.Some? ==> (|r.value.labels| == |recs| && |r.value.starts| == |recs|
                         && |r.value.ends| == |recs| && |r.value.pixels| == |recs|)
    ensures r.Some? ==> |r.value.leadBoxes| <= |recs| && |r.value.textBoxes| <= |recs|
    ensures r.Some? ==> forall i :: 0 <= i < |recs| ==> r.value.labels[i] == OrElse(recs[i].name, "")
  {
    if |recs| == 0 then Some(LeadLists([], [], [], [], [], []))
    else
      var n := |recs| - 1;
      var rec := recs[n];
      match ReadLeads(recs[..n])
      case None => None
      case Some(acc) =>
        var lb := BoxPart(rec.leadBox);
        var tb := BoxPart(rec.textBox);
        if lb.None? || tb.None? then None
        else Some(LeadLists(
          acc.leadBoxes + lb.value,
          acc.textBoxes + tb.value,
          acc.labels + [OrElse(rec.name, "")],
          acc.starts + [OrElse(rec.startSample, 0)],
          acc.ends + [OrElse(rec.endSample, 0)],
          acc.pixels + [OrElse(rec.plottedPixels, [])]))
  }

  /** Every box has at least its four corners. */
  predicate FourCorners(boxes: seq<seq<Point>>) {
    forall i :: 0 <= i < |boxes| ==> |boxes[i]| >= 4
  }

  function RoundCorners(boxes: seq<seq<Point>>): (r: seq<seq<IntPoint>>)
    requires FourCorners(boxes)
    ensures |r| == |boxes|
    ensures forall i :: 0 <= i < |boxes| ==> r[i] == RoundBox(boxes[i])[..4]
  {
    seq(|boxes|, i requires 0 <= i < |boxes| => RoundBox(boxes[i])[..4])
  }

  /** What an optional per-lead list reads back as: the list itself (cut
      to the labels), or the default when it was not given. */
  function ReadBack<T>(xs: seq<T>, n: nat, d: T): (r: seq<T>)
    requires ListFits(xs, n)
    ensures |r| == n
  {
    if |xs| == 0 then seq(n, _ => d) else xs[..n]
  }

  /** The boxes that `read_leads` collects from a list of optional boxes:
      the four corners of each present one, in order. */
  function PresentCorners(slots: seq<Option<seq<IntPoint>>>): (r: Option<seq<seq<IntPoint>>>)
    ensures r.Some? ==> |r.value| <= |slots|
  {
    if |slots| == 0 then Some([])
    else
      var n := |slots| - 1;
      match PresentCorners(slots[..n])
      case None => None
      case Some(acc) =>
        match BoxPart(slots[n])
        case None => None
        case Some(p) => Some(acc + p)
  }

  function Defaults<T>(os: seq<Option<T>>, d: T): (r: seq<T>)
    ensures |r| == |os|
    ensures forall i :: 0 <= i < |os| ==> r[i] == OrElse(os[i], d)
  {
    seq(|os|, i requires 0 <= i < |os| => OrElse(os[i], d))
  }

  function Names(recs: seq<LeadRecord>): seq<Option<string>> { seq(|recs|, i requires 0 <= i < |recs| => recs[i].name) }
  function LeadBoxSlots(recs: seq<LeadRecord>): seq<Option<seq<IntPoint>>> { seq(|recs|, i requires 0 <= i < |recs| => recs[i].leadBox) }
  function TextBoxSlots(recs: seq<LeadRecord>): seq<Option<seq<IntPoint>>> { seq(|recs|, i requires 0 <= i < |recs| => recs[i].textBox) }
  function StartSlots(recs: seq<LeadRecord>): seq<Option<int>> { seq(|recs|, i requires 0 <= i < |recs| => recs[i].startSample) }
  function EndSlots(recs: seq<LeadRecord>): seq<Option<int>> { seq(|recs|, i requires 0 <= i < |recs| => recs[i].endSample) }
  function PixelSlots(recs: seq<LeadRecord>): seq<Option<seq<Point>>> { seq(|recs|, i requires 0 <= i < |recs| => recs[i].plottedPixels) }

  /** `read_leads` field by field: it succeeds exactly when every present
      box has its four corners, and then each list is the projection of
      the records. */
  lemma {:induction false} ReadLeadsFields(recs: seq<LeadRecord>)
    ensures ReadLeads(recs).Some? <==> PresentCorners(LeadBoxSlots(recs)).Some? && PresentCorners(TextBoxSlots(recs)).Some?
    ensures ReadLeads(recs).Some? ==> ReadLeads(recs).value == LeadLists(
      PresentCorners(LeadBoxSlots(recs)).value, PresentCorners(TextBoxSlots(recs)).value,
      Defaults(Names(recs), ""), Defaults(StartSlots(recs), 0), Defaults(EndSlots(recs), 0),
      Defaults(PixelSlots(recs), []))
    decreases |recs|
  {
    if |recs| > 0 {
      var n := |recs| - 1;
      ReadLeadsFields(recs[..n]);
      BoxSlotsSnoc(recs);
      DefaultsSnoc(recs);
      ReadLeadsSnoc(recs);
      PresentCornersSnoc(LeadBoxSlots(recs));
      PresentCornersSnoc(TextBoxSlots(recs));
    }
  }

  /** One step of `read_leads`: the last record adds its boxes and its
      defaulted entries. */
  lemma ReadLeadsSnoc(recs: seq<LeadRecord>)
    requires |recs| > 0
    ensures var n := |recs| - 1;
            var acc := ReadLeads(recs[..n]);
            var lb, tb := BoxPart(recs[n].leadBox), BoxPart(recs[n].textBox);
            && (ReadLeads(recs).Some? <==> acc.Some? && lb.Some? && tb.Some?)
            && (ReadLeads(recs).Some? ==> ReadLeads(recs).value == LeadLists(
                 acc.value.leadBoxes + lb.value, acc.value.textBoxes + tb.value,
                 acc.value.labels + [OrElse(recs[n].name, "")],
                 acc.value.starts + [OrElse(recs[n].startSample, 0)],
                 acc.value.ends + [OrElse(recs[n].endSample, 0)],
                 acc.value.pixels + [OrElse(recs[n].plottedPixels, [])]))
  {
  }

  /** One step of the box collection: the last slot adds its part. */
  lemma PresentCornersSnoc(slots: seq<Option<seq<IntPoint>>>)
    requires |slots| > 0
    ensures var n := |slots| - 1;
            && (PresentCorners(slots).Some? <==> PresentCorners(slots[..n]).Some? && BoxPart(slots[n]).Some?)
            && (PresentCorners(slots).Some? ==>
                  PresentCorners(slots).value == PresentCorners(slots[..n]).value + BoxPart(slots[n]).value)
  {
  }

  /** The box slots of all records but the last are the slots of the
      shorter list. */
  lemma BoxSlotsSnoc(recs: seq<LeadRecord>)
    requires |recs| > 0
    ensures var n := |recs| - 1;
            && LeadBoxSlots(recs)[..n] == LeadBoxSlots(recs[..n]) && LeadBoxSlots(recs)[n] == recs[n].leadBox
            && TextBoxSlots(recs)[..n] == TextBoxSlots(recs[..n]) && TextBoxSlots(recs)[n] == recs[n].textBox
  {
  }

  /** Each defaulted list grows by the last record's value or default. */
  lemma DefaultsSnoc(recs: seq<LeadRecord>)
    requires |recs| > 0
    ensures var n := |recs| - 1;
            && Defaults(Names(recs), "") == Defaults(Names(recs[..n]), "") + [OrElse(recs[n].name, "")]
            && Defaults(StartSlots(recs), 0) == Defaults(StartSlots(recs[..n]), 0) + [OrElse(recs[n].startSample, 0)]
            && Defaults(EndSlots(recs), 0) == Defaults(EndSlots(recs[..n]), 0) + [OrElse(recs[n].endSample, 0)]
            && Defaults(PixelSlots(recs), []) == Defaults(PixelSlots(recs[..n]), []) + [OrElse(recs[n].plottedPixels, [])]
  {
  }

  /** The box slot written for each label: the rounded box when there is
      one at that position. */
  function WrittenSlots(boxes: seq<seq<Point>>, n: nat): (r: seq<Option<seq<IntPoint>>>)
    ensures |r| == n
  {
    seq(n, i requires 0 <= i < n => if i < |boxes| then Some(RoundBox(boxes[i])) else None)
  }

  lemma {:induction false} PresentWritten(boxes: seq<seq<Point>>, n: nat)
    requires FourCorners(boxes)
    ensures PresentCorners(WrittenSlots(boxes, n)) == Some(RoundCorners(boxes[..MinInt(n, |boxes|)]))
    decreases n
  {
    if n > 0 {
      PresentWritten(boxes, n - 1);
      var slots := WrittenSlots(boxes, n);
      assert slots[..n - 1] == WrittenSlots(boxes, n - 1);
      var acc := RoundCorners(boxes[..MinInt(n - 1, |boxes|)]);
      if n - 1 < |boxes| {
        assert slots[n - 1] == Some(RoundBox(boxes[n - 1]));
        assert BoxPart(slots[n - 1]) == Some([RoundBox(boxes[n - 1])[..4]]);
        assert boxes[..n] == boxes[..n - 1] + [boxes[n - 1]];
        assert RoundCorners(boxes[..n]) == acc + [RoundBox(boxes[n - 1])[..4]];
      } else {
        assert BoxPart(slots[n - 1]) == Some([]);
        assert acc + [] == acc;
      }
    }
  }

  /** Reading back the records written by `convert_bounding_boxes_to_dict`
      gives the labels, the boxes of the labelled leads with coordinates
      rounded, and the per-lead lists or their defaults. */
  lemma ReadConvertRoundTrip(leadBoxes: seq<seq<Point>>, textBoxes: seq<seq<Point>>,
                             labels: seq<string>, starts: seq<int>, ends: seq<int>,
                             pixels: seq<seq<Point>>)
    requires FourCorners(leadBoxes) && FourCorners(textBoxes)
    requires ListFits(starts, |labels|) && ListFits(ends, |labels|) && ListFits(pixels, |labels|)
    ensures ReadLeads(ConvertToDict(leadBoxes, textBoxes, labels, starts, ends, pixels).value) ==
      Some(LeadLists(
        RoundCorners(leadBoxes[..MinInt(|labels|, |leadBoxes|)]),
        RoundCorners(textBoxes[..MinInt(|labels|, |textBoxes|)]),
        labels,
        ReadBack(starts, |labels|, 0),
        ReadBack(ends, |labels|, 0),
        ReadBack(pixels, |labels|, [])))
  {
    var recs := ConvertToDict(leadBoxes, textBoxes, labels, starts, ends, pixels).value;
    assert LeadBoxSlots(recs) == WrittenSlots(leadBoxes, |labels|);
    assert TextBoxSlots(recs) == WrittenSlots(textBoxes, |labels|);
    PresentWritten(leadBoxes, |labels|);
    PresentWritten(textBoxes, |labels|);
    ReadLeadsFields(recs);
    ConvertDefaults(leadBoxes, textBoxes, labels, starts, ends, pixels);
  }

  /** The per-lead lists of the written records read back as the labels
      and the given lists or their defaults. */
  lemma ConvertDefaults(leadBoxes: seq<seq<Point>>, textBoxes: seq<seq<Point>>,
                        labels: seq<string>, starts: seq<int>, ends: seq<int>,
                        pixels: seq<seq<Point>>)
    requires ListFits(starts, |labels|) && ListFits(ends, |labels|) && ListFits(pixels, |labels|)
    ensures var recs := ConvertToDict(leadBoxes, textBoxes, labels, starts, ends, pixels).value;
            && Defaults(Names(recs), "") == labels
            && Defaults(StartSlots(recs), 0) == ReadBack(starts, |labels|, 0)
            && Defaults(EndSlots(recs), 0) == ReadBack(ends, |labels|, 0)
            && Defaults(PixelSlots(recs), []) == ReadBack(pixels, |labels|, [])
  {
  }
}
