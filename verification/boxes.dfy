/** Bounding-box formats and their conversions: the `[y, x]` corner
    records `ecg_plot` writes, `[x, y, w, h]` pixel boxes, normalised YOLO
    boxes and `[x1, y1, x2, y2]` corner boxes; the JSON→YOLO label
    converter (`code-yolo/convert_to_yolo.py`) and the out-of-bounds
    diagnosis (`code-yolo/diagnose_json.py`). */
module Boxes {
  import opened Base
  import opened Layout

  // ---------------------------------------------------------------------
  // Extremes of integer sequences

  function IntSeqMin(s: seq<int>): (m: int)
    requires |s| > 0
    ensures forall i :: 0 <= i < |s| ==> m <= s[i]
    ensures exists i :: 0 <= i < |s| && m == s[i]
  {
    if |s| == 1 then s[0]
    else
      var rest := IntSeqMin(s[1..]);
      assert forall i :: 1 <= i < |s| ==> s[i] == s[1..][i - 1];
      if s[0] <= rest then s[0] else rest
  }

  function IntSeqMax(s: seq<int>): (m: int)
    requires |s| > 0
    ensures forall i :: 0 <= i < |s| ==> s[i] <= m
    ensures exists i :: 0 <= i < |s| && m == s[i]
  {
    if |s| == 1 then s[0]
    else
      var rest := IntSeqMax(s[1..]);
      assert forall i :: 1 <= i < |s| ==> s[i] == s[1..][i - 1];
      if s[0] >= rest then s[0] else rest
  }

  // ---------------------------------------------------------------------
  // Corner records → [x, y, w, h]

  /** A pixel box `[x_min, y_min, width, height]`. */
  datatype Xywh = Xywh(x: int, y: int, w: int, h: int)

  function Firsts(points: seq<Corner>): (r: seq<int>)
    ensures |r| == |points| && forall i :: 0 <= i < |points| ==> r[i] == points[i].0
  {
    seq(|points|, i requires 0 <= i < |points| => points[i].0)
  }

  function Seconds(points: seq<Corner>): (r: seq<int>)
    ensures |r| == |points| && forall i :: 0 <= i < |points| ==> r[i] == points[i].1
  {
    seq(|points|, i requires 0 <= i < |points| => points[i].1)
  }

  /** The tightest box around points whose x is their second coordinate
      and whose y is their first; `None` for no points (the `min` of an
      empty list raises). */
  function SpanOf(xs: seq<int>, ys: seq<int>): (r: Option<Xywh>)
    requires |xs| == |ys|
    ensures r.None? <==> |xs| == 0
    ensures r.Some? ==> r.value.w >= 0 && r.value.h >= 0
    ensures r.Some? ==> forall i :: 0 <= i < |xs| ==>
              r.value.x <= xs[i] <= r.value.x + r.value.w && r.value.y <= ys[i] <= r.value.y + r.value.h
    ensures r.Some? ==> (exists i :: 0 <= i < |xs| && xs[i] == r.value.x)
                        && (exists i :: 0 <= i < |xs| && xs[i] == r.value.x + r.value.w)
    ensures r.Some? ==> (exists i :: 0 <= i < |ys| && ys[i] == r.value.y)
                        && (exists i :: 0 <= i < |ys| && ys[i] == r.value.y + r.value.h)
  {
    if |xs| == 0 then None
    else
      var xMin := IntSeqMin(xs);
      var yMin := IntSeqMin(ys);
      Some(Xywh(xMin, yMin, IntSeqMax(xs) - xMin, IntSeqMax(ys) - yMin))
  }

  /** `convert_corners_to_xywh` of `convert_to_yolo.py`: reads each corner
      as `[y, x]`, the order `ecg_plot` writes. */
  function CornersToXywh(points: seq<Corner>): (r: Option<Xywh>)
    ensures r.None? <==> |points| == 0
    ensures r.Some? ==> r.value.w >= 0 && r.value.h >= 0
    ensures r.Some? ==> forall i :: 0 <= i < |points| ==>
              r.value.x <= points[i].1 <= r.value.x + r.value.w && r.value.y <= points[i].0 <= r.value.y + r.value.h
  {
    SpanOf(Seconds(points), Firsts(points))
  }

  /** Four corners `{0: top-left, 1: top-right, 2: bottom-right,
      3: bottom-left}` of an axis-parallel rectangle, as `[y, x]`. */
  predicate Rect(c: seq<Corner>) {
    |c| == 4
    && c[0].0 == c[1].0 && c[2].0 == c[3].0 && c[0].1 == c[3].1 && c[1].1 == c[2].1
    && c[0].0 <= c[2].0 && c[0].1 <= c[1].1
  }

  /** On a corner record the converter recovers the rectangle:
      (left, top, right - left, bottom - top). */
  lemma RectToXywh(c: seq<Corner>)
    requires Rect(c)
    ensures CornersToXywh(c) == Some(Xywh(c[0].1, c[0].0, c[1].1 - c[0].1, c[2].0 - c[0].0))
  {
    var xs, ys := Seconds(c), Firsts(c);
    var r := SpanOf(xs, ys).value;
    assert xs[0] == c[0].1 && xs[1] == c[1].1 && ys[0] == c[0].0 && ys[2] == c[2].0;
    assert forall k :: 0 <= k < |xs| ==> c[0].1 <= xs[k] <= c[1].1 && c[0].0 <= ys[k] <= c[2].0;
    assert r.x == c[0].1 && r.x + r.w == c[1].1;
    assert r.y == c[0].0 && r.y + r.h == c[2].0;
  }

  /** A sequence whose elements lie between two of its elements has those
      two as its extremes. */
  lemma ExtremesAre(s: seq<int>, lo: int, hi: int, i: nat, j: nat)
    requires i < |s| && j < |s| && s[i] == lo && s[j] == hi
    requires forall k :: 0 <= k < |s| ==> lo <= s[k] <= hi
    ensures IntSeqMin(s) == lo && IntSeqMax(s) == hi
  {
  }

  /** The corners `ecg_plot` writes for a box with ordered edges form a
      rectangle record. */
  lemma PlotCornersAreRect(t: Affine, canvasHeight: int, b: DataBox)
    requires Increasing(t) && b.xMin <= b.xMax && b.yMin <= b.yMax
    ensures Rect(Corners(t, canvasHeight, b))
  {
    CornersOrdered(t, canvasHeight, b);
  }

  // ---------------------------------------------------------------------
  // YOLO boxes

  /** A normalised YOLO box: centre and size as fractions of the image. */
  datatype Yolo = Yolo(xc: real, yc: real, w: real, h: real)

  /** `convert_bbox_to_yolo`; `None` for a zero image side (division by
      zero). */
  function BboxToYolo(b: Xywh, width: int, height: int): (r: Option<Yolo>)
    ensures r.None? <==> width == 0 || height == 0
    ensures r.Some? ==> r.value.w * width as real == b.w as real && r.value.h * height as real == b.h as real
    ensures r.Some? ==> r.value.xc * width as real == b.x as real + b.w as real / 2.0
                        && r.value.yc * height as real == b.y as real + b.h as real / 2.0
  {
    if width == 0 || height == 0 then None
    else
      var W := width as real;
      var H := height as real;
      Some(Yolo((b.x as real + b.w as real / 2.0) / W, (b.y as real + b.h as real / 2.0) / H,
                b.w as real / W, b.h as real / H))
  }

  predicate InsideImage(b: Xywh, width: int, height: int) {
    0 <= b.x && 0 <= b.w && b.x + b.w <= width && 0 <= b.y && 0 <= b.h && b.y + b.h <= height
  }

  predicate Normalised(y: Yolo) {
    0.0 <= y.xc <= 1.0 && 0.0 <= y.yc <= 1.0 && 0.0 <= y.w <= 1.0 && 0.0 <= y.h <= 1.0
  }

  lemma FractionInUnit(a: real, d: real)
    requires 0.0 <= a <= d && d > 0.0
    ensures 0.0 <= a / d <= 1.0
  {
    var q := a / d;
    assert q * d == a;
    assert (1.0 - q) * d == d - a;
  }

  /** A box inside the image has all four YOLO values in [0, 1]. */
  lemma YoloNormalised(b: Xywh, width: int, height: int)
    requires width > 0 && height > 0 && InsideImage(b, width, height)
    ensures Normalised(BboxToYolo(b, width, height).value)
  {
    var W := width as real;
    var H := height as real;
    FractionInUnit(b.x as real + b.w as real / 2.0, W);
    FractionInUnit(b.y as real + b.h as real / 2.0, H);
    FractionInUnit(b.w as real, W);
    FractionInUnit(b.h as real, H);
  }

  /** A corner box `[x1, y1, x2, y2]` in pixels. */
  datatype Xyxy = Xyxy(x1: real, y1: real, x2: real, y2: real)

  /** `yolo_to_xyxy` (`code-yolo/evaluation.py`,
      `codes/code-yolo/iou_calculation.py`) and the label-to-pixel
      conversion of `visualize_specific_errors.py`: the same formula. */
  function YoloToXyxy(y: Yolo, width: int, height: int): (r: Xyxy)
    ensures r.x2 - r.x1 == y.w * width as real && r.y2 - r.y1 == y.h * height as real
    ensures r.x1 + r.x2 == 2.0 * y.xc * width as real && r.y1 + r.y2 == 2.0 * y.yc * height as real
  {
    var W := width as real;
    var H := height as real;
    Xyxy((y.xc - y.w / 2.0) * W, (y.yc - y.h / 2.0) * H, (y.xc + y.w / 2.0) * W, (y.yc + y.h / 2.0) * H)
  }

  /** Going to YOLO and back gives the pixel box's corners. */
  lemma YoloRoundTrip(b: Xywh, width: int, height: int)
    requires width != 0 && height != 0
    ensures YoloToXyxy(BboxToYolo(b, width, height).value, width, height)
            == Xyxy(b.x as real, b.y as real, (b.x + b.w) as real, (b.y + b.h) as real)
  {
    var y := BboxToYolo(b, width, height).value;
    var r := YoloToXyxy(y, width, height);
    assert r.x2 - r.x1 == b.w as real;
    assert r.x1 + r.x2 == 2.0 * (b.x as real + b.w as real / 2.0);
    assert r.y2 - r.y1 == b.h as real;
    assert r.y1 + r.y2 == 2.0 * (b.y as real + b.h as real / 2.0);
  }

  // ---------------------------------------------------------------------
  // JSON → YOLO labels

  /** A lead record as read back from a JSON file: both keys optional. */
  datatype JsonLead = JsonLead(name: Option<string>, box: Option<seq<Corner>>)

  /** A parsed JSON file: the keys the converters read. */
  datatype JsonDoc = JsonDoc(width: Option<int>, height: Option<int>, leads: Option<seq<JsonLead>>)

  const ClassMap: map<string, int> := map[
    "I" := 0, "II" := 1, "III" := 2, "aVR" := 3, "aVL" := 4, "aVF" := 5,
    "V1" := 6, "V2" := 7, "V3" := 8, "V4" := 9, "V5" := 10, "V6" := 11, "L" := 12]

  const RhythmWidthThreshold := 1000

  /** The class of a lead box, -1 for none: lead II is the long rhythm
      class 12 when its box is wider than 1000 pixels. */
  function ClassOf(name: string, boxWidth: int): (c: int)
    ensures name == "II" ==> (c == 12 <==> boxWidth > RhythmWidthThreshold) && (c == 1 <==> boxWidth <= RhythmWidthThreshold)
    ensures name != "II" && name in ClassMap ==> c == ClassMap[name]
    ensures name !in ClassMap ==> c == -1
    ensures -1 <= c <= 12
  {
    if name == "II" then (if boxWidth > RhythmWidthThreshold then ClassMap["L"] else ClassMap["II"])
    else if name in ClassMap then ClassMap[name]
    else -1
  }

  /** One label line (`.6f` formatting aside). */
  datatype YoloLine = YoloLine(cls: int, box: Yolo)

  /** A lead with a name, a box and a known class makes a line. */
  predicate Labelled(l: JsonLead) {
    l.name.Some? && l.box.Some? && |l.box.value| > 0
    && ClassOf(l.name.value, CornersToXywh(l.box.value).value.w) != -1
  }

  /** The lines of one lead record: `None` when it raises (an empty corner
      record, or a zero image side for a line to write). */
  function LeadLine(l: JsonLead, width: int, height: int): (r: Option<seq<YoloLine>>)
    ensures r.Some? ==> |r.value| == (if Labelled(l) then 1 else 0)
    ensures r.None? <==>
              (l.name.Some? && l.box.Some? && (|l.box.value| == 0 || (Labelled(l) && (width == 0 || height == 0))))
  {
    if l.name.None? || l.box.None? then Some([])
    else
      match CornersToXywh(l.box.value)
      case None => None
      case Some(b) =>
        var c := ClassOf(l.name.value, b.w);
        if c == -1 then Some([])
        else
          match BboxToYolo(b, width, height)
          case None => None
          case Some(y) => Some([YoloLine(c, y)])
  }

  /** The lines of a lead list in order; `None` if any lead raises. */
  function LeadLines(leads: seq<JsonLead>, width: int, height: int): (r: Option<seq<YoloLine>>)
    decreases |leads|
  {
    if leads == [] then Some([])
    else
      var first := LeadLine(leads[0], width, height);
      var rest := LeadLines(leads[1..], width, height);
      if first.None? || rest.None? then None else Some(first.value + rest.value)
  }

  function CountLabelled(leads: seq<JsonLead>): nat {
    if leads == [] then 0 else (if Labelled(leads[0]) then 1 else 0) + CountLabelled(leads[1..])
  }

  /** The converter is compositional: the lines of two lead lists are the
      lines of the first followed by those of the second. */
  lemma {:induction false} LeadLinesAppend(a: seq<JsonLead>, b: seq<JsonLead>, width: int, height: int)
    ensures LeadLines(a + b, width, height)
            == (if LeadLines(a, width, height).None? || LeadLines(b, width, height).None? then None
                else Some(LeadLines(a, width, height).value + LeadLines(b, width, height).value))
    decreases |a|
  {
    if a == [] {
      assert a + b == b;
      if LeadLines(b, width, height).Some? {
        assert [] + LeadLines(b, width, height).value == LeadLines(b, width, height).value;
      }
    } else {
      assert (a + b)[1..] == a[1..] + b;
      assert (a + b)[0] == a[0];
      LeadLinesAppend(a[1..], b, width, height);
      var f := LeadLine(a[0], width, height);
      if f.Some? && LeadLines(a[1..], width, height).Some? && LeadLines(b, width, height).Some? {
        assert f.value + (LeadLines(a[1..], width, height).value + LeadLines(b, width, height).value)
               == (f.value + LeadLines(a[1..], width, height).value) + LeadLines(b, width, height).value;
      }
    }
  }

  /** Exactly one line per labelled lead. */
  lemma {:induction false} LeadLinesCount(leads: seq<JsonLead>, width: int, height: int)
    requires LeadLines(leads, width, height).Some?
    ensures |LeadLines(leads, width, height).value| == CountLabelled(leads)
    decreases |leads|
  {
    if leads != [] {
      LeadLinesCount(leads[1..], width, height);
    }
  }

  /** What the converter does with one file. */
  datatype Conversion = Skipped | Written(lines: seq<YoloLine>) | Raised

  /** `process_json_annotations` for one file: unreadable files and files
      without `width`/`height` are skipped, as are files without
      `leads`; otherwise the lines are written. */
  function ConvertFile(doc: Option<JsonDoc>): (r: Conversion)
    ensures doc.None? || doc.value.width.None? || doc.value.height.None? || doc.value.leads.None? ==> r.Skipped?
    ensures r.Written? ==> |r.lines| == CountLabelled(doc.value.leads.value)
    ensures r.Written? ==> forall k :: 0 <= k < |r.lines| ==> 0 <= r.lines[k].cls <= 12
  {
    if doc.None? || doc.value.width.None? || doc.value.height.None? || doc.value.leads.None? then Skipped
    else
      var d := doc.value;
      match LeadLines(d.leads.value, d.width.value, d.height.value)
      case None => Raised
      case Some(lines) =>
        LeadLinesCount(d.leads.value, d.width.value, d.height.value);
        LeadLinesClasses(d.leads.value, d.width.value, d.height.value);
        Written(lines)
  }

  lemma {:induction false} LeadLinesClasses(leads: seq<JsonLead>, width: int, height: int)
    requires LeadLines(leads, width, height).Some?
    ensures forall k :: 0 <= k < |LeadLines(leads, width, height).value| ==>
              0 <= LeadLines(leads, width, height).value[k].cls <= 12
    decreases |leads|
  {
    if leads != [] {
      LeadLinesClasses(leads[1..], width, height);
    }
  }

  /** A lead record `ecg_plot` writes with a box becomes exactly one line
      whose class follows the lead's name and whose box is the drawn
      rectangle, normalised. */
  lemma PlotRecordLine(name: string, c: seq<Corner>, width: int, height: int)
    requires Rect(c) && width > 0 && height > 0
    requires ClassOf(name, c[1].1 - c[0].1) != -1
    ensures LeadLine(JsonLead(Some(name), Some(c)), width, height)
            == Some([YoloLine(ClassOf(name, c[1].1 - c[0].1),
                              BboxToYolo(Xywh(c[0].1, c[0].0, c[1].1 - c[0].1, c[2].0 - c[0].0), width, height).value)])
  {
    RectToXywh(c);
  }

  // ---------------------------------------------------------------------
  // Out-of-bounds diagnosis

  /** `convert_corners_to_xywh` of `diagnose_json.py` as written: it reads
      each corner as `[x, y]`. */
  function DiagnoseXywhAsWritten(points: seq<Corner>): (r: Option<Xywh>)
    ensures r.None? <==> |points| == 0
  {
    SpanOf(Firsts(points), Seconds(points))
  }

  /** The check of `find_bad_annotations`: the box's far corner lies
      beyond the image. */
  predicate Flagged(b: Xywh, width: int, height: int) {
    b.x + b.w > width || b.y + b.h > height
  }

  /** A lead box well inside an 1100×850 page (rows 100 to 200, columns
      900 to 1000) is reported out of bounds, because its rows are
      compared with the width and its columns with the height. */
  lemma DiagnoseSwapsAxes()
    ensures var c := [(100, 900), (100, 1000), (200, 1000), (200, 900)];
            Rect(c) && c[2].0 <= 850 && c[1].1 <= 1100
            && Flagged(DiagnoseXywhAsWritten(c).value, 1100, 850)
            && !Flagged(CornersToXywh(c).value, 1100, 850)
  {
    var c := [(100, 900), (100, 1000), (200, 1000), (200, 900)];
    assert Rect(c);
    RectToXywh(c);
    AsWrittenReachesColumn(c, 1);
  }

  /** As written, the box's far edge in y reaches every corner's column. */
  lemma AsWrittenReachesColumn(c: seq<Corner>, i: nat)
    requires i < |c|
    ensures DiagnoseXywhAsWritten(c).Some?
    ensures var a := DiagnoseXywhAsWritten(c).value; c[i].1 <= a.y + a.h
  {
    var ys := Seconds(c);
    assert ys[i] == c[i].1;
  }

  /** The diagnosis as intended reads corners like the converter does, so
      a corner record is flagged exactly when its right edge passes the
      width or its bottom edge passes the height. */
  lemma FlaggedIff(c: seq<Corner>, width: int, height: int)
    requires Rect(c)
    ensures Flagged(CornersToXywh(c).value, width, height) <==> c[1].1 > width || c[2].0 > height
  {
    RectToXywh(c);
  }

  /** The box the diagnosis reads from a corner record: as written
      (`DiagnoseXywhAsWritten`) or, `corrected`, the way the converter
      reads it. */
  function DiagnoseXywh(points: seq<Corner>, corrected: bool): (r: Option<Xywh>)
    ensures r.None? <==> |points| == 0
  {
    if corrected then CornersToXywh(points) else DiagnoseXywhAsWritten(points)
  }

  /** The two readings of a record are the same box with its axes
      exchanged. */
  lemma AsWrittenTransposed(points: seq<Corner>)
    requires |points| > 0
    ensures var a := DiagnoseXywhAsWritten(points).value;
            var c := CornersToXywh(points).value;
            a == Xywh(c.y, c.x, c.h, c.w)
  {
  }

  /** On a square image the axis mix-up never changes a flag. */
  lemma FlaggedSquare(points: seq<Corner>, side: int)
    requires |points| > 0
    ensures Flagged(DiagnoseXywh(points, false).value, side, side) <==> Flagged(DiagnoseXywh(points, true).value, side, side)
  {
    AsWrittenTransposed(points);
  }

  /** The flags of one file's boxes, with `diagnose_json.py`'s skips
      (lines 28-37); `None` when an empty corner record raises. With
      `corrected` false this is the code as written. */
  function FileFlags(doc: Option<JsonDoc>, corrected: bool): (r: Option<seq<bool>>)
    ensures doc.None? || doc.value.width.None? || doc.value.height.None? || doc.value.leads.None? ==> r == Some([])
    ensures doc.Some? && doc.value.width.Some? && doc.value.height.Some? && doc.value.leads.Some? ==>
              r == LeadFlags(doc.value.leads.value, doc.value.width.value, doc.value.height.value, corrected)
  {
    if doc.None? || doc.value.width.None? || doc.value.height.None? || doc.value.leads.None? then Some([])
    else LeadFlags(doc.value.leads.value, doc.value.width.value, doc.value.height.value, corrected)
  }

  /** A lead whose corner record is empty: the `min` of the converter
      raises on it. */
  predicate EmptyRecord(l: JsonLead) {
    l.box.Some? && l.box.value == []
  }

  /** A lead whose box, read as written or `corrected`, passes the image's
      far edge (line 45). */
  predicate LeadFlagged(l: JsonLead, width: int, height: int, corrected: bool) {
    l.box.Some? && l.box.value != [] && Flagged(DiagnoseXywh(l.box.value, corrected).value, width, height)
  }

  /** One flag per lead of a file (lines 39-50), the box read as written or
      `corrected`; `None` when an empty corner record raises. */
  function LeadFlags(leads: seq<JsonLead>, width: int, height: int, corrected: bool): (r: Option<seq<bool>>)
    ensures r.None? <==> exists i :: 0 <= i < |leads| && EmptyRecord(leads[i])
    ensures r.Some? ==> |r.value| == |leads|
    ensures r.Some? ==> forall i :: 0 <= i < |leads| ==> r.value[i] == LeadFlagged(leads[i], width, height, corrected)
  {
    if leads == [] then Some([])
    else
      var rest := LeadFlags(leads[1..], width, height, corrected);
      assert forall i :: 1 <= i < |leads| ==> leads[i] == leads[1..][i - 1];
      if EmptyRecord(leads[0]) then None
      else if rest.None? then
        var i :| 0 <= i < |leads[1..]| && EmptyRecord(leads[1..][i]);
        assert leads[i + 1] == leads[1..][i];
        None
      else
        var r := [LeadFlagged(leads[0], width, height, corrected)] + rest.value;
        assert forall i :: 1 <= i < |leads| ==> r[i] == rest.value[i - 1];
        Some(r)
  }

  /** On a square image the code as written flags exactly the leads the
      corrected reading flags. */
  lemma LeadFlagsSquare(leads: seq<JsonLead>, side: int)
    ensures LeadFlags(leads, side, side, false) == LeadFlags(leads, side, side, true)
  {
    var a := LeadFlags(leads, side, side, false);
    var b := LeadFlags(leads, side, side, true);
    if a.Some? {
      forall i | 0 <= i < |leads| && leads[i].box.Some? && leads[i].box.value != [] ensures a.value[i] == b.value[i] {
        FlaggedSquare(leads[i].box.value, side);
      }
    }
  }

  /** The mix-up reaches the verdict: a file whose one lead box lies
      inside the page, but whose bottom row passes the width or whose
      right column passes the height (the box of `DiagnoseSwapsAxes`, say),
      gives "errors found" as written and no error when corrected. */
  lemma DiagnoseVerdictSwapped(c: seq<Corner>, name: Option<string>, width: int, height: int)
    requires Rect(c) && c[1].1 <= width && c[2].0 <= height
    requires c[2].0 > width || c[1].1 > height
    ensures var docs := [Some(JsonDoc(Some(width), Some(height), Some([JsonLead(name, Some(c))])))];
            Diagnose(docs, false) == Some(true) && Diagnose(docs, true) == Some(false)
  {
    RectToXywh(c);
    AsWrittenTransposed(c);
    SingleLeadVerdict(c, name, width, height, false);
    SingleLeadVerdict(c, name, width, height, true);
  }

  /** A file with one boxed lead gives the verdict of that lead's flag. */
  lemma SingleLeadVerdict(c: seq<Corner>, name: Option<string>, width: int, height: int, corrected: bool)
    requires |c| > 0
    ensures Diagnose([Some(JsonDoc(Some(width), Some(height), Some([JsonLead(name, Some(c))])))], corrected)
            == Some(Flagged(DiagnoseXywh(c, corrected).value, width, height))
  {
    var leads := [JsonLead(name, Some(c))];
    var docs := [Some(JsonDoc(Some(width), Some(height), Some(leads)))];
    var a := LeadFlags(leads, width, height, corrected);
    assert a.Some? && |a.value| == 1;
    assert a.value[0] == Flagged(DiagnoseXywh(c, corrected).value, width, height);
    assert a.value == [a.value[0]];
    assert docs[1..] == [];
  }

  function AnyTrue(s: seq<bool>): (r: bool)
    ensures r <==> exists i :: 0 <= i < |s| && s[i]
  {
    if s == [] then false
    else
      assert forall i :: 1 <= i < |s| ==> s[i] == s[1..][i - 1];
      s[0] || AnyTrue(s[1..])
  }

  /** `find_bad_annotations` over a list of files: `Some(true)` is the
      "errors found" verdict, `None` a raise. With `corrected` false this
      is the code as written. */
  function Diagnose(docs: seq<Option<JsonDoc>>, corrected: bool): (r: Option<bool>)
    ensures r.Some? ==> forall i :: 0 <= i < |docs| ==> FileFlags(docs[i], corrected).Some?
    ensures r.Some? ==> (r.value <==> exists i :: 0 <= i < |docs| && AnyTrue(FileFlags(docs[i], corrected).value))
    ensures r.None? ==> exists i :: 0 <= i < |docs| && FileFlags(docs[i], corrected).None?
  {
    if docs == [] then Some(false)
    else
      var first := FileFlags(docs[0], corrected);
      var rest := Diagnose(docs[1..], corrected);
      assert forall i :: 1 <= i < |docs| ==> docs[i] == docs[1..][i - 1];
      if first.None? then None
      else if rest.None? then
        var i :| 0 <= i < |docs[1..]| && FileFlags(docs[1..][i], corrected).None?;
        assert docs[i + 1] == docs[1..][i];
        None
      else
        FlaggedFileCons(docs, corrected);
        Some(AnyTrue(first.value) || rest.value)
  }

  /** Some file has a flagged lead iff the first does or one of the rest. */
  lemma FlaggedFileCons(docs: seq<Option<JsonDoc>>, corrected: bool)
    requires |docs| > 0 && forall i :: 0 <= i < |docs| ==> FileFlags(docs[i], corrected).Some?
    ensures (exists i :: 0 <= i < |docs| && AnyTrue(FileFlags(docs[i], corrected).value))
            <==> AnyTrue(FileFlags(docs[0], corrected).value)
                 || exists i :: 0 <= i < |docs[1..]| && AnyTrue(FileFlags(docs[1..][i], corrected).value)
  {
    if i :| 0 <= i < |docs| && AnyTrue(FileFlags(docs[i], corrected).value) {
      if i > 0 { assert docs[1..][i - 1] == docs[i]; }
    }
    if i :| 0 <= i < |docs[1..]| && AnyTrue(FileFlags(docs[1..][i], corrected).value) {
      assert docs[i + 1] == docs[1..][i];
    }
  }
}
