/** Ground-truth labels against predictions: the label reader and
    best-match averaging of `code-yolo/evaluation.py` and
    `codes/code-yolo/iou_calculation.py`, and the greedy one-to-one
    matching and error report of
    `codes/code-yolo/visualize_specific_errors.py`. A prediction is its
    class and its corner box; the detector that produces them is an
    input. */
module Matching {
  import opened Base
  import opened Text
  import opened Boxes
  import opened Iou

  // ---------------------------------------------------------------------
  // Label files

  /** One parsed label line: `[int(class)] + [float(v) for v in rest]`. */
  datatype LabelRow = LabelRow(cls: int, values: seq<real>)

  /** `[float(p) for p in toks]`; `None` when one of them raises. */
  function ParseFloats(toks: seq<string>): (r: Option<seq<real>>)
    ensures r.Some? <==> forall k :: 0 <= k < |toks| ==> ParseFloat(toks[k]).Some?
    ensures r.Some? ==> |r.value| == |toks|
    ensures r.Some? ==> forall k :: 0 <= k < |toks| ==> r.value[k] == ParseFloat(toks[k]).value
  {
    if |toks| == 0 then Some([])
    else
      match (ParseFloat(toks[0]), ParseFloats(toks[1..]))
      case (Some(v), Some(vs)) => Some([v] + vs)
      case _ => None
  }

  /** One line of a label file; `None` for the `IndexError` of a blank
      line and the `ValueError` of a token that is not a number. */
  function ParseRow(line: string): (r: Option<LabelRow>)
    ensures IsBlank(line) ==> r.None?
    ensures r.Some? ==> |r.value.values| == |Words(line)| - 1
    ensures r.Some? ==> Some(r.value.cls) == ParseInt(Words(line)[0])
  {
    WordsEmptyIffBlank(line);
    var parts := Words(line);
    if |parts| == 0 then None
    else
      match (ParseInt(parts[0]), ParseFloats(parts[1..]))
      case (Some(c), Some(vs)) => Some(LabelRow(c, vs))
      case _ => None
  }

  /** Every line parsed, or `None` when one raises. */
  function ParseRows(lines: seq<string>): (r: Option<seq<LabelRow>>)
    ensures r.Some? <==> forall k :: 0 <= k < |lines| ==> ParseRow(lines[k]).Some?
    ensures r.Some? ==> |r.value| == |lines|
    ensures r.Some? ==> forall k :: 0 <= k < |lines| ==> r.value[k] == ParseRow(lines[k]).value
  {
    if |lines| == 0 then Some([])
    else
      match (ParseRow(lines[0]), ParseRows(lines[1..]))
      case (Some(x), Some(xs)) => Some([x] + xs)
      case _ => None
  }

  /** `get_ground_truth` of `code-yolo/evaluation.py`: a missing label file
      (`None`) gives no boxes; an existing one gives a row per line, and
      the whole call raises when any line does not parse. */
  function GroundTruth(file: Option<string>): (r: Option<seq<LabelRow>>)
    ensures file.None? ==> r == Some([])
    ensures file.Some? ==> r == ParseRows(FileLines(file.value))
  {
    match file
    case None => Some([])
    case Some(text) => ParseRows(FileLines(text))
  }

  /** `yolo_to_xyxy`: the row must hold the class and exactly four numbers
      (otherwise the unpacking raises `ValueError`). */
  function RowToXyxy(row: LabelRow, width: int, height: int): (r: Option<Xyxy>)
    ensures r.Some? <==> |row.values| == 4
    ensures r.Some? ==> r.value.x2 - r.value.x1 == row.values[2] * width as real
                        && r.value.y2 - r.value.y1 == row.values[3] * height as real
  {
    if |row.values| == 4 then
      Some(YoloToXyxy(Yolo(row.values[0], row.values[1], row.values[2], row.values[3]), width, height))
    else None
  }

  /** A label line written by the JSON-to-YOLO converter is read back as
      the pixel corners of the box it came from. */
  lemma LabelRowRoundTrip(cls: int, b: Xywh, width: int, height: int)
    requires width != 0 && height != 0
    ensures var y := BboxToYolo(b, width, height).value;
            RowToXyxy(LabelRow(cls, [y.xc, y.yc, y.w, y.h]), width, height)
            == Some(Xyxy(b.x as real, b.y as real, (b.x + b.w) as real, (b.y + b.h) as real))
  {
    YoloRoundTrip(b, width, height);
  }

  // ---------------------------------------------------------------------
  // Keeping the best score of a scan

  /** A score that beats `best`; `None` stands for a candidate that is
      skipped or whose score is NaN (never greater than anything). */
  predicate Beats(s: Option<real>, best: real) { s.Some? && s.value > best }

  /** The loop `if score > best: best = score; idx = k` over `scores`,
      starting from `best = floor` and no index: the result is the first
      index holding the largest score above `floor`. */
  function BestSoFar(scores: seq<Option<real>>, floor: real): (r: (real, Option<nat>))
    ensures r.0 >= floor
    ensures r.1.None? <==> forall k :: 0 <= k < |scores| ==> !Beats(scores[k], floor)
    ensures r.1.None? ==> r.0 == floor
    ensures r.1.Some? ==> r.1.value < |scores| && scores[r.1.value] == Some(r.0) && r.0 > floor
    ensures forall k :: 0 <= k < |scores| && scores[k].Some? ==> scores[k].value <= r.0
    ensures r.1.Some? ==> forall k :: 0 <= k < r.1.value && scores[k].Some? ==> scores[k].value < r.0
  {
    if |scores| == 0 then (floor, None)
    else
      var n := |scores| - 1;
      var prev := BestSoFar(scores[..n], floor);
      assert forall k :: 0 <= k < n ==> scores[..n][k] == scores[k];
      if Beats(scores[n], prev.0) then (scores[n].value, Some(n)) else prev
  }

  // ---------------------------------------------------------------------
  // Best match of one ground-truth box (`evaluation.py`, `iou_calculation.py`)

  /** A detection: its class and its `[x1, y1, x2, y2]` box. */
  datatype Pred = Pred(cls: int, box: Xyxy)

  /** `box_iou(pred, gt)` for the predictions of class `cls`; the others
      are skipped. */
  function ClassScores(preds: seq<Pred>, cls: int, gt: Xyxy): (r: seq<Option<real>>)
    ensures |r| == |preds|
    ensures forall k :: 0 <= k < |preds| ==> r[k] == (if preds[k].cls == cls then BoxIou(preds[k].box, gt) else None)
  {
    seq(|preds|, k requires 0 <= k < |preds| => if preds[k].cls == cls then BoxIou(preds[k].box, gt) else None)
  }

  /** The prediction kept for a ground-truth box: among predictions of the
      same class, the first one with the largest IoU, where `best_iou`
      starts at -1. */
  function BestMatch(preds: seq<Pred>, cls: int, gt: Xyxy): (r: Option<nat>)
    ensures r.None? <==> forall k :: 0 <= k < |preds| && preds[k].cls == cls ==> !Beats(BoxIou(preds[k].box, gt), -1.0)
    ensures r.Some? ==> r.value < |preds| && preds[r.value].cls == cls && Beats(BoxIou(preds[r.value].box, gt), -1.0)
    ensures r.Some? ==> forall k :: 0 <= k < |preds| && preds[k].cls == cls && BoxIou(preds[k].box, gt).Some?
                          ==> BoxIou(preds[k].box, gt).value <= BoxIou(preds[r.value].box, gt).value
    ensures r.Some? ==> forall k :: 0 <= k < r.value && preds[k].cls == cls && BoxIou(preds[k].box, gt).Some?
                          ==> BoxIou(preds[k].box, gt).value < BoxIou(preds[r.value].box, gt).value
  {
    var scores := ClassScores(preds, cls, gt);
    BestSoFar(scores, -1.0).1
  }

  /** With well-formed boxes every IoU is at least 0, so a match is found
      exactly when some prediction has the ground truth's class. */
  lemma BestMatchWellFormed(preds: seq<Pred>, cls: int, gt: Xyxy)
    requires WellFormed(gt)
    requires forall k :: 0 <= k < |preds| ==> WellFormed(preds[k].box)
    ensures BestMatch(preds, cls, gt).None? <==> forall k :: 0 <= k < |preds| ==> preds[k].cls != cls
  {
  }

  // ---------------------------------------------------------------------
  // Matches of one image

  /** A ground-truth box of class `cls` and the prediction kept for it. */
  datatype Match = Match(cls: int, pred: Xyxy, gt: Xyxy)

  /** The matches of the label rows of one image, in row order; `None`
      when a row does not have exactly four numbers. */
  function RowMatches(rows: seq<LabelRow>, preds: seq<Pred>, width: int, height: int): (r: Option<seq<Match>>)
    ensures r.Some? <==> forall k :: 0 <= k < |rows| ==> |rows[k].values| == 4
    ensures r.Some? ==> |r.value| <= |rows|
    ensures r.Some? ==> forall j :: 0 <= j < |r.value| ==> exists k :: 0 <= k < |preds| && preds[k] == Pred(r.value[j].cls, r.value[j].pred)
  {
    if |rows| == 0 then Some([])
    else
      var rest := RowMatches(rows[1..], preds, width, height);
      match RowToXyxy(rows[0], width, height)
      case None => None
      case Some(gt) =>
        if rest.None? then None
        else
          match BestMatch(preds, rows[0].cls, gt)
          case None => rest
          case Some(i) => Some([Match(rows[0].cls, preds[i].box, gt)] + rest.value)
  }

  /** Rows whose class some prediction has. */
  function ClassesPresent(rows: seq<LabelRow>, preds: seq<Pred>): (n: nat)
    ensures n <= |rows|
  {
    if |rows| == 0 then 0
    else (if exists k :: 0 <= k < |preds| && preds[k].cls == rows[0].cls then 1 else 0) + ClassesPresent(rows[1..], preds)
  }

  /** With well-formed boxes, every ground-truth box whose class was
      predicted gets exactly one match. */
  lemma {:induction false} MatchCount(rows: seq<LabelRow>, preds: seq<Pred>, width: int, height: int)
    requires forall k :: 0 <= k < |rows| ==> |rows[k].values| == 4
    requires forall k :: 0 <= k < |rows| ==> WellFormed(RowToXyxy(rows[k], width, height).value)
    requires forall k :: 0 <= k < |preds| ==> WellFormed(preds[k].box)
    ensures |RowMatches(rows, preds, width, height).value| == ClassesPresent(rows, preds)
    decreases |rows|
  {
    if |rows| > 0 {
      MatchCount(rows[1..], preds, width, height);
      BestMatchWellFormed(preds, rows[0].cls, RowToXyxy(rows[0], width, height).value);
    }
  }

  /** The labels of one image: `evaluation.py` reads a missing file as no
      boxes and skips an image without boxes. */
  function ImageMatches(labelFile: Option<string>, preds: seq<Pred>, width: int, height: int): (r: Option<seq<Match>>)
    ensures labelFile.None? ==> r == Some([])
  {
    match GroundTruth(labelFile)
    case None => None
    case Some(rows) => if |rows| == 0 then Some([]) else RowMatches(rows, preds, width, height)
  }

  /** `iou_calculation.py`: an image without a label file is skipped; the
      lines of an existing one are read without a special case for an
      empty list. */
  function ImageMatchesIouCalculation(labelFile: Option<string>, preds: seq<Pred>, width: int, height: int): (r: Option<seq<Match>>)
    ensures labelFile.None? ==> r == Some([])
  {
    if labelFile.None? then Some([])
    else
      match ParseRows(FileLines(labelFile.value))
      case None => None
      case Some(rows) => RowMatches(rows, preds, width, height)
  }

  /** The two scripts find the same matches in every image. */
  lemma ScriptsAgree(labelFile: Option<string>, preds: seq<Pred>, width: int, height: int)
    ensures ImageMatches(labelFile, preds, width, height) == ImageMatchesIouCalculation(labelFile, preds, width, height)
  {
  }

  /** The image files each script evaluates. */
  predicate EvaluationSelects(file: string) {
    var f := Lower(file);
    EndsWith(f, ".png") || EndsWith(f, ".jpg") || EndsWith(f, ".jpeg")
  }

  predicate IouCalculationSelects(file: string) { EndsWith(file, ".png") }

  /** Every image `iou_calculation.py` evaluates is evaluated by
      `evaluation.py` as well. */
  lemma SelectionIncluded(file: string)
    ensures IouCalculationSelects(file) ==> EvaluationSelects(file)
  {
    if IouCalculationSelects(file) {
      var f := Lower(file);
      var n := |file|;
      assert f[n - 4..] == Lower(file[n - 4..]);
    }
  }

  /** The label file of an image: its name without the extension, plus
      `.txt`. */
  function LabelName(image: string): (r: string)
    ensures EndsWith(r, ".txt")
  {
    SplitExt(image).0 + ".txt"
  }

  lemma LabelNameOf(stem: string, ext: string)
    requires |ext| >= 1 && ext[0] == '.' && '.' !in ext[1..] && '/' !in ext
    requires '/' !in stem && exists k :: 0 <= k < |stem| && stem[k] != '.'
    ensures LabelName(stem + ext) == stem + ".txt"
  {
    SplitExtOf(stem, ext);
  }

  // ---------------------------------------------------------------------
  // Scores of a match

  /** IoU, GIoU and DIoU of a match; `None` stands for a non-finite value.
      CIoU is not modelled. */
  datatype Scores = Scores(iou: Option<real>, giou: Option<real>, diou: Option<real>)

  /** `complete_box_iou(pred, gt)` with the GIoU it evidently means to
      return: for well-formed boxes all three are finite, IoU is in
      [0, 1) and neither GIoU nor DIoU exceeds it. */
  function CompleteBoxIou(pred: Xyxy, gt: Xyxy): (r: Scores)
    ensures r.iou == BoxIou(pred, gt)
    ensures WellFormed(pred) && WellFormed(gt) ==>
              r.iou.Some? && r.giou.Some? && r.diou.Some?
              && 0.0 <= r.iou.value < 1.0 && r.giou.value <= r.iou.value && r.diou.value <= r.iou.value
  {
    Scores(BoxIou(pred, gt), GeneralizedIou(pred, gt), Diou(pred, gt))
  }

  /** `complete_box_iou` as written returns the name `giou`, which is bound
      nowhere in it: every call raises `NameError`. */
  function CompleteBoxIouAsWritten(pred: Xyxy, gt: Xyxy): (r: Option<Scores>)
    ensures r.None?
  {
    None
  }

  /** One scored match. */
  datatype Record = Record(cls: int, scores: Scores)

  function Scored(ms: seq<Match>): (r: seq<Record>)
    ensures |r| == |ms|
    ensures forall k :: 0 <= k < |ms| ==> r[k] == Record(ms[k].cls, CompleteBoxIou(ms[k].pred, ms[k].gt))
  {
    seq(|ms|, k requires 0 <= k < |ms| => Record(ms[k].cls, CompleteBoxIou(ms[k].pred, ms[k].gt)))
  }

  /** The records of matches scored by `scores`; `None` when a score
      raised. */
  function CollectRecords(ms: seq<Match>, scores: seq<Option<Scores>>): (r: Option<seq<Record>>)
    requires |scores| == |ms|
    ensures r.Some? <==> forall k :: 0 <= k < |ms| ==> scores[k].Some?
    ensures r.Some? ==> |r.value| == |ms|
  {
    if |ms| == 0 then Some([])
    else
      match (scores[0], CollectRecords(ms[1..], scores[1..]))
      case (Some(sc), Some(rest)) => Some([Record(ms[0].cls, sc)] + rest)
      case _ => None
  }

  /** The as-written scoring: the first match raises. */
  function ScoredAsWritten(ms: seq<Match>): (r: Option<seq<Record>>)
    ensures r.Some? <==> |ms| == 0
  {
    var scores := seq(|ms|, k requires 0 <= k < |ms| => CompleteBoxIouAsWritten(ms[k].pred, ms[k].gt));
    CollectRecords(ms, scores)
  }

  // ---------------------------------------------------------------------
  // Per-class averages

  predicate HasClass(rs: seq<Record>, c: int) {
    exists j :: 0 <= j < |rs| && rs[j].cls == c
  }

  /** The records of class `c`, in order. */
  function Of(rs: seq<Record>, c: int): (r: seq<Record>)
    ensures |r| <= |rs|
    ensures forall k :: 0 <= k < |r| ==> r[k].cls == c
    ensures |r| > 0 <==> HasClass(rs, c)
  {
    if |rs| == 0 then []
    else
      var rest := Of(rs[1..], c);
      assert HasClass(rs, c) <==> rs[0].cls == c || HasClass(rs[1..], c) by {
        if HasClass(rs[1..], c) {
          var j :| 0 <= j < |rs[1..]| && rs[1..][j].cls == c;
          assert rs[j + 1].cls == c;
        }
        if HasClass(rs, c) && rs[0].cls != c {
          var j :| 0 <= j < |rs| && rs[j].cls == c;
          assert rs[1..][j - 1].cls == c;
        }
      }
      if rs[0].cls == c then [rs[0]] + rest else rest
  }

  /** The records of every other class, in order. */
  function Others(rs: seq<Record>, c: int): (r: seq<Record>)
    ensures |r| <= |rs|
    ensures HasClass(rs, c) ==> |r| < |rs|
    ensures forall x :: HasClass(r, x) <==> HasClass(rs, x) && x != c
  {
    if |rs| == 0 then []
    else
      var rest := Others(rs[1..], c);
      assert forall x :: HasClass(rs, x) <==> rs[0].cls == x || HasClass(rs[1..], x) by {
        forall x ensures HasClass(rs, x) <==> rs[0].cls == x || HasClass(rs[1..], x) {
          if HasClass(rs[1..], x) {
            var j :| 0 <= j < |rs[1..]| && rs[1..][j].cls == x;
            assert rs[j + 1].cls == x;
          }
          if HasClass(rs, x) && rs[0].cls != x {
            var j :| 0 <= j < |rs| && rs[j].cls == x;
            assert rs[1..][j - 1].cls == x;
          }
        }
      }
      if rs[0].cls == c then rest
      else
        var r := [rs[0]] + rest;
        assert forall x :: HasClass(r, x) <==> rs[0].cls == x || HasClass(rest, x) by {
          forall x ensures HasClass(r, x) <==> rs[0].cls == x || HasClass(rest, x) {
            if rs[0].cls == x {
              assert r[0].cls == x;
            }
            if HasClass(rest, x) {
              var j :| 0 <= j < |rest| && rest[j].cls == x;
              assert r[j + 1].cls == x;
            }
            if HasClass(r, x) && rs[0].cls != x {
              var j :| 0 <= j < |r| && r[j].cls == x;
              assert rest[j - 1].cls == x;
            }
          }
        }
        r
  }

  /** Removing another class keeps the records of `x`. */
  lemma {:induction false} OfOthers(rs: seq<Record>, c: int, x: int)
    requires x != c
    ensures Of(Others(rs, c), x) == Of(rs, x)
    decreases |rs|
  {
    if |rs| > 0 {
      OfOthers(rs[1..], c, x);
      if rs[0].cls != c {
        assert ([rs[0]] + Others(rs[1..], c))[1..] == Others(rs[1..], c);
      }
    }
  }

  /** The sum of finite values; `None` when one is NaN. */
  function Sum(xs: seq<Option<real>>): (r: Option<real>)
    ensures r.Some? <==> forall k :: 0 <= k < |xs| ==> xs[k].Some?
  {
    if |xs| == 0 then Some(0.0)
    else
      match (xs[0], Sum(xs[1..]))
      case (Some(v), Some(t)) => Some(v + t)
      case _ => None
  }

  /** `sum(xs) / len(xs)`; `None` for NaN and for an empty list. */
  function Average(xs: seq<Option<real>>): (r: Option<real>)
    ensures r.Some? <==> |xs| > 0 && forall k :: 0 <= k < |xs| ==> xs[k].Some?
    ensures r.Some? ==> r.value * |xs| as real == Sum(xs).value
  {
    if |xs| == 0 then None
    else
      match Sum(xs)
      case None => None
      case Some(t) => Some(t / |xs| as real)
  }

  predicate AllWithin(xs: seq<Option<real>>, lo: real, hi: real) {
    forall k :: 0 <= k < |xs| ==> xs[k].Some? && lo <= xs[k].value <= hi
  }

  lemma {:induction false} SumBounds(xs: seq<Option<real>>, lo: real, hi: real)
    requires AllWithin(xs, lo, hi)
    ensures Sum(xs).Some? && lo * |xs| as real <= Sum(xs).value <= hi * |xs| as real
    decreases |xs|
  {
    if |xs| > 0 {
      assert AllWithin(xs[1..], lo, hi) by {
        forall k | 0 <= k < |xs[1..]| ensures xs[1..][k].Some? && lo <= xs[1..][k].value <= hi {
          assert xs[1..][k] == xs[k + 1];
        }
      }
      SumBounds(xs[1..], lo, hi);
      assert xs[0].Some? && lo <= xs[0].value <= hi;
      assert Sum(xs).value == xs[0].value + Sum(xs[1..]).value;
      assert lo * |xs| as real == lo + lo * |xs[1..]| as real;
      assert hi * |xs| as real == hi + hi * |xs[1..]| as real;
    }
  }

  /** The average of values in `[lo, hi]` lies in `[lo, hi]`. */
  lemma AverageBounds(xs: seq<Option<real>>, lo: real, hi: real)
    requires |xs| > 0 && AllWithin(xs, lo, hi)
    ensures Average(xs).Some? && lo <= Average(xs).value <= hi
  {
    SumBounds(xs, lo, hi);
    var n := |xs| as real;
    var a := Average(xs).value;
    assert a * n == Sum(xs).value;
    ScaleBack(a, n, lo);
    ScaleBack(-a, n, -hi);
  }

  lemma ScaleBack(a: real, n: real, lo: real)
    requires n > 0.0 && lo * n <= a * n
    ensures lo <= a
  {
    assert (a - lo) * n >= 0.0;
  }

  /** One line of the table: a class, its three averages and its number
      of matches. */
  datatype SummaryRow = SummaryRow(cls: int, avgIou: Option<real>, avgGiou: Option<real>, avgDiou: Option<real>, count: nat)

  function Ious(rs: seq<Record>): seq<Option<real>> { seq(|rs|, k requires 0 <= k < |rs| => rs[k].scores.iou) }
  function Gious(rs: seq<Record>): seq<Option<real>> { seq(|rs|, k requires 0 <= k < |rs| => rs[k].scores.giou) }
  function Dious(rs: seq<Record>): seq<Option<real>> { seq(|rs|, k requires 0 <= k < |rs| => rs[k].scores.diou) }

  /** The line of class `c`: the averages over its records. */
  function RowFor(rs: seq<Record>, c: int): SummaryRow {
    var m := Of(rs, c);
    SummaryRow(c, Average(Ious(m)), Average(Gious(m)), Average(Dious(m)), |m|)
  }

  predicate Listed(rows: seq<SummaryRow>, c: int) {
    exists k :: 0 <= k < |rows| && rows[k].cls == c
  }

  function ClassIds(rs: seq<Record>): (r: seq<int>)
    ensures |r| == |rs| && forall k :: 0 <= k < |rs| ==> r[k] == rs[k].cls
  {
    seq(|rs|, k requires 0 <= k < |rs| => rs[k].cls)
  }

  /** The report loop over `sorted(per_class_metrics.items())`: the
      smallest class id first, then the table of the other classes. */
  function Summary(rs: seq<Record>): (r: seq<SummaryRow>)
    ensures |r| == 0 <==> |rs| == 0
    decreases |rs|
  {
    if |rs| == 0 then []
    else
      var c := IntSeqMin(ClassIds(rs));
      assert HasClass(rs, c);
      [RowFor(rs, c)] + Summary(Others(rs, c))
  }

  /** The table lists exactly the classes that have records. */
  lemma {:induction false} SummaryListed(rs: seq<Record>)
    ensures forall c :: Listed(Summary(rs), c) <==> HasClass(rs, c)
    decreases |rs|
  {
    if |rs| > 0 {
      var c := IntSeqMin(ClassIds(rs));
      assert HasClass(rs, c);
      var rest := Others(rs, c);
      SummaryListed(rest);
      var tail := Summary(rest);
      var r := Summary(rs);
      assert r == [RowFor(rs, c)] + tail;
      forall x ensures Listed(r, x) <==> HasClass(rs, x) {
        if x == c { assert r[0].cls == x; }
        if Listed(tail, x) {
          var k :| 0 <= k < |tail| && tail[k].cls == x;
          assert r[k + 1].cls == x;
        }
        if Listed(r, x) && x != c {
          var k :| 0 <= k < |r| && r[k].cls == x;
          assert tail[k - 1].cls == x;
        }
      }
    }
  }

  /** Each line holds the averages over exactly its class's records, and
      the class has at least one. */
  lemma {:induction false} SummaryRows(rs: seq<Record>)
    ensures forall k :: 0 <= k < |Summary(rs)| ==>
              Summary(rs)[k] == RowFor(rs, Summary(rs)[k].cls) && Summary(rs)[k].count > 0
    decreases |rs|
  {
    if |rs| > 0 {
      var c := IntSeqMin(ClassIds(rs));
      assert HasClass(rs, c);
      var rest := Others(rs, c);
      SummaryRows(rest);
      SummaryListed(rest);
      var tail := Summary(rest);
      assert Summary(rs) == [RowFor(rs, c)] + tail;
      forall k | 0 <= k < |tail| ensures tail[k] == RowFor(rs, tail[k].cls) {
        assert Listed(tail, tail[k].cls);
        OfOthers(rs, c, tail[k].cls);
        assert RowFor(rest, tail[k].cls) == RowFor(rs, tail[k].cls);
      }
      var r := Summary(rs);
      forall k | 0 <= k < |r| ensures r[k] == RowFor(rs, r[k].cls) && r[k].count > 0 {
        if k > 0 { assert r[k] == tail[k - 1]; }
      }
    }
  }

  /** The lines come in strictly ascending class order. */
  lemma {:induction false} SummarySorted(rs: seq<Record>)
    ensures forall i, j :: 0 <= i < j < |Summary(rs)| ==> Summary(rs)[i].cls < Summary(rs)[j].cls
    decreases |rs|
  {
    if |rs| > 0 {
      var ids := ClassIds(rs);
      var c := IntSeqMin(ids);
      assert HasClass(rs, c);
      var rest := Others(rs, c);
      SummarySorted(rest);
      SummaryListed(rest);
      var tail := Summary(rest);
      assert Summary(rs) == [RowFor(rs, c)] + tail;
      forall k | 0 <= k < |tail| ensures tail[k].cls > c {
        assert Listed(tail, tail[k].cls);
        var j :| 0 <= j < |rs| && rs[j].cls == tail[k].cls;
        assert ids[j] == tail[k].cls;
      }
      var r := Summary(rs);
      forall i, j | 0 <= i < j < |r| ensures r[i].cls < r[j].cls {
        assert r[j] == tail[j - 1];
        if i > 0 { assert r[i] == tail[i - 1]; }
      }
    }
  }

  /** When every recorded IoU is in [0, 1], so is each class average. */
  lemma AverageIouInUnit(rs: seq<Record>, c: int)
    requires forall k :: 0 <= k < |rs| ==> rs[k].scores.iou.Some? && 0.0 <= rs[k].scores.iou.value <= 1.0
    requires HasClass(rs, c)
    ensures RowFor(rs, c).avgIou.Some? && 0.0 <= RowFor(rs, c).avgIou.value <= 1.0
  {
    var m := Of(rs, c);
    OfSubset(rs, c);
    AverageBounds(Ious(m), 0.0, 1.0);
  }

  /** Each record of a class is one of the records. */
  lemma {:induction false} OfSubset(rs: seq<Record>, c: int)
    ensures forall k :: 0 <= k < |Of(rs, c)| ==> Of(rs, c)[k] in rs
    decreases |rs|
  {
    if |rs| > 0 {
      OfSubset(rs[1..], c);
      forall k | 0 <= k < |Of(rs[1..], c)| ensures Of(rs[1..], c)[k] in rs {
        assert Of(rs[1..], c)[k] in rs[1..];
      }
      if rs[0].cls == c {
        forall k | 0 <= k < |Of(rs, c)| ensures Of(rs, c)[k] in rs {
          if k > 0 { assert Of(rs, c)[k] == Of(rs[1..], c)[k - 1]; }
        }
      }
    }
  }

  // ---------------------------------------------------------------------
  // The whole test set

  /** What the evaluation sees of one image: its label file (`None` when
      absent), the detector's predictions and the image size. */
  datatype ImageInput = ImageInput(labelFile: Option<string>, preds: seq<Pred>, width: int, height: int)

  function MatchesOf(im: ImageInput): Option<seq<Match>> {
    ImageMatches(im.labelFile, im.preds, im.width, im.height)
  }

  /** The matches of all images, in image order; `None` when one image
      raises. */
  function AllMatches(images: seq<ImageInput>): (r: Option<seq<Match>>)
    ensures r.Some? <==> forall k :: 0 <= k < |images| ==> MatchesOf(images[k]).Some?
    ensures r == Some([]) <==> forall k :: 0 <= k < |images| ==> MatchesOf(images[k]) == Some([])
  {
    if |images| == 0 then Some([])
    else
      assert forall k :: 0 < k < |images| ==> images[1..][k - 1] == images[k];
      match (MatchesOf(images[0]), AllMatches(images[1..]))
      case (Some(m), Some(ms)) =>
        assert |m + ms| == |m| + |ms|;
        Some(m + ms)
      case _ => None
  }

  /** The IoU part of `evaluation.py`, with `complete_box_iou` returning
      the GIoU it computes: the per-class table, or `None` when it raises. */
  function Evaluate(images: seq<ImageInput>): (r: Option<seq<SummaryRow>>)
    ensures r.Some? <==> AllMatches(images).Some?
  {
    match AllMatches(images)
    case None => None
    case Some(ms) => Some(Summary(Scored(ms)))
  }

  /** The same loop with `complete_box_iou` as written. */
  function EvaluateAsWritten(images: seq<ImageInput>): (r: Option<seq<SummaryRow>>)
  {
    match AllMatches(images)
    case None => None
    case Some(ms) =>
      match ScoredAsWritten(ms)
      case None => None
      case Some(rs) => Some(Summary(rs))
  }

  /** As written, the evaluation gets through only a test set in which no
      ground-truth box finds a prediction of its class; whenever the
      intended table has a line, it raises instead. */
  lemma EvaluationAsWrittenRaises(images: seq<ImageInput>)
    ensures EvaluateAsWritten(images).Some? <==> AllMatches(images) == Some([])
    ensures Evaluate(images).Some? && |Evaluate(images).value| > 0 ==> EvaluateAsWritten(images).None?
  {
    if AllMatches(images).Some? {
      var ms := AllMatches(images).value;
      if |Evaluate(images).value| > 0 {
        assert |Scored(ms)| > 0;
      }
    }
  }

  // ---------------------------------------------------------------------
  // Greedy matching (`visualize_specific_errors.py`)

  /** A match needs an IoU strictly above this. */
  const IouThreshold: real := 0.45

  /** A ground-truth box in pixels and its class. */
  datatype GtBox = GtBox(box: Xyxy, cls: int)

  /** The label lines as pixel boxes; `None` when a line raises (blank,
      not numeric, or not exactly four numbers after the class). */
  function GtLines(lines: seq<string>, width: int, height: int): (r: Option<seq<GtBox>>)
    ensures r.Some? <==> forall k :: 0 <= k < |lines| ==> ParseRow(lines[k]).Some? && |ParseRow(lines[k]).value.values| == 4
    ensures r.Some? ==> |r.value| == |lines|
    ensures r.Some? ==> forall k :: 0 <= k < |lines| ==>
              r.value[k] == GtBox(RowToXyxy(ParseRow(lines[k]).value, width, height).value, ParseRow(lines[k]).value.cls)
  {
    if |lines| == 0 then Some([])
    else
      var rest := GtLines(lines[1..], width, height);
      match ParseRow(lines[0])
      case None => None
      case Some(row) =>
        match (RowToXyxy(row, width, height), rest)
        case (Some(b), Some(gs)) => Some([GtBox(b, row.cls)] + gs)
        case _ => None
  }

  /** The ground truth of one image; the label file must exist (`None`
      raises `FileNotFoundError`). */
  function GtBoxes(labelFile: Option<string>, width: int, height: int): (r: Option<seq<GtBox>>)
    ensures labelFile.None? ==> r.None?
  {
    match labelFile
    case None => None
    case Some(text) => GtLines(FileLines(text), width, height)
  }

  /** What became of a ground-truth box: no prediction, or the prediction
      it took and that prediction's class. */
  datatype Status = Missed | Correct(pred: nat) | Misclassified(pred: nat, predCls: int)

  /** `calculate_iou(gt, p)` for every prediction not yet taken. */
  function Available(gt: GtBox, preds: seq<Pred>, used: set<nat>): (r: seq<Option<real>>)
    ensures |r| == |preds|
    ensures forall p :: 0 <= p < |preds| ==> r[p] == (if p in used then None else Some(CalculateIou(gt.box, preds[p].box)))
  {
    seq(|preds|, p requires 0 <= p < |preds| => if p in used then None else Some(CalculateIou(gt.box, preds[p].box)))
  }

  /** `max(matches, key=iou)` over the untaken predictions whose IoU is
      above the threshold: the first one with the largest IoU. */
  function Pick(gt: GtBox, preds: seq<Pred>, used: set<nat>): (r: Option<nat>)
    ensures r.None? <==> forall p :: 0 <= p < |preds| && p !in used ==> CalculateIou(gt.box, preds[p].box) <= IouThreshold
    ensures r.Some? ==> r.value < |preds| && r.value !in used && CalculateIou(gt.box, preds[r.value].box) > IouThreshold
    ensures r.Some? ==> forall p :: 0 <= p < |preds| && p !in used ==>
                          CalculateIou(gt.box, preds[p].box) <= CalculateIou(gt.box, preds[r.value].box)
    ensures r.Some? ==> forall p :: 0 <= p < r.value && p !in used ==>
                          CalculateIou(gt.box, preds[p].box) < CalculateIou(gt.box, preds[r.value].box)
  {
    var scores := Available(gt, preds, used);
    var b := BestSoFar(scores, IouThreshold);
    assert b.1.None? ==> forall p :: 0 <= p < |preds| && p !in used ==> !Beats(scores[p], IouThreshold);
    b.1
  }

  predicate Taking(s: Status) { s.Correct? || s.Misclassified? }

  /** The matching loop: each ground-truth box in turn takes the best
      prediction still free; `used` are the predictions already taken. */
  function Greedy(gts: seq<GtBox>, preds: seq<Pred>, used: set<nat>): (r: seq<Status>)
    ensures |r| == |gts|
    ensures forall i :: 0 <= i < |r| && Taking(r[i]) ==>
              r[i].pred < |preds| && r[i].pred !in used
              && CalculateIou(gts[i].box, preds[r[i].pred].box) > IouThreshold
              && (r[i].Correct? <==> gts[i].cls == preds[r[i].pred].cls)
              && (r[i].Misclassified? ==> r[i].predCls == preds[r[i].pred].cls)
    ensures forall i, j :: 0 <= i < j < |r| && Taking(r[i]) && Taking(r[j]) ==> r[i].pred != r[j].pred
    decreases |gts|
  {
    if |gts| == 0 then []
    else
      match Pick(gts[0], preds, used)
      case None => [Missed] + Greedy(gts[1..], preds, used)
      case Some(p) =>
        var s := if gts[0].cls == preds[p].cls then Correct(p) else Misclassified(p, preds[p].cls);
        [s] + Greedy(gts[1..], preds, used + {p})
  }

  /** The predictions the statuses took. */
  function Taken(ss: seq<Status>): set<nat> {
    if |ss| == 0 then {}
    else (if Taking(ss[0]) then {ss[0].pred} else {}) + Taken(ss[1..])
  }

  /** A box is left `missed` only when every prediction still free at its
      turn overlaps it by at most the threshold. */
  lemma {:induction false} GreedyMissed(gts: seq<GtBox>, preds: seq<Pred>, used: set<nat>, i: nat)
    requires i < |gts| && Greedy(gts, preds, used)[i].Missed?
    ensures forall p :: 0 <= p < |preds| && p !in used && p !in Taken(Greedy(gts, preds, used)[..i]) ==>
              CalculateIou(gts[i].box, preds[p].box) <= IouThreshold
    decreases i
  {
    var r := Greedy(gts, preds, used);
    var used' := GreedyStep(gts, preds, used);
    if i == 0 {
      assert r[..0] == [];
    } else {
      var rest := Greedy(gts[1..], preds, used');
      GreedyMissed(gts[1..], preds, used', i - 1);
      TakenCons(r, rest, i);
      assert gts[1..][i - 1] == gts[i];
    }
  }

  /** One turn of the loop: the first box is `missed` exactly when no
      free prediction passes the threshold, and the rest continue with
      its pick added to `used`. */
  lemma GreedyStep(gts: seq<GtBox>, preds: seq<Pred>, used: set<nat>) returns (used': set<nat>)
    requires |gts| > 0
    ensures var pick := Pick(gts[0], preds, used);
            used' == (if pick.Some? then used + {pick.value} else used)
            && Greedy(gts, preds, used) == [Greedy(gts, preds, used)[0]] + Greedy(gts[1..], preds, used')
            && (Greedy(gts, preds, used)[0].Missed? <==> pick.None?)
  {
    var pick := Pick(gts[0], preds, used);
    used' := if pick.Some? then used + {pick.value} else used;
  }

  lemma TakenCons(r: seq<Status>, rest: seq<Status>, i: nat)
    requires 0 < i <= |r| && r == [r[0]] + rest
    ensures Taken(r[..i]) == (if Taking(r[0]) then {r[0].pred} else {}) + Taken(rest[..i - 1])
  {
    assert r[..i][1..] == rest[..i - 1];
  }

  // ---------------------------------------------------------------------
  // Reported errors

  /** The names `f'V{i}'` for `i` in `range(2, 7)`. */
  const CheckedNames: seq<string> := ["V2", "V3", "V4", "V5", "V6"]

  /** `{v: k for k, v in class_names.items()}.get(n)`: the last id with
      that name, since later keys overwrite earlier ones. */
  function NameToId(names: seq<string>, n: string): (r: Option<nat>)
    ensures r.None? <==> n !in names
    ensures r.Some? ==> r.value < |names| && names[r.value] == n
    ensures r.Some? ==> forall k :: r.value < k < |names| ==> names[k] != n
  {
    if |names| == 0 then None
    else if names[|names| - 1] == n then Some(|names| - 1)
    else
      var r := NameToId(names[..|names| - 1], n);
      assert names == names[..|names| - 1] + [names[|names| - 1]];
      r
  }

  /** The class is one of V2 .. V6 (`gt['class_id'] in v_ids_to_check`). */
  predicate Checked(names: seq<string>, cls: int) {
    exists i :: 0 <= i < |CheckedNames| && NameToId(names, CheckedNames[i]).Some? && NameToId(names, CheckedNames[i]).value == cls
  }

  /** The ground truth and the prediction are V4 and V5 in either order. */
  predicate SwappedV4V5(names: seq<string>, gtCls: int, predCls: int) {
    var v4 := NameToId(names, "V4");
    var v5 := NameToId(names, "V5");
    v4.Some? && v5.Some?
    && ((gtCls == v5.value && predCls == v4.value) || (gtCls == v4.value && predCls == v5.value))
  }

  /** One reported error. */
  datatype Mistake = MissedLead(cls: int) | Swapped(gtCls: int, predCls: int)

  /** The error a box contributes, if any: a missed V2 .. V6 box, or a V4
      taken for V5 or the reverse. */
  function MistakeOf(gt: GtBox, s: Status, names: seq<string>): (r: Option<Mistake>)
    ensures r.Some? ==> r.value.MissedLead? || r.value.Swapped?
    ensures r.Some? && r.value.MissedLead? <==> s.Missed? && Checked(names, gt.cls)
    ensures r.Some? && r.value.Swapped? <==> s.Misclassified? && SwappedV4V5(names, gt.cls, s.predCls)
  {
    if s.Missed? && Checked(names, gt.cls) then Some(MissedLead(gt.cls))
    else if s.Misclassified? && SwappedV4V5(names, gt.cls, s.predCls) then Some(Swapped(gt.cls, s.predCls))
    else None
  }

  /** `errors_in_file`: the errors of the boxes, in box order. */
  function Mistakes(gts: seq<GtBox>, ss: seq<Status>, names: seq<string>): (r: seq<Mistake>)
    requires |ss| == |gts|
    ensures |r| <= |gts|
    ensures |r| == 0 <==> forall i :: 0 <= i < |gts| ==> MistakeOf(gts[i], ss[i], names).None?
  {
    if |gts| == 0 then []
    else
      var rest := Mistakes(gts[1..], ss[1..], names);
      assert forall i :: 1 <= i < |gts| ==> gts[1..][i - 1] == gts[i] && ss[1..][i - 1] == ss[i];
      match MistakeOf(gts[0], ss[0], names)
      case Some(e) => [e] + rest
      case None => rest
  }

  /** One image: its errors, or `None` when reading its labels raises. */
  function AnalyzeImage(labelFile: Option<string>, width: int, height: int, preds: seq<Pred>, names: seq<string>)
    : (r: Option<seq<Mistake>>)
    ensures labelFile.None? ==> r.None?
  {
    match GtBoxes(labelFile, width, height)
    case None => None
    case Some(gts) => Some(Mistakes(gts, Greedy(gts, preds, {}), names))
  }

  /** The detector's class names in id order. */
  const StandardNames: seq<string> :=
    ["I", "II", "III", "aVR", "aVL", "aVF", "V1", "V2", "V3", "V4", "V5", "V6", "L"]

  /** The class names agree with the ids the JSON-to-YOLO converter
      writes. */
  lemma StandardNamesMatchClassMap()
    ensures forall k :: 0 <= k < |StandardNames| ==> StandardNames[k] in ClassMap && ClassMap[StandardNames[k]] == k
  {
  }

  /** With the standard names, the ids of V2 .. V6 are 7 .. 11. */
  lemma StandardIds()
    ensures forall k :: 7 <= k <= 11 ==> NameToId(StandardNames, CheckedNames[k - 7]) == Some(k)
  {
    forall k | 7 <= k <= 11 ensures NameToId(StandardNames, CheckedNames[k - 7]) == Some(k) {
      NameToIdAt(StandardNames, CheckedNames[k - 7], k);
    }
  }

  /** With the standard names the checked classes are the ids 7 .. 11. */
  lemma StandardChecked(cls: int)
    ensures Checked(StandardNames, cls) <==> 7 <= cls <= 11
  {
    StandardIds();
    if 7 <= cls <= 11 {
      assert NameToId(StandardNames, CheckedNames[cls - 7]) == Some(cls as nat);
    }
  }

  /** With the standard names the swapped pair is 9 and 10. */
  lemma StandardSwap(cls: int, predCls: int)
    ensures SwappedV4V5(StandardNames, cls, predCls) <==> (cls == 9 && predCls == 10) || (cls == 10 && predCls == 9)
  {
    StandardIds();
    assert CheckedNames[2] == "V4" && CheckedNames[3] == "V5";
  }

  /** The id of a name is its last position. */
  lemma NameToIdAt(names: seq<string>, n: string, k: nat)
    requires k < |names| && names[k] == n
    requires forall j :: k < j < |names| ==> names[j] != n
    ensures NameToId(names, n) == Some(k)
  {
  }
}
