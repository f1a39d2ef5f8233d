/** Overlap measures between two `[x1, y1, x2, y2]` boxes:
    `box_iou`, `generalized_box_iou` and the DIoU part of
    `complete_box_iou` (`code-yolo/iou_metrics.py`), and `calculate_iou`
    (`codes/code-yolo/visualize_specific_errors.py`). */
module Iou {
  import opened Base
  import opened Boxes

  /** The epsilon the torch metrics add to their denominators. */
  const Eps: real := 0.000001

  predicate WellFormed(b: Xyxy) { b.x1 <= b.x2 && b.y1 <= b.y2 }

  function Area(b: Xyxy): real { (b.x2 - b.x1) * (b.y2 - b.y1) }

  lemma AreaNonNegative(b: Xyxy)
    requires WellFormed(b)
    ensures Area(b) >= 0.0
  {
  }

  /** Width and height of the intersection, each clamped at 0. */
  function InterWidth(a: Xyxy, b: Xyxy): (w: real)
    ensures w >= 0.0
    ensures WellFormed(a) ==> w <= a.x2 - a.x1
    ensures WellFormed(b) ==> w <= b.x2 - b.x1
  {
    Max(Min(a.x2, b.x2) - Max(a.x1, b.x1), 0.0)
  }

  function InterHeight(a: Xyxy, b: Xyxy): (h: real)
    ensures h >= 0.0
    ensures WellFormed(a) ==> h <= a.y2 - a.y1
    ensures WellFormed(b) ==> h <= b.y2 - b.y1
  {
    Max(Min(a.y2, b.y2) - Max(a.y1, b.y1), 0.0)
  }

  lemma MulMonotone(a: real, b: real, c: real)
    requires 0.0 <= a <= b && c >= 0.0
    ensures 0.0 <= a * c <= b * c
  {
  }

  /** The intersection area: never negative and at most either box's
      area. */
  function InterArea(a: Xyxy, b: Xyxy): (r: real)
    ensures r >= 0.0
    ensures WellFormed(a) ==> r <= Area(a)
    ensures WellFormed(b) ==> r <= Area(b)
  {
    var w := InterWidth(a, b);
    var h := InterHeight(a, b);
    MulMonotone(0.0, w, h);
    InterBelowArea(w, h, a.x2 - a.x1, a.y2 - a.y1);
    InterBelowArea(w, h, b.x2 - b.x1, b.y2 - b.y1);
    w * h
  }

  lemma InterBelowArea(w: real, h: real, bw: real, bh: real)
    requires w >= 0.0 && h >= 0.0
    ensures w <= bw && h <= bh ==> w * h <= bw * bh
  {
    if w <= bw && h <= bh {
      assert w * h <= bw * h;
      assert bw * h <= bw * bh;
    }
  }

  lemma InterSymmetric(a: Xyxy, b: Xyxy)
    ensures InterArea(a, b) == InterArea(b, a)
  {
    assert InterWidth(a, b) == InterWidth(b, a);
    assert InterHeight(a, b) == InterHeight(b, a);
  }

  function UnionArea(a: Xyxy, b: Xyxy): real {
    Area(a) + Area(b) - InterArea(a, b)
  }

  /** With ordered edges the union is at least the intersection. */
  lemma UnionCoversInter(a: Xyxy, b: Xyxy)
    ensures WellFormed(a) && WellFormed(b) ==> UnionArea(a, b) >= InterArea(a, b) >= 0.0
  {
  }

  /** `box_iou`; `None` stands for the non-finite value torch produces
      when `union + 1e-6` is zero, which boxes with ordered edges never
      reach. */
  function BoxIou(a: Xyxy, b: Xyxy): (r: Option<real>)
    ensures WellFormed(a) && WellFormed(b) ==> r.Some? && 0.0 <= r.value < 1.0
    ensures r.Some? ==> IsQuotient(r.value, InterArea(a, b), UnionArea(a, b) + Eps)
  {
    var u := UnionArea(a, b);
    var i := InterArea(a, b);
    UnionCoversInter(a, b);
    if u + Eps == 0.0 then None else Some(Quotient(i, u + Eps))
  }

  /** `q` is the quotient `n / d`. */
  predicate IsQuotient(q: real, n: real, d: real) {
    q * d == n
  }

  /** `n / d`, which lies in [0, 1) when `0 <= n < d`. */
  function Quotient(n: real, d: real): (q: real)
    requires d != 0.0
    ensures IsQuotient(q, n, d)
    ensures 0.0 <= n < d ==> 0.0 <= q < 1.0
  {
    if 0.0 <= n < d then RatioBounds(n, d); n / d else n / d
  }

  /** `box_iou` does not depend on the order of its arguments. */
  lemma BoxIouSymmetric(a: Xyxy, b: Xyxy)
    ensures BoxIou(a, b) == BoxIou(b, a)
  {
    InterSymmetric(a, b);
  }

  /** Boxes that do not overlap have IoU 0. */
  lemma BoxIouDisjoint(a: Xyxy, b: Xyxy)
    requires a.x2 <= b.x1 || b.x2 <= a.x1 || a.y2 <= b.y1 || b.y2 <= a.y1
    requires WellFormed(a) && WellFormed(b)
    ensures BoxIou(a, b) == Some(0.0)
  {
    assert InterWidth(a, b) == 0.0 || InterHeight(a, b) == 0.0;
    assert InterArea(a, b) == 0.0;
    UnionCoversInter(a, b);
    assert 0.0 / (UnionArea(a, b) + Eps) == 0.0;
  }

  // ---------------------------------------------------------------------
  // The smallest enclosing box

  function Hull(a: Xyxy, b: Xyxy): Xyxy {
    Xyxy(Min(a.x1, b.x1), Min(a.y1, b.y1), Max(a.x2, b.x2), Max(a.y2, b.y2))
  }

  /** Along one axis the union of two intervals is no longer than their
      hull. */
  lemma HullCoversAxis(a1: real, a2: real, b1: real, b2: real)
    requires a1 <= a2 && b1 <= b2
    ensures Max(a2, b2) - Min(a1, b1) >= (a2 - a1) + (b2 - b1) - Max(Min(a2, b2) - Max(a1, b1), 0.0)
  {
  }

  /** Sides `w1 x h1` and `w2 x h2` of two boxes, `iw x ih` of their
      intersection and `cw x ch` of an enclosing box: the intersection is
      no wider than either box, and each enclosing side covers the union
      along its axis. */
  predicate SidesFit(w1: real, h1: real, w2: real, h2: real, iw: real, ih: real, cw: real, ch: real) {
    0.0 <= iw <= w1 && iw <= w2 && 0.0 <= ih <= h1 && ih <= h2
    && cw >= w1 + w2 - iw && ch >= h1 + h2 - ih
  }

  lemma UnionBelowHull(w1: real, h1: real, w2: real, h2: real, iw: real, ih: real, cw: real, ch: real)
    requires SidesFit(w1, h1, w2, h2, iw, ih, cw, ch)
    ensures cw * ch >= w1 * h1 + w2 * h2 - iw * ih
  {
    var uw, uh := w1 + w2 - iw, h1 + h2 - ih;
    assert uw >= 0.0 && uh >= 0.0;
    assert cw * ch >= uw * ch;
    assert uw * ch >= uw * uh;
    assert uw * uh == w1 * h1 + w2 * h2 - iw * ih + (w1 - iw) * (h2 - ih) + (w2 - iw) * (h1 - ih);
    assert (w1 - iw) * (h2 - ih) >= 0.0;
    assert (w2 - iw) * (h1 - ih) >= 0.0;
  }

  /** The enclosing box is at least as large as the union of the boxes. */
  lemma HullCoversUnion(a: Xyxy, b: Xyxy)
    ensures WellFormed(a) && WellFormed(b) ==> Area(Hull(a, b)) >= UnionArea(a, b) >= 0.0
  {
    if WellFormed(a) && WellFormed(b) {
      HullAreaBound(a, b);
      UnionCoversInter(a, b);
    }
  }

  lemma HullAreaBound(a: Xyxy, b: Xyxy)
    requires WellFormed(a) && WellFormed(b)
    ensures Area(Hull(a, b)) >= Area(a) + Area(b) - InterArea(a, b)
  {
    HullSides(a, b);
    AreasBelowEnclosing(a, b, Hull(a, b), InterWidth(a, b), InterHeight(a, b));
  }

  /** A box whose sides cover the union of two boxes along each axis has
      at least their union's area. */
  lemma AreasBelowEnclosing(a: Xyxy, b: Xyxy, c: Xyxy, iw: real, ih: real)
    requires SidesFit(a.x2 - a.x1, a.y2 - a.y1, b.x2 - b.x1, b.y2 - b.y1, iw, ih, c.x2 - c.x1, c.y2 - c.y1)
    ensures Area(c) >= Area(a) + Area(b) - iw * ih
  {
    UnionBelowHull(a.x2 - a.x1, a.y2 - a.y1, b.x2 - b.x1, b.y2 - b.y1, iw, ih, c.x2 - c.x1, c.y2 - c.y1);
  }

  /** The sides of two well-formed boxes, of their intersection and of
      their enclosing box fit together as `SidesFit` describes. */
  lemma HullSides(a: Xyxy, b: Xyxy)
    requires WellFormed(a) && WellFormed(b)
    ensures SidesFit(a.x2 - a.x1, a.y2 - a.y1, b.x2 - b.x1, b.y2 - b.y1, InterWidth(a, b), InterHeight(a, b),
                     Hull(a, b).x2 - Hull(a, b).x1, Hull(a, b).y2 - Hull(a, b).y1)
  {
    HullCoversAxis(a.x1, a.x2, b.x1, b.x2);
    HullCoversAxis(a.y1, a.y2, b.y1, b.y2);
  }

  // ---------------------------------------------------------------------
  // GIoU

  /** `generalized_box_iou` as written: the intersection is recomputed as
      `iou * (a1 + a2 - iou * (a1 + a2))` (line 43), which is not the
      intersection area. */
  function GeneralizedIouAsWritten(a: Xyxy, b: Xyxy): (r: Option<real>)
    ensures WellFormed(a) && WellFormed(b) ==> r.Some?
  {
    HullCoversUnion(a, b);
    match BoxIou(a, b)
    case None => None
    case Some(iou) =>
      var c := Area(Hull(a, b));
      if c + Eps == 0.0 then None
      else Some(GiouFormulaAsWritten(iou, Area(a) + Area(b), c))
  }

  function GiouFormulaAsWritten(iou: real, areas: real, c: real): real
    requires c + Eps != 0.0
  {
    var inter := iou * (areas - iou * areas);
    var union := areas - inter;
    iou - (c - union) / (c + Eps)
  }

  /** `box_iou` as a plain quotient whenever the denominator is not 0. */
  lemma BoxIouValue(a: Xyxy, b: Xyxy)
    requires UnionArea(a, b) + Eps != 0.0
    ensures BoxIou(a, b) == Some(InterArea(a, b) / (UnionArea(a, b) + Eps))
  {
  }

  lemma UnitRatio()
    ensures 1.0 / (1.0 + Eps) == 1000000.0 / 1000001.0
  {
  }

  /** A box of area 1 paired with itself: IoU `1 / (1 + 1e-6)`, the two
      areas sum to 2 and the enclosing box is the box itself. */
  lemma UnitAreaSelf(a: Xyxy)
    requires WellFormed(a) && Area(a) == 1.0
    ensures BoxIou(a, a) == Some(1000000.0 / 1000001.0)
    ensures Area(a) + Area(a) == 2.0 && Area(Hull(a, a)) == 1.0
  {
    assert Hull(a, a) == a;
    assert InterArea(a, a) == Area(a);
    BoxIouValue(a, a);
    UnitRatio();
  }

  /** Any box of area 1 (the unit box, say) paired with itself gets a
      GIoU near 2, outside GIoU's range [-1, 1]; the true value is the
      IoU, just below 1. */
  lemma GeneralizedIouIdentical(a: Xyxy)
    requires WellFormed(a) && Area(a) == 1.0
    ensures GeneralizedIouAsWritten(a, a).Some?
    ensures GeneralizedIouAsWritten(a, a).value > 1.9
  {
    UnitAreaSelf(a);
    GeneralizedIouAsWrittenAt(a, a, 1000000.0 / 1000001.0, 2.0, 1.0);
    UnitFormula(1000000.0 / 1000001.0, 2.0, 1.0);
  }

  /** `generalized_box_iou` as written, once the IoU, the two areas and
      the hull's area are known. */
  lemma GeneralizedIouAsWrittenAt(a: Xyxy, b: Xyxy, iou: real, areas: real, c: real)
    requires BoxIou(a, b) == Some(iou) && Area(a) + Area(b) == areas && Area(Hull(a, b)) == c
    requires c + Eps != 0.0
    ensures GeneralizedIouAsWritten(a, b) == Some(GiouFormulaAsWritten(iou, areas, c))
  {
  }

  lemma UnitFormula(iou: real, areas: real, c: real)
    requires iou == 1000000.0 / 1000001.0 && areas == 2.0 && c == 1.0
    ensures GiouFormulaAsWritten(iou, areas, c) > 1.9
  {
    var inter := iou * (areas - iou * areas);
    assert 0.0 <= inter <= 0.01;
    assert (c - (areas - inter)) / (c + Eps) < -0.9;
  }

  /** GIoU with the true intersection: the IoU minus the share of the
      enclosing box the union leaves empty. */
  function GeneralizedIou(a: Xyxy, b: Xyxy): (r: Option<real>)
    ensures WellFormed(a) && WellFormed(b) ==>
              r.Some? && BoxIou(a, b).Some? && BoxIou(a, b).value - 1.0 < r.value <= BoxIou(a, b).value
  {
    HullCoversUnion(a, b);
    match BoxIou(a, b)
    case None => None
    case Some(iou) =>
      var c := Area(Hull(a, b));
      if c + Eps == 0.0 then None
      else
        var gap := c - UnionArea(a, b);
        if c + Eps > 0.0 && gap >= 0.0 then
          RatioBounds(gap, c + Eps);
          Some(iou - gap / (c + Eps))
        else Some(iou - gap / (c + Eps))
  }

  /** For two identical boxes GIoU equals IoU. */
  lemma GeneralizedIouOfSame(a: Xyxy)
    requires WellFormed(a)
    ensures GeneralizedIou(a, a) == BoxIou(a, a)
  {
    assert Hull(a, a) == a;
    assert InterArea(a, a) == Area(a);
  }

  // ---------------------------------------------------------------------
  // DIoU

  function Square(x: real): (r: real)
    ensures r >= 0.0
  {
    x * x
  }

  /** The DIoU penalty of `complete_box_iou` (lines 55-72): the squared
      distance of the centres over the squared diagonal of the enclosing
      box. */
  function DiouTerm(a: Xyxy, b: Xyxy): (r: real)
    ensures r >= 0.0
  {
    var c := Hull(a, b);
    var diag := Square(c.x2 - c.x1) + Square(c.y2 - c.y1);
    var dist := Square((a.x1 + a.x2) / 2.0 - (b.x1 + b.x2) / 2.0) + Square((a.y1 + a.y2) / 2.0 - (b.y1 + b.y2) / 2.0);
    dist / (diag + Eps)
  }

  function Diou(a: Xyxy, b: Xyxy): (r: Option<real>)
    ensures r.Some? <==> BoxIou(a, b).Some?
    ensures r.Some? ==> r.value <= BoxIou(a, b).value
  {
    match BoxIou(a, b)
    case None => None
    case Some(iou) => Some(iou - DiouTerm(a, b))
  }

  /** Boxes with the same centre are not penalised: DIoU equals IoU. */
  lemma DiouSameCentre(a: Xyxy, b: Xyxy)
    requires a.x1 + a.x2 == b.x1 + b.x2 && a.y1 + a.y2 == b.y1 + b.y2
    ensures Diou(a, b) == BoxIou(a, b)
  {
    assert DiouTerm(a, b) == 0.0;
  }

  // ---------------------------------------------------------------------
  // calculate_iou

  /** `calculate_iou`: 0 when the union is not positive, otherwise the
      intersection over the union without epsilon. */
  function CalculateIou(a: Xyxy, b: Xyxy): (r: real)
    ensures UnionArea(a, b) <= 0.0 ==> r == 0.0
    ensures UnionArea(a, b) > 0.0 ==> r * UnionArea(a, b) == InterArea(a, b)
    ensures WellFormed(a) && WellFormed(b) ==> 0.0 <= r <= 1.0
  {
    var u := UnionArea(a, b);
    UnionCoversInter(a, b);
    if u > 0.0 then
      RatioBounds(InterArea(a, b), u);
      InterArea(a, b) / u
    else 0.0
  }

  lemma CalculateIouSymmetric(a: Xyxy, b: Xyxy)
    ensures CalculateIou(a, b) == CalculateIou(b, a)
  {
    InterSymmetric(a, b);
  }

  /** A box with positive area overlaps itself completely. */
  lemma CalculateIouSelf(a: Xyxy)
    requires a.x1 < a.x2 && a.y1 < a.y2
    ensures CalculateIou(a, a) == 1.0
  {
    assert InterArea(a, a) == Area(a);
    assert Area(a) > 0.0;
  }
}
