/** Segmentation-mask metrics of `code-unet/evaluate_per_lead.py` and
    `code-unet/evaluate_ensemble.py`: Dice between a predicted and a
    ground-truth mask, mean squared error and signal-to-noise ratio of the
    masked signals, and the file naming that pairs a prediction with its
    image. An array is its shape and its elements in row-major order. */
module MaskMetrics {
  import opened Base
  import opened Text

  // ---------------------------------------------------------------------
  // Arrays

  function Product(shape: seq<nat>): nat {
    if |shape| == 0 then 1 else shape[0] * Product(shape[1..])
  }

  datatype NdArray = NdArray(shape: seq<nat>, data: seq<real>)

  /** A numpy array: as many elements as its shape holds. */
  type Array = a: NdArray | |a.data| == Product(a.shape) witness NdArray([], [0.0])

  /** An element-wise operation of two arrays of the same shape; other
      shapes raise (broadcasting is not modelled). */
  function Zip(a: Array, b: Array, f: (real, real) -> real): (r: Option<Array>)
    ensures r.Some? <==> a.shape == b.shape
    ensures r.Some? ==> r.value.shape == a.shape
                        && forall i :: 0 <= i < |a.data| ==> r.value.data[i] == f(a.data[i], b.data[i])
  {
    if a.shape != b.shape then None
    else
      var c: Array := NdArray(a.shape, seq(|a.data|, i requires 0 <= i < |a.data| => f(a.data[i], b.data[i])));
      Some(c)
  }

  function Mul(x: real, y: real): real { x * y }
  function Sub(x: real, y: real): real { x - y }

  // ---------------------------------------------------------------------
  // Dice

  /** `mask > 0`: the foreground. */
  predicate Fg(x: real) { x > 0.0 }

  /** Foreground elements of a flat mask. */
  function Count(xs: seq<real>): (n: nat)
    ensures n <= |xs|
  {
    if |xs| == 0 then 0 else (if Fg(xs[0]) then 1 else 0) + Count(xs[1..])
  }

  /** Elements in the foreground of both masks. */
  function Both(xs: seq<real>, ys: seq<real>): (n: nat)
    requires |xs| == |ys|
    ensures n <= Count(xs) && n <= Count(ys)
  {
    if |xs| == 0 then 0
    else (if Fg(xs[0]) && Fg(ys[0]) then 1 else 0) + Both(xs[1..], ys[1..])
  }

  lemma {:induction false} BothSymmetric(xs: seq<real>, ys: seq<real>)
    requires |xs| == |ys|
    ensures Both(xs, ys) == Both(ys, xs)
    decreases |xs|
  {
    if |xs| > 0 { BothSymmetric(xs[1..], ys[1..]); }
  }

  /** The two masks have the same foreground. */
  predicate SameForeground(xs: seq<real>, ys: seq<real>)
    requires |xs| == |ys|
  {
    forall i :: 0 <= i < |xs| ==> (Fg(xs[i]) <==> Fg(ys[i]))
  }

  /** The overlap reaches both counts exactly when the foregrounds agree. */
  lemma {:induction false} BothFull(xs: seq<real>, ys: seq<real>)
    requires |xs| == |ys|
    ensures Both(xs, ys) == Count(xs) && Both(xs, ys) == Count(ys) <==> SameForeground(xs, ys)
    decreases |xs|
  {
    if |xs| > 0 {
      BothFull(xs[1..], ys[1..]);
      if SameForeground(xs[1..], ys[1..]) && (Fg(xs[0]) <==> Fg(ys[0])) {
        forall i | 0 <= i < |xs| ensures Fg(xs[i]) <==> Fg(ys[i]) {
          if i > 0 { assert xs[i] == xs[1..][i - 1] && ys[i] == ys[1..][i - 1]; }
        }
      }
      if SameForeground(xs, ys) {
        forall i | 0 <= i < |xs[1..]| ensures Fg(xs[1..][i]) <==> Fg(ys[1..][i]) {
          assert xs[1..][i] == xs[i + 1] && ys[1..][i] == ys[i + 1];
        }
      }
    }
  }

  /** `r` is the fraction `num / den`. */
  predicate IsRatio(r: real, num: nat, den: nat) {
    r * den as real == num as real
  }

  /** `2 * intersection / volume_sum`, or 1 when both masks are empty. */
  function DiceOf(xs: seq<real>, ys: seq<real>): (r: real)
    requires |xs| == |ys|
    ensures 0.0 <= r <= 1.0
    ensures Count(xs) + Count(ys) == 0 ==> r == 1.0
    ensures Count(xs) + Count(ys) > 0 ==> IsRatio(r, 2 * Both(xs, ys), Count(xs) + Count(ys))
  {
    var v := Count(xs) + Count(ys);
    if v == 0 then 1.0 else DiceRatio(Both(xs, ys), v)
  }

  /** `2 * b / v` for an overlap `b` that at most half of `v` can hold. */
  function DiceRatio(b: nat, v: nat): (r: real)
    requires v > 0 && 2 * b <= v
    ensures 0.0 <= r <= 1.0
    ensures IsRatio(r, 2 * b, v)
  {
    RatioBounds(2.0 * b as real, v as real);
    2.0 * b as real / v as real
  }

  /** `calculate_dice`: `None` for the shape-mismatch `ValueError`; any
      element above 0 is foreground. */
  function Dice(pred: Array, gt: Array): (r: Option<real>)
    ensures r.Some? <==> pred.shape == gt.shape
    ensures r.Some? ==> 0.0 <= r.value <= 1.0
  {
    if pred.shape != gt.shape then None else Some(DiceOf(pred.data, gt.data))
  }

  /** Dice does not depend on the order of the masks. */
  lemma DiceSymmetric(pred: Array, gt: Array)
    ensures Dice(pred, gt) == Dice(gt, pred)
  {
    if pred.shape == gt.shape { BothSymmetric(pred.data, gt.data); }
  }

  /** Dice is 1 exactly when the two masks have the same foreground. */
  lemma DiceOneIff(pred: Array, gt: Array)
    requires pred.shape == gt.shape
    ensures Dice(pred, gt) == Some(1.0) <==> SameForeground(pred.data, gt.data)
  {
    var xs, ys := pred.data, gt.data;
    BothFull(xs, ys);
    var v := Count(xs) + Count(ys);
    if v > 0 { DiceRatioOne(Both(xs, ys), v); }
  }

  lemma DiceRatioOne(b: nat, v: nat)
    requires v > 0 && 2 * b <= v
    ensures DiceRatio(b, v) == 1.0 <==> v == 2 * b
  {
  }

  // ---------------------------------------------------------------------
  // MSE and SNR

  /** Sign of a product of two reals. Squares go through `Mul` so that
      the solver sees them as a product of two factors. */
  lemma MulSign(x: real, y: real)
    ensures x == 0.0 ==> Mul(x, y) == 0.0
    ensures (x > 0.0 && y > 0.0) || (x < 0.0 && y < 0.0) ==> Mul(x, y) > 0.0
  {
  }

  lemma SquareSign(x: real)
    ensures Mul(x, x) >= 0.0
    ensures x != 0.0 ==> Mul(x, x) > 0.0
  {
    MulSign(x, x);
  }

  function SumSquares(xs: seq<real>): (s: real)
    ensures s >= 0.0
  {
    if |xs| == 0 then 0.0
    else
      SquareSign(xs[0]);
      Mul(xs[0], xs[0]) + SumSquares(xs[1..])
  }

  /** `np.mean(x ** 2)`; `None` for the NaN mean of an empty array. */
  function Power(a: Array): (r: Option<real>)
    ensures r.Some? <==> |a.data| > 0
    ensures r.Some? ==> r.value >= 0.0
  {
    if |a.data| == 0 then None else Some(SumSquares(a.data) / |a.data| as real)
  }

  /** The sum of squares vanishes exactly on the all-zero sequence. */
  lemma {:induction false} SumSquaresZero(xs: seq<real>)
    ensures SumSquares(xs) == 0.0 <==> forall i :: 0 <= i < |xs| ==> xs[i] == 0.0
    decreases |xs|
  {
    if |xs| > 0 {
      SumSquaresZero(xs[1..]);
      SquareSign(xs[0]);
      if forall i :: 0 <= i < |xs| ==> xs[i] == 0.0 {
        assert forall i :: 0 <= i < |xs[1..]| ==> xs[1..][i] == xs[i + 1];
      }
      if SumSquares(xs) == 0.0 {
        forall i | 0 <= i < |xs| ensures xs[i] == 0.0 {
          if i > 0 { assert xs[i] == xs[1..][i - 1]; }
        }
      }
    }
  }

  /** `calculate_mse`: the mean of the squared differences; `None` for a
      shape mismatch or the NaN of empty arrays. */
  function Mse(a: Array, b: Array): (r: Option<real>)
    ensures r.Some? ==> r.value >= 0.0
    ensures r.Some? <==> a.shape == b.shape && |a.data| > 0
  {
    match Zip(a, b, Sub)
    case None => None
    case Some(d) => Power(d)
  }

  /** The MSE is 0 exactly for equal signals. */
  lemma MseZeroIff(a: Array, b: Array)
    requires a.shape == b.shape && |a.data| > 0
    ensures Mse(a, b) == Some(0.0) <==> a.data == b.data
  {
    var d := Zip(a, b, Sub).value;
    SumSquaresZero(d.data);
    var n := |d.data| as real;
    if Mse(a, b) == Some(0.0) {
      assert SumSquares(d.data) / n == 0.0;
      assert SumSquares(d.data) == 0.0;
      forall i | 0 <= i < |a.data| ensures a.data[i] == b.data[i] {
        assert d.data[i] == a.data[i] - b.data[i];
      }
    }
    if a.data == b.data {
      forall i | 0 <= i < |d.data| ensures d.data[i] == 0.0 {
        assert d.data[i] == Sub(a.data[i], b.data[i]);
      }
    }
  }

  /** The power threshold of `calculate_snr`. */
  const Tiny: real := 0.000000001

  /** The outcome of `calculate_snr`: the two infinities of its guards,
      `10 * log10(ratio)` (the logarithm is not modelled, its argument is
      kept), or NaN for empty arrays. */
  datatype Snr = PlusInf | MinusInf | Decibels(ratio: real) | NotANumber

  /** `calculate_snr`: the noise test comes first, so a perfect prediction
      gives +inf even when the signal is 0. The NaN power of an empty array
      fails both `<` tests. */
  function CalculateSnr(signal: Array, noise: Array): (r: Snr)
    ensures r == PlusInf <==> Power(noise).Some? && Power(noise).value < Tiny
    ensures r == MinusInf <==> !(Power(noise).Some? && Power(noise).value < Tiny)
                               && Power(signal).Some? && Power(signal).value < Tiny
    ensures r == NotANumber <==> !(Power(noise).Some? && Power(noise).value < Tiny)
                                 && !(Power(signal).Some? && Power(signal).value < Tiny)
                                 && (Power(signal).None? || Power(noise).None?)
    ensures r.Decibels? <==> Power(noise).Some? && Power(noise).value >= Tiny
                             && Power(signal).Some? && Power(signal).value >= Tiny
    ensures r.Decibels? ==> r.ratio > 0.0 && r.ratio * Power(noise).value == Power(signal).value
  {
    var ps := Power(signal);
    var pn := Power(noise);
    if pn.Some? && pn.value < Tiny then PlusInf
    else if ps.Some? && ps.value < Tiny then MinusInf
    else if ps.None? || pn.None? then NotANumber
    else
      var q := ps.value / pn.value;
      assert q * pn.value == ps.value;
      Decibels(q)
  }

  // ---------------------------------------------------------------------
  // One prediction file

  /** The three metrics of one file. */
  datatype Metrics = Metrics(dice: real, mse: Option<real>, snr: Snr)

  /** The metric block of the loop: Dice of the masks, then MSE and SNR of
      the image masked by each; `None` when a step raises (the file is
      then reported and skipped). */
  function FileMetrics(pred: Array, image: Array, gt: Array): (r: Option<Metrics>)
    ensures r.Some? ==> pred.shape == gt.shape && image.shape == gt.shape
    ensures r.Some? ==> Some(r.value.dice) == Dice(pred, gt)
  {
    match Dice(pred, gt)
    case None => None
    case Some(dice) =>
      match (Zip(image, gt, Mul), Zip(image, pred, Mul))
      case (Some(truth), Some(recon)) =>
        var noise := Zip(recon, truth, Sub).value;
        Some(Metrics(dice, Mse(recon, truth), CalculateSnr(truth, noise)))
      case _ => None
  }

  /** The SNR a file gets is read off its MSE: the noise is the
      difference the MSE averages, so the SNR is +inf exactly when the MSE
      is below 1e-9, and a finite SNR's ratio is the ground truth's power
      over the MSE. */
  lemma SnrAgreesWithMse(pred: Array, image: Array, gt: Array)
    requires FileMetrics(pred, image, gt).Some? && |gt.data| > 0
    ensures var m := FileMetrics(pred, image, gt).value;
            m.mse.Some?
            && (m.snr == PlusInf <==> m.mse.value < Tiny)
            && (m.snr.Decibels? ==> m.snr.ratio * m.mse.value == Power(Zip(image, gt, Mul).value).value)
  {
    var truth := Zip(image, gt, Mul).value;
    var recon := Zip(image, pred, Mul).value;
    var noise := Zip(recon, truth, Sub).value;
    assert Mse(recon, truth) == Power(noise);
  }

  /** A prediction equal to the ground truth scores Dice 1, MSE 0 and an
      infinite SNR. */
  lemma PerfectPrediction(mask: Array, image: Array)
    requires mask.shape == image.shape && |mask.data| > 0
    ensures FileMetrics(mask, image, mask) == Some(Metrics(1.0, Some(0.0), PlusInf))
  {
    var xs := mask.data;
    assert SameForeground(xs, xs);
    DiceOneIff(mask, mask);
    var truth := Zip(image, mask, Mul).value;
    MseZeroIff(truth, truth);
    var noise := Zip(truth, truth, Sub).value;
    forall i | 0 <= i < |noise.data| ensures noise.data[i] == 0.0 {
      assert noise.data[i] == Sub(truth.data[i], truth.data[i]);
    }
    SumSquaresZero(noise.data);
  }

  // ---------------------------------------------------------------------
  // File names

  const NiiGz := ".nii.gz"

  /** Prediction files are the names ending in `.nii.gz`. */
  predicate IsPrediction(name: string) { EndsWith(name, NiiGz) }

  /** `evaluate_per_lead.py`: the lead is the last `_` field of the name
      without `.nii.gz`. */
  function LeadName(name: string): string {
    LastPiece(ReplaceAll(name, NiiGz, ""), '_')
  }

  /** `evaluate_per_lead.py`: the image is the name with `.nii.gz` replaced
      by `_0000.nii.gz`. */
  function ImageNamePerLead(name: string): string {
    ReplaceAll(name, NiiGz, "_0000.nii.gz")
  }

  /** For a dot-free stem the per-lead names are the stem's last field and
      the stem with `_0000.nii.gz`. */
  lemma PerLeadNames(stem: string)
    requires '.' !in stem
    ensures LeadName(stem + NiiGz) == LastPiece(stem, '_')
    ensures ImageNamePerLead(stem + NiiGz) == stem + "_0000.nii.gz"
  {
    ReplaceSuffix(stem, NiiGz, "");
    assert stem + "" == stem;
    ReplaceSuffix(stem, NiiGz, "_0000.nii.gz");
  }

  /** `evaluate_ensemble.py` as written: `splitext` cuts only `.gz`, so
      `_0000` lands between `.nii` and `.gz`. */
  function ImageNameEnsembleAsWritten(name: string): string {
    var (base, ext) := SplitExt(name);
    base + "_0000" + ext
  }

  /** For every stem, the as-written name is `stem.nii_0000.gz`, not the
      `stem_0000.nii.gz` image the prediction belongs to. */
  lemma EnsembleNameWrong(stem: string)
    requires '.' !in stem && '/' !in stem && |stem| > 0
    ensures ImageNameEnsembleAsWritten(stem + NiiGz) == stem + ".nii_0000.gz"
    ensures ImageNameEnsembleAsWritten(stem + NiiGz) != stem + "_0000.nii.gz"
  {
    assert stem + NiiGz == (stem + ".nii") + ".gz";
    assert (stem + ".nii")[0] == stem[0] && stem[0] != '.';
    SplitExtOf(stem + ".nii", ".gz");
    var w := ImageNameEnsembleAsWritten(stem + NiiGz);
    assert w[|stem|] == '.';
    assert (stem + "_0000.nii.gz")[|stem|] == '_';
  }

  /** The image name the ensemble script evidently means: `.nii.gz`
      removed as a whole, then `_0000.nii.gz` appended. */
  function ImageNameEnsemble(name: string): (r: string)
    requires IsPrediction(name)
    ensures EndsWith(r, "_0000.nii.gz")
  {
    name[..|name| - |NiiGz|] + "_0000.nii.gz"
  }

  /** The corrected name agrees with the per-lead script's. */
  lemma EnsembleNameAgrees(stem: string)
    requires '.' !in stem
    ensures ImageNameEnsemble(stem + NiiGz) == ImageNamePerLead(stem + NiiGz)
  {
    PerLeadNames(stem);
    assert (stem + NiiGz)[..|stem|] == stem;
  }
}
