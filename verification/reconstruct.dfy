/** Signal reconstruction of `code-unet/reconstruct_signals.py` and
    `code-unet/create_demo.py`: a predicted lead mask becomes a pixel trace
    (the centre of mass of each column) and the trace is scaled to
    seconds and millivolts. A NaN sample is `None`; pandas interpolation,
    plotting and file I/O are not modelled. */
module Reconstruct {
  import opened Base
  import opened Text

  // ---------------------------------------------------------------------
  // Masks

  /** A 2-D mask: `width` columns and its rows from the top of the image. */
  datatype Mask = Mask(width: nat, rows: seq<seq<real>>)

  /** `height, width = mask_np.shape` needs a rectangular array. */
  predicate WellShaped(m: Mask) {
    forall y :: 0 <= y < |m.rows| ==> |m.rows[y]| == m.width
  }

  function Height(m: Mask): nat { |m.rows| }

  /** `mask_np[:, x]`. */
  function Column(m: Mask, x: nat): (c: seq<real>)
    requires WellShaped(m) && x < m.width
    ensures |c| == Height(m)
    ensures forall y :: 0 <= y < |c| ==> c[y] == m.rows[y][x]
  {
    seq(|m.rows|, y requires 0 <= y < |m.rows| => m.rows[y][x])
  }

  /** `np.where(column > 0)[0]`: the foreground rows, top to bottom. */
  function Hits(c: seq<real>): (r: seq<nat>)
    ensures forall k :: 0 <= k < |r| ==> r[k] < |c| && c[r[k]] > 0.0
    ensures forall y :: 0 <= y < |c| && c[y] > 0.0 ==> y in r
    ensures forall i, j :: 0 <= i < j < |r| ==> r[i] < r[j]
    decreases |c|
  {
    if |c| == 0 then []
    else
      var n := |c| - 1;
      var p := Hits(c[..n]);
      assert forall y :: 0 <= y < n ==> c[..n][y] == c[y];
      p + (if c[n] > 0.0 then [n] else [])
  }

  function SumNat(ys: seq<nat>): nat {
    if |ys| == 0 then 0 else ys[0] + SumNat(ys[1..])
  }

  /** Entries below `h` sum to at most `|ys| * (h - 1)`. */
  lemma {:induction false} SumNatBound(ys: seq<nat>, h: nat)
    requires forall k :: 0 <= k < |ys| ==> ys[k] < h
    ensures SumNat(ys) + |ys| <= |ys| * h
    decreases |ys|
  {
    if |ys| > 0 {
      SumNatBound(ys[1..], h);
      assert |ys| * h == h + |ys[1..]| * h;
    }
  }

  /** Implication form, so that callers can use the contrapositive. */
  lemma ProductPositive(a: real, b: real)
    ensures a > 0.0 && b > 0.0 ==> a * b > 0.0
  {
  }

  /** `s / n` lies in `[0, hi]` when `s <= n * hi`. */
  lemma MeanBound(s: nat, n: nat, hi: nat)
    requires n > 0 && s <= n * hi
    ensures 0.0 <= s as real / n as real <= hi as real
  {
    var q := s as real / n as real;
    assert q * n as real == s as real;
    assert (hi as real - q) * n as real == (n * hi - s) as real;
    ProductPositive(q - hi as real, n as real);
    RatioBounds(s as real, n as real);
  }

  /** `np.mean(y_coords)`; `None` for the NaN of an empty column. */
  function Centre(c: seq<real>): (r: Option<real>)
    ensures r.None? <==> forall y :: 0 <= y < |c| ==> c[y] <= 0.0
    ensures r.Some? ==> 0.0 <= r.value <= (|c| - 1) as real
  {
    var ys := Hits(c);
    if |ys| == 0 then None
    else
      MeanOfRows(ys, |c|);
      Some(SumNat(ys) as real / |ys| as real)
  }

  /** The mean of rows below `h` is a row coordinate in `[0, h - 1]`. */
  lemma MeanOfRows(ys: seq<nat>, h: nat)
    requires |ys| > 0 && forall k :: 0 <= k < |ys| ==> ys[k] < h
    ensures 0.0 <= SumNat(ys) as real / |ys| as real <= (h - 1) as real
    ensures (SumNat(ys) as real / |ys| as real) * |ys| as real == SumNat(ys) as real
  {
    assert ys[0] < h;
    SumNatBound(ys, h);
    assert |ys| * h == |ys| * (h - 1) + |ys|;
    MeanBound(SumNat(ys), |ys|, h - 1);
  }

  /** `vectorize_mask`: one sample per column. */
  function Vectorize(m: Mask): (r: seq<Option<real>>)
    requires WellShaped(m)
    ensures |r| == m.width
    ensures forall x :: 0 <= x < |r| ==>
              (r[x].None? <==> forall y :: 0 <= y < Height(m) ==> m.rows[y][x] <= 0.0)
    ensures forall x :: 0 <= x < |r| && r[x].Some? ==> 0.0 <= r[x].value <= (Height(m) - 1) as real
  {
    seq(m.width, x requires 0 <= x < m.width => Centre(Column(m, x)))
  }

  /** A column with a single foreground pixel is centred on that pixel. */
  lemma SinglePixelCentre(c: seq<real>, y: nat)
    requires y < |c| && c[y] > 0.0
    requires forall z :: 0 <= z < |c| && z != y ==> c[z] <= 0.0
    ensures Centre(c) == Some(y as real)
  {
    SingleHit(c, y);
    SingleMean(Hits(c), y);
  }

  /** The mean of one row index is that index. */
  lemma SingleMean(ys: seq<nat>, y: nat)
    requires ys == [y]
    ensures SumNat(ys) as real / |ys| as real == y as real
  {
    assert ys[1..] == [];
    assert SumNat(ys) == y;
  }

  lemma HitsNone(c: seq<real>)
    requires forall z :: 0 <= z < |c| ==> c[z] <= 0.0
    ensures Hits(c) == []
  {
  }

  lemma {:induction false} SingleHit(c: seq<real>, y: nat)
    requires y < |c| && c[y] > 0.0
    requires forall z :: 0 <= z < |c| && z != y ==> c[z] <= 0.0
    ensures Hits(c) == [y]
    decreases |c|
  {
    var n := |c| - 1;
    var p := c[..n];
    if n == y {
      HitsNone(p);
    } else {
      assert p[y] == c[y];
      SingleHit(p, y);
    }
  }

  /** The mask a one-pixel-wide trace draws: row `t[x]` is set in column `x`. */
  function Draw(t: seq<nat>, h: nat): (m: Mask)
    requires forall x :: 0 <= x < |t| ==> t[x] < h
    ensures WellShaped(m) && Height(m) == h && m.width == |t|
  {
    Mask(|t|, seq(h, y => seq(|t|, x requires 0 <= x < |t| => if t[x] == y then 1.0 else 0.0)))
  }

  /** Vectorising a drawn trace gives the trace back. */
  lemma VectorizeDraw(t: seq<nat>, h: nat)
    requires forall x :: 0 <= x < |t| ==> t[x] < h
    ensures Vectorize(Draw(t, h)) == seq(|t|, x requires 0 <= x < |t| => Some(t[x] as real))
  {
    var m := Draw(t, h);
    forall x | 0 <= x < |t|
      ensures Vectorize(m)[x] == Some(t[x] as real)
    {
      SinglePixelCentre(Column(m, x), t[x]);
    }
  }

  // ---------------------------------------------------------------------
  // Scaling

  /** The grid constants both scripts pass: 300 dpi, 10 mm/mV, 25 mm/s. */
  const ImageDpi: real := 300.0
  const MmPerMv: real := 10.0
  const MmPerSecond: real := 25.0

  /** The height `reconstruct_signals.scale_signal` assumes. */
  const FixedHeight: nat := 180

  predicate Grid(dpi: real, mmPerMv: real, mmPerSecond: real) {
    dpi > 0.0 && mmPerMv > 0.0 && mmPerSecond > 0.0
  }

  function PxPerMm(dpi: real): real { dpi / 25.4 }

  /** `((height / 2 - px) / px_per_mm) / mm_per_mv`. */
  function Voltage(px: real, dpi: real, mmPerMv: real, height: nat): real
    requires dpi > 0.0 && mmPerMv > 0.0
  {
    ((height as real / 2.0 - px) / PxPerMm(dpi)) / mmPerMv
  }

  /** `(i / px_per_mm) / mm_per_second`. */
  function Time(i: nat, dpi: real, mmPerSecond: real): real
    requires dpi > 0.0 && mmPerSecond > 0.0
  {
    (i as real / PxPerMm(dpi)) / mmPerSecond
  }

  /** The row a voltage came from: the inverse of `Voltage`. */
  function PixelOf(v: real, dpi: real, mmPerMv: real, height: nat): real {
    height as real / 2.0 - v * mmPerMv * PxPerMm(dpi)
  }

  lemma DivPositive(a: real, k: real)
    requires k > 0.0
    ensures a / k * k == a
    ensures a > 0.0 ==> a / k > 0.0
    ensures a == 0.0 ==> a / k == 0.0
  {
    ProductPositive(a / k, k);
    if a / k < 0.0 { ProductPositive(-(a / k), k); }
  }

  /** The middle row is 0 mV, and a lower row (larger index) is a lower
      voltage. */
  lemma VoltageCentreAntitone(p: real, q: real, dpi: real, mmPerMv: real, height: nat)
    requires dpi > 0.0 && mmPerMv > 0.0
    ensures Voltage(height as real / 2.0, dpi, mmPerMv, height) == 0.0
    ensures p < q ==> Voltage(p, dpi, mmPerMv, height) > Voltage(q, dpi, mmPerMv, height)
  {
    var k := PxPerMm(dpi);
    DivPositive(0.0, k);
    DivPositive(0.0, mmPerMv);
    var a, b := height as real / 2.0 - p, height as real / 2.0 - q;
    DivPositive(a, k);
    DivPositive(b, k);
    DivPositive(a / k - b / k, k * 0.0 + k);
    assert (a - b) / k == a / k - b / k;
    DivPositive(a - b, k);
    DivPositive(a / k, mmPerMv);
    DivPositive(b / k, mmPerMv);
    assert (a / k - b / k) / mmPerMv == a / k / mmPerMv - b / k / mmPerMv;
    DivPositive(a / k - b / k, mmPerMv);
  }

  /** Scaling a row to millivolts loses nothing. */
  lemma VoltageRoundTrip(px: real, dpi: real, mmPerMv: real, height: nat)
    requires dpi > 0.0 && mmPerMv > 0.0
    ensures PixelOf(Voltage(px, dpi, mmPerMv, height), dpi, mmPerMv, height) == px
  {
    var k := PxPerMm(dpi);
    var a := height as real / 2.0 - px;
    DivPositive(a, k);
    DivPositive(a / k, mmPerMv);
    assert (a / k / mmPerMv) * mmPerMv * k == a;
  }

  /** The time axis starts at 0 and increases strictly. */
  lemma TimeStartsAndIncreases(i: nat, j: nat, dpi: real, mmPerSecond: real)
    requires dpi > 0.0 && mmPerSecond > 0.0
    ensures Time(0, dpi, mmPerSecond) == 0.0
    ensures i < j ==> Time(i, dpi, mmPerSecond) < Time(j, dpi, mmPerSecond)
  {
    var k := PxPerMm(dpi);
    DivPositive(0.0, k);
    DivPositive(0.0, mmPerSecond);
    var a, b := i as real, j as real;
    DivPositive(a, k);
    DivPositive(b, k);
    assert (b - a) / k == b / k - a / k;
    DivPositive(b - a, k);
    DivPositive(a / k, mmPerSecond);
    DivPositive(b / k, mmPerSecond);
    assert (b / k - a / k) / mmPerSecond == b / k / mmPerSecond - a / k / mmPerSecond;
    DivPositive(b / k - a / k, mmPerSecond);
  }

  /** A scaled signal: time axis and voltages, `None` where the trace is NaN. */
  datatype Signal = Signal(time: seq<real>, voltage: seq<Option<real>>)

  /** `create_demo.scale_signal` with the image height passed in. */
  function Scale(raw: seq<Option<real>>, dpi: real, mmPerMv: real, mmPerSecond: real, height: nat): (s: Signal)
    requires Grid(dpi, mmPerMv, mmPerSecond)
    ensures |s.time| == |raw| && |s.voltage| == |raw|
    ensures forall i :: 0 <= i < |raw| ==> (s.voltage[i].None? <==> raw[i].None?)
  {
    Signal(seq(|raw|, i requires 0 <= i < |raw| => Time(i, dpi, mmPerSecond)),
           seq(|raw|, i requires 0 <= i < |raw| =>
             if raw[i].None? then None else Some(Voltage(raw[i].value, dpi, mmPerMv, height))))
  }

  /** `reconstruct_signals.scale_signal`: the same scaling with the height
      fixed at 180. */
  function ScaleFixed(raw: seq<Option<real>>, dpi: real, mmPerMv: real, mmPerSecond: real): Signal
    requires Grid(dpi, mmPerMv, mmPerSecond)
  {
    Scale(raw, dpi, mmPerMv, mmPerSecond, FixedHeight)
  }

  /** Every scaled sample can be mapped back to the row it came from. */
  lemma ScaleRoundTrip(raw: seq<Option<real>>, dpi: real, mmPerMv: real, mmPerSecond: real, height: nat, i: nat)
    requires Grid(dpi, mmPerMv, mmPerSecond) && i < |raw| && raw[i].Some?
    ensures var s := Scale(raw, dpi, mmPerMv, mmPerSecond, height);
            s.voltage[i].Some? && PixelOf(s.voltage[i].value, dpi, mmPerMv, height) == raw[i].value
  {
    VoltageRoundTrip(raw[i].value, dpi, mmPerMv, height);
  }

  /** `reconstruct_signals.main`: vectorise, then scale with the fixed height. */
  function ReconstructFixed(m: Mask): (s: Signal)
    requires WellShaped(m)
    ensures |s.time| == m.width && |s.voltage| == m.width
  {
    ScaleFixed(Vectorize(m), ImageDpi, MmPerMv, MmPerSecond)
  }

  /** `create_demo.main`: vectorise, then scale with the mask's own height. */
  function ReconstructDemo(m: Mask): (s: Signal)
    requires WellShaped(m)
    ensures |s.time| == m.width && |s.voltage| == m.width
  {
    Scale(Vectorize(m), ImageDpi, MmPerMv, MmPerSecond, Height(m))
  }

  lemma VoltageHeightShift(px: real, dpi: real, mmPerMv: real, g: nat, h: nat)
    requires dpi > 0.0 && mmPerMv > 0.0
    ensures Voltage(px, dpi, mmPerMv, g) == Voltage(px, dpi, mmPerMv, h) <==> g == h
  {
    var e := h as real / 2.0 - g as real / 2.0;
    var p := px + e;
    assert Voltage(px, dpi, mmPerMv, g) == Voltage(p, dpi, mmPerMv, h);
    VoltageCentreAntitone(px, p, dpi, mmPerMv, h);
    VoltageCentreAntitone(p, px, dpi, mmPerMv, h);
  }

  /** The two scripts produce the same signal exactly when the mask is 180
      rows high or has no foreground at all. */
  lemma ScriptsAgreeIff(m: Mask)
    requires WellShaped(m)
    ensures ReconstructFixed(m) == ReconstructDemo(m) <==>
            Height(m) == FixedHeight || forall x :: 0 <= x < m.width ==> Vectorize(m)[x].None?
  {
    var raw := Vectorize(m);
    var a, b := ReconstructFixed(m), ReconstructDemo(m);
    if Height(m) != FixedHeight {
      if exists x :: 0 <= x < m.width && raw[x].Some? {
        var x :| 0 <= x < m.width && raw[x].Some?;
        VoltageHeightShift(raw[x].value, ImageDpi, MmPerMv, FixedHeight, Height(m));
        assert a.voltage[x] != b.voltage[x];
      } else {
        assert a.voltage == b.voltage;
      }
    }
  }

  // ---------------------------------------------------------------------
  // File names

  /** `mask_filename.replace('.nii.gz', '.csv')` for the `.nii.gz` files
      the loop keeps; `None` for the files it skips. */
  function CsvName(maskName: string): (r: Option<string>)
    ensures r.Some? <==> EndsWith(maskName, ".nii.gz")
  {
    if EndsWith(maskName, ".nii.gz") then Some(ReplaceAll(maskName, ".nii.gz", ".csv")) else None
  }

  /** The demo's stage 3: from a `.csv` name back to the image
      `base_0000.nii.gz` and the mask `base.nii.gz`. */
  function DemoInputs(csvName: string): (r: Option<(string, string)>)
    ensures r.Some? <==> EndsWith(csvName, ".csv")
  {
    if EndsWith(csvName, ".csv") then
      var base := ReplaceAll(csvName, ".csv", "");
      Some((base + "_0000.nii.gz", base + ".nii.gz"))
    else None
  }

  /** For a dot-free case name, the demo finds the mask it reconstructed
      and the nnU-Net input image of that case. */
  lemma DemoInputsRoundTrip(stem: string)
    requires forall i :: 0 <= i < |stem| ==> stem[i] != '.'
    ensures CsvName(stem + ".nii.gz") == Some(stem + ".csv")
    ensures DemoInputs(stem + ".csv") == Some((stem + "_0000.nii.gz", stem + ".nii.gz"))
  {
    assert (stem + ".nii.gz")[|stem + ".nii.gz"| - 7..] == ".nii.gz";
    assert (stem + ".csv")[|stem + ".csv"| - 4..] == ".csv";
    ReplaceSuffix(stem, ".nii.gz", ".csv");
    ReplaceSuffix(stem, ".csv", "");
    assert stem + "" == stem;
  }
}
