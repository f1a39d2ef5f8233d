/** The page geometry shared by both revisions of `ecg_plot`: the row
    count and height, the axis extents, the horizontal gap, the stacking of
    the lead rows, and the bounding box of one drawn trace in data and in
    image coordinates.

    matplotlib's `ax.transData` is an increasing affine map per axis,
    passed in as an `Affine`; the canvas height in pixels is an input. */
module Layout {
  import opened Base
  import opened Windower

  /** A box corner as `ecg_plot` stores it: `[y, x]` in image pixels. */
  type Corner = (int, int)

  /** Paper size in inches and the grid: `*_grid_size` data units per
      `*_grid_inch` inches. */
  datatype Paper = Paper(width: real, height: real, yGridSize: real, xGridSize: real,
                         yGridInch: real, xGridInch: real)

  predicate ValidPaper(p: Paper) {
    p.width > 0.0 && p.height > 0.0 && p.yGridSize > 0.0 && p.xGridSize > 0.0
    && p.yGridInch > 0.0 && p.xGridInch > 0.0
  }

  /** The computed layout of one page. */
  datatype Geometry = Geometry(rows: int, rowHeight: real, xMax: real, xGap: real, yMax: real)

  /** `x_gap`: half the horizontal slack, floored to the 0.2 grid. */
  function XGap(xMax: real, columns: int, secs: real): (g: real)
    ensures g <= (xMax - columns as real * secs) / 2.0 < g + 0.2
  {
    var k := Floor(((xMax - columns as real * secs) / 2.0) / 0.2);
    k as real * 0.2
  }

  /** The layout block of `ecg_plot`: one row per `columns` leads, one more
      for a rhythm strip, and `rows + 2` rows filling the page height. */
  function PageGeometry(p: Paper, nLeads: nat, columns: int, secs: real, hasRhythm: bool): (g: Geometry)
    requires ValidPaper(p) && columns >= 1
    ensures g.rows == CeilDiv(nLeads, columns) + (if hasRhythm then 1 else 0)
    ensures g.rows >= 0 && g.rowHeight > 0.0 && g.yMax > 0.0 && g.xMax > 0.0
    ensures g.rowHeight * (g.rows + 2) as real == g.yMax
    ensures g.yMax * p.yGridInch == p.height * p.yGridSize
    ensures g.xMax * p.xGridInch == p.width * p.xGridSize
    ensures g.xGap <= (g.xMax - columns as real * secs) / 2.0 < g.xGap + 0.2
  {
    CeilOfRatio(nLeads, columns);
    var rows := MaxRows(nLeads, columns) + (if hasRhythm then 1 else 0);
    var yMax := p.height * p.yGridSize / p.yGridInch;
    var xMax := p.width * p.xGridSize / p.xGridInch;
    Quotient(p.height * p.yGridSize, p.yGridInch);
    Quotient(p.width * p.xGridSize, p.xGridInch);
    Quotient(yMax, (rows + 2) as real);
    Geometry(rows, yMax / (rows + 2) as real, xMax, XGap(xMax, columns, secs), yMax)
  }

  /** Dividing a positive quantity by a positive one. */
  lemma Quotient(a: real, b: real)
    requires b > 0.0
    ensures (a / b) * b == a
    ensures a > 0.0 ==> a / b > 0.0
  {}

  /** The grid cell of one drawn lead. */
  datatype Cell = Cell(index: nat, name: string, column: int, yCentre: real, xOffset: real)

  /** Whether the lead at position `i` starts a new row: it is drawn and
      sits in column 0. */
  predicate Opens(ecg: Frame, leadIndex: seq<string>, columns: int, i: nat)
    requires columns >= 1 && i < |leadIndex|
  {
    leadIndex[i] in ecg && i % columns == 0
  }

  /** Rows opened by positions `0 .. i-1` of `lead_index`. */
  function RowsOpened(ecg: Frame, leadIndex: seq<string>, columns: int, i: nat): nat
    requires columns >= 1 && i <= |leadIndex|
  {
    if i == 0 then 0
    else RowsOpened(ecg, leadIndex, columns, i - 1) + (if Opens(ecg, leadIndex, columns, i - 1) then 1 else 0)
  }

  /** A centre `n` row heights below `y`: `y` lowered `n` times by `rh`. */
  function Lowered(y: real, rh: real, n: nat): real
  {
    if n == 0 then y else Lowered(y, rh, n - 1) - rh
  }

  lemma {:induction false} LoweredShift(y: real, rh: real, n: nat)
    ensures Lowered(y - rh, rh, n) == Lowered(y, rh, n + 1)
    decreases n
  {
    if n > 0 { LoweredShift(y, rh, n - 1); }
  }

  lemma {:induction false} LoweredClosed(y: real, rh: real, n: nat)
    ensures Lowered(y, rh, n) == y - n as real * rh
    decreases n
  {
    if n > 0 {
      LoweredClosed(y, rh, n - 1);
      assert n as real * rh == (n - 1) as real * rh + rh;
    }
  }

  lemma {:induction false} LoweredMonotone(y: real, rh: real, a: nat, b: nat)
    requires rh >= 0.0 && a <= b
    ensures Lowered(y, rh, b) <= Lowered(y, rh, a)
    decreases b
  {
    if a < b { LoweredMonotone(y, rh, a, b - 1); }
  }

  /** The lead loop's placement (lines 86-99 of the newer revision): from
      position `i` with running row centre `y`, each present lead in column
      0 first lowers the centre by `rh`; absent leads are skipped but keep
      their position. */
  function Stack(ecg: Frame, leadIndex: seq<string>, columns: int, secs: real, rh: real,
                 y: real, i: nat): (cells: seq<Cell>)
    requires columns >= 1 && i <= |leadIndex|
    ensures forall k :: 0 <= k < |cells| ==> i <= cells[k].index < |leadIndex|
    decreases |leadIndex| - i
  {
    if i == |leadIndex| then []
    else if leadIndex[i] !in ecg then Stack(ecg, leadIndex, columns, secs, rh, y, i + 1)
    else
      var col := i % columns;
      var y' := if col == 0 then y - rh else y;
      [Cell(i, leadIndex[i], col, y', col as real * secs)] + Stack(ecg, leadIndex, columns, secs, rh, y', i + 1)
  }

  /** The running row centre after the loop (`y_offset_start` at line
      150 of the newer revision). */
  function CentreAfter(ecg: Frame, leadIndex: seq<string>, columns: int, rh: real, y: real, i: nat): real
    requires columns >= 1 && i <= |leadIndex|
    decreases |leadIndex| - i
  {
    if i == |leadIndex| then y
    else CentreAfter(ecg, leadIndex, columns, rh, if Opens(ecg, leadIndex, columns, i) then y - rh else y, i + 1)
  }

  /** A cell is a present lead placed in the column of its position:
      `x_offset = (i % columns) * secs`, whether or not the leads before it
      were drawn. */
  predicate PlacedAt(ecg: Frame, leadIndex: seq<string>, columns: int, secs: real, c: Cell)
    requires columns >= 1
  {
    c.index < |leadIndex| && c.name == leadIndex[c.index] && c.name in ecg
    && c.column == c.index % columns && c.xOffset == (c.index % columns) as real * secs
  }

  predicate AllPlaced(ecg: Frame, leadIndex: seq<string>, columns: int, secs: real, cells: seq<Cell>)
    requires columns >= 1
  {
    forall k :: 0 <= k < |cells| ==> PlacedAt(ecg, leadIndex, columns, secs, cells[k])
  }

  predicate InLeadOrder(cells: seq<Cell>) {
    forall a, b :: 0 <= a < b < |cells| ==> cells[a].index < cells[b].index
  }

  /** Each cell is a present lead placed in its position's column, and the
      cells follow `lead_index` order. */
  lemma {:induction false} StackCells(ecg: Frame, leadIndex: seq<string>, columns: int, secs: real,
                                      rh: real, y: real, i: nat)
    requires columns >= 1 && i <= |leadIndex|
    ensures AllPlaced(ecg, leadIndex, columns, secs, Stack(ecg, leadIndex, columns, secs, rh, y, i))
    ensures InLeadOrder(Stack(ecg, leadIndex, columns, secs, rh, y, i))
    decreases |leadIndex| - i
  {
    if i < |leadIndex| {
      var y' := if Opens(ecg, leadIndex, columns, i) then y - rh else y;
      StackCells(ecg, leadIndex, columns, secs, rh, y', i + 1);
      var cells := Stack(ecg, leadIndex, columns, secs, rh, y, i);
      var rest := Stack(ecg, leadIndex, columns, secs, rh, y', i + 1);
      if leadIndex[i] in ecg {
        var first := Cell(i, leadIndex[i], i % columns, y', (i % columns) as real * secs);
        assert cells == [first] + rest;
        ConsPlaced(ecg, leadIndex, columns, secs, first, rest);
      } else {
        assert cells == rest;
      }
    }
  }

  /** A placed cell ahead of placed cells with later positions keeps both
      properties. */
  lemma ConsPlaced(ecg: Frame, leadIndex: seq<string>, columns: int, secs: real, first: Cell, rest: seq<Cell>)
    requires columns >= 1 && PlacedAt(ecg, leadIndex, columns, secs, first)
    requires AllPlaced(ecg, leadIndex, columns, secs, rest) && InLeadOrder(rest)
    requires forall k :: 0 <= k < |rest| ==> first.index < rest[k].index
    ensures AllPlaced(ecg, leadIndex, columns, secs, [first] + rest)
    ensures InLeadOrder([first] + rest)
  {
    var cells := [first] + rest;
    forall k | 0 <= k < |cells| ensures PlacedAt(ecg, leadIndex, columns, secs, cells[k]) {
      if k > 0 { assert cells[k] == rest[k - 1]; }
    }
    forall a, b | 0 <= a < b < |cells| ensures cells[a].index < cells[b].index {
      if a > 0 { assert cells[a] == rest[a - 1]; }
      assert cells[b] == rest[b - 1];
    }
  }

  /** Every present lead from position `i` on gets a cell. */
  lemma {:induction false} StackComplete(ecg: Frame, leadIndex: seq<string>, columns: int, secs: real,
                                         rh: real, y: real, i: nat, j: nat)
    requires columns >= 1 && i <= j < |leadIndex| && leadIndex[j] in ecg
    ensures exists k :: 0 <= k < |Stack(ecg, leadIndex, columns, secs, rh, y, i)| && Stack(ecg, leadIndex, columns, secs, rh, y, i)[k].index == j
    decreases |leadIndex| - i
  {
    var cells := Stack(ecg, leadIndex, columns, secs, rh, y, i);
    var y' := if Opens(ecg, leadIndex, columns, i) then y - rh else y;
    var rest := Stack(ecg, leadIndex, columns, secs, rh, y', i + 1);
    if j == i {
      assert cells[0].index == j;
    } else {
      StackComplete(ecg, leadIndex, columns, secs, rh, y', i + 1, j);
      var k :| 0 <= k < |rest| && rest[k].index == j;
      if leadIndex[i] in ecg {
        assert cells[k + 1] == rest[k];
      } else {
        assert cells == rest;
      }
    }
  }

  /** Every cell's centre in closed form, counting rows from position `i`. */
  predicate CentresFrom(ecg: Frame, leadIndex: seq<string>, columns: int, rh: real, y: real, i: nat,
                        cells: seq<Cell>)
    requires columns >= 1 && i <= |leadIndex|
  {
    forall k :: 0 <= k < |cells| ==> CentredFrom(ecg, leadIndex, columns, rh, y, i, cells[k])
  }

  /** One cell's centre in closed form, counting rows from position `i`. */
  predicate CentredFrom(ecg: Frame, leadIndex: seq<string>, columns: int, rh: real, y: real, i: nat, c: Cell)
    requires columns >= 1 && i <= |leadIndex|
  {
    && i <= c.index < |leadIndex|
    && RowsOpened(ecg, leadIndex, columns, i) <= RowsOpened(ecg, leadIndex, columns, c.index + 1)
    && c.yCentre == Lowered(y, rh, RowsOpened(ecg, leadIndex, columns, c.index + 1)
                                   - RowsOpened(ecg, leadIndex, columns, i))
  }

  /** The row centre of every cell: the start minus one row height per row
      opened up to and including its own position. */
  lemma {:induction false} StackCentres(ecg: Frame, leadIndex: seq<string>, columns: int, secs: real,
                                        rh: real, y: real, i: nat)
    requires columns >= 1 && i <= |leadIndex|
    ensures CentresFrom(ecg, leadIndex, columns, rh, y, i, Stack(ecg, leadIndex, columns, secs, rh, y, i))
    decreases |leadIndex| - i
  {
    if i < |leadIndex| {
      var y' := if Opens(ecg, leadIndex, columns, i) then y - rh else y;
      StackCentres(ecg, leadIndex, columns, secs, rh, y', i + 1);
      var cells := Stack(ecg, leadIndex, columns, secs, rh, y, i);
      forall k | 0 <= k < |cells| ensures CentredFrom(ecg, leadIndex, columns, rh, y, i, cells[k]) {
        StackCentreAt(ecg, leadIndex, columns, secs, rh, y, i, k);
      }
    }
  }

  /** One step of `StackCentres`: the cells from position `i` keep the
      closed form when the cells from `i + 1` have it. */
  lemma StackCentreAt(ecg: Frame, leadIndex: seq<string>, columns: int, secs: real,
                      rh: real, y: real, i: nat, k: nat)
    requires columns >= 1 && i < |leadIndex|
    requires var y' := if Opens(ecg, leadIndex, columns, i) then y - rh else y;
             CentresFrom(ecg, leadIndex, columns, rh, y', i + 1, Stack(ecg, leadIndex, columns, secs, rh, y', i + 1))
    requires k < |Stack(ecg, leadIndex, columns, secs, rh, y, i)|
    ensures CentredFrom(ecg, leadIndex, columns, rh, y, i, Stack(ecg, leadIndex, columns, secs, rh, y, i)[k])
  {
    var d := if Opens(ecg, leadIndex, columns, i) then 1 else 0;
    var y' := if Opens(ecg, leadIndex, columns, i) then y - rh else y;
    var cells := Stack(ecg, leadIndex, columns, secs, rh, y, i);
    var rest := Stack(ecg, leadIndex, columns, secs, rh, y', i + 1);
    var before := RowsOpened(ecg, leadIndex, columns, i);
    assert RowsOpened(ecg, leadIndex, columns, i + 1) == before + d;
    if leadIndex[i] in ecg {
      assert cells == [Cell(i, leadIndex[i], i % columns, y', (i % columns) as real * secs)] + rest;
    } else {
      assert cells == rest;
    }
    var o := RowsOpened(ecg, leadIndex, columns, cells[k].index + 1);
    if leadIndex[i] in ecg && k == 0 {
      assert o == before + d;
    } else {
      var c := if leadIndex[i] in ecg then rest[k - 1] else rest[k];
      assert cells[k] == c;
      if d == 1 { LoweredShift(y, rh, o - (before + 1)); }
    }
  }

  /** The centre after the loop in closed form. */
  lemma {:induction false} CentreAfterClosed(ecg: Frame, leadIndex: seq<string>, columns: int,
                                             rh: real, y: real, i: nat)
    requires columns >= 1 && i <= |leadIndex|
    ensures RowsOpened(ecg, leadIndex, columns, i) <= RowsOpened(ecg, leadIndex, columns, |leadIndex|)
    ensures CentreAfter(ecg, leadIndex, columns, rh, y, i) ==
            Lowered(y, rh, RowsOpened(ecg, leadIndex, columns, |leadIndex|) - RowsOpened(ecg, leadIndex, columns, i))
    decreases |leadIndex| - i
  {
    if i < |leadIndex| {
      var opens := Opens(ecg, leadIndex, columns, i);
      var y' := if opens then y - rh else y;
      CentreAfterClosed(ecg, leadIndex, columns, rh, y', i + 1);
      var total := RowsOpened(ecg, leadIndex, columns, |leadIndex|);
      var next := RowsOpened(ecg, leadIndex, columns, i + 1);
      if opens { LoweredShift(y, rh, total - next); }
    }
  }

  lemma {:induction false} RowsOpenedMonotone(ecg: Frame, leadIndex: seq<string>, columns: int, i: nat, j: nat)
    requires columns >= 1 && i <= j <= |leadIndex|
    ensures RowsOpened(ecg, leadIndex, columns, i) <= RowsOpened(ecg, leadIndex, columns, j)
    decreases j
  {
    if i < j {
      RowsOpenedMonotone(ecg, leadIndex, columns, i, j - 1);
    }
  }

  /** No more rows are opened than `ceil(i / columns)`: only positions that
      are multiples of `columns` open one. */
  lemma {:induction false} RowsOpenedBound(ecg: Frame, leadIndex: seq<string>, columns: int, i: nat)
    requires columns >= 1 && i <= |leadIndex|
    ensures RowsOpened(ecg, leadIndex, columns, i) <= CeilDiv(i, columns)
    decreases i
  {
    if i > 0 {
      RowsOpenedBound(ecg, leadIndex, columns, i - 1);
      CeilDivStep(i - 1, columns);
    }
  }

  /** Rows stack downward: a later cell is never above an earlier one. */
  lemma StackDescends(ecg: Frame, leadIndex: seq<string>, columns: int, secs: real, rh: real,
                      y: real, a: nat, b: nat)
    requires columns >= 1 && rh >= 0.0
    requires a < b < |Stack(ecg, leadIndex, columns, secs, rh, y, 0)|
    ensures Stack(ecg, leadIndex, columns, secs, rh, y, 0)[b].yCentre <= Stack(ecg, leadIndex, columns, secs, rh, y, 0)[a].yCentre
  {
    var cells := Stack(ecg, leadIndex, columns, secs, rh, y, 0);
    StackCentres(ecg, leadIndex, columns, secs, rh, y, 0);
    StackCells(ecg, leadIndex, columns, secs, rh, y, 0);
    RowsOpenedMonotone(ecg, leadIndex, columns, cells[a].index + 1, cells[b].index + 1);
    LoweredMonotone(y, rh, RowsOpened(ecg, leadIndex, columns, cells[a].index + 1),
                    RowsOpened(ecg, leadIndex, columns, cells[b].index + 1));
  }

  /** `y_offset_start` before the loop: half a row above the block of
      `rows` rows. */
  function FirstCentre(rows: int, rh: real): real { rows as real * rh + rh / 2.0 }

  predicate CentresWithin(cells: seq<Cell>, lo: real, hi: real) {
    forall k :: 0 <= k < |cells| ==> lo <= cells[k].yCentre <= hi
  }

  /** Started from `FirstCentre` as `ecg_plot` does, every cell centre
      lies inside the page `[0, (rows + 2)*rh]`, at least half a row from
      its bottom and no higher than the start. */
  lemma CentresOnPage(ecg: Frame, leadIndex: seq<string>, columns: int, secs: real,
                      rh: real, rows: int, hasRhythm: bool)
    requires columns >= 1 && rh > 0.0
    requires rows == CeilDiv(|leadIndex|, columns) + (if hasRhythm then 1 else 0)
    ensures CentresWithin(Stack(ecg, leadIndex, columns, secs, rh, FirstCentre(rows, rh), 0),
                          rh / 2.0, FirstCentre(rows, rh))
    ensures FirstCentre(rows, rh) < (rows + 2) as real * rh
  {
    var y0 := FirstCentre(rows, rh);
    var cells := Stack(ecg, leadIndex, columns, secs, rh, y0, 0);
    var n := |leadIndex|;
    StackCentres(ecg, leadIndex, columns, secs, rh, y0, 0);
    RowsOpenedBound(ecg, leadIndex, columns, n);
    BottomRow(rows, rh);
    forall k | 0 <= k < |cells|
      ensures rh / 2.0 <= cells[k].yCentre <= y0
    {
      var o := RowsOpened(ecg, leadIndex, columns, cells[k].index + 1);
      RowsOpenedMonotone(ecg, leadIndex, columns, cells[k].index + 1, n);
      LoweredMonotone(y0, rh, o, rows);
      LoweredMonotone(y0, rh, 0, o);
    }
  }

  /** Lowering the first centre by all `rows` rows reaches half a row. */
  lemma BottomRow(rows: nat, rh: real)
    ensures Lowered(FirstCentre(rows, rh), rh, rows) == rh / 2.0
    ensures FirstCentre(rows, rh) < (rows + 2) as real * rh || rh <= 0.0
  {
    LoweredClosed(FirstCentre(rows, rh), rh, rows);
    assert (rows + 2) as real * rh == rows as real * rh + 2.0 * rh;
  }

  /** The rhythm strip, one row below the last lead row, also lies on the
      page at least half a row from its bottom. */
  lemma RhythmOnPage(ecg: Frame, leadIndex: seq<string>, columns: int, rh: real, rows: int)
    requires columns >= 1 && rh > 0.0
    requires rows == CeilDiv(|leadIndex|, columns) + 1
    ensures rh / 2.0 <= CentreAfter(ecg, leadIndex, columns, rh, FirstCentre(rows, rh), 0) - rh
                     <= FirstCentre(rows, rh)
  {
    var y0 := FirstCentre(rows, rh);
    var n := |leadIndex|;
    RowsOpenedBound(ecg, leadIndex, columns, n);
    BottomRow(rows, rh);
    CentreAfterClosed(ecg, leadIndex, columns, rh, y0, 0);
    var o := RowsOpened(ecg, leadIndex, columns, n);
    assert Lowered(y0, rh, o) - rh == Lowered(y0, rh, o + 1);
    LoweredMonotone(y0, rh, o + 1, rows);
    LoweredMonotone(y0, rh, 0, o + 1);
  }

  /** The smallest and largest sample (`np.nanmin`, `np.nanmax` on finite
      values). */
  function SeqMin(s: seq<real>): (m: real)
    requires |s| > 0
    ensures forall i :: 0 <= i < |s| ==> m <= s[i]
    ensures exists i :: 0 <= i < |s| && m == s[i]
  {
    if |s| == 1 then s[0]
    else
      var m := SeqMin(s[1..]);
      assert forall i :: 1 <= i < |s| ==> s[i] == s[1..][i - 1];
      if s[0] <= m then s[0] else m
  }

  function SeqMax(s: seq<real>): (m: real)
    requires |s| > 0
    ensures forall i :: 0 <= i < |s| ==> s[i] <= m
    ensures exists i :: 0 <= i < |s| && m == s[i]
  {
    if |s| == 1 then s[0]
    else
      var m := SeqMax(s[1..]);
      assert forall i :: 1 <= i < |s| ==> s[i] == s[1..][i - 1];
      if s[0] >= m then s[0] else m
  }

  /** `max(abs(min), abs(max))`: the largest magnitude of any sample. */
  function MaxDeviation(s: seq<real>): (d: real)
    requires |s| > 0
    ensures forall i :: 0 <= i < |s| ==> Abs(s[i]) <= d
    ensures exists i :: 0 <= i < |s| && Abs(s[i]) == d
  {
    var lo := SeqMin(s);
    var hi := SeqMax(s);
    Max(Abs(lo), Abs(hi))
  }

  /** The samples of the calibration pulse: `np.arange(0, dc, 1/rate)`
      ones, with the first two and the last two set to zero. */
  function PulseLength(dc: real, rate: real): (n: nat)
    requires rate > 0.0
    ensures dc <= 0.0 ==> n == 0
    ensures dc > 0.0 ==> (n as real) - 1.0 < dc * rate <= n as real
  {
    if dc <= 0.0 then 0 else Ceil(dc * rate)
  }

  function Pulse(n: nat): (p: seq<real>)
    ensures |p| == n
    ensures forall i :: 0 <= i < n ==> p[i] == (if i < 2 || i >= n - 2 then 0.0 else 1.0)
  {
    seq(n, i requires 0 <= i < n => if i < 2 || i >= n - 2 then 0.0 else 1.0)
  }

  /** The unclamped box height: twice the largest deviation plus the
      margin, but never below the minimum. */
  function BoxHeight(deviation: real, margin: real, minHeight: real): (h: real)
    ensures h >= minHeight && h >= 2.0 * (deviation + margin)
    ensures h == minHeight || h == 2.0 * (deviation + margin)
  {
    Max(2.0 * (deviation + margin), minHeight)
  }

  /** A box in data coordinates. */
  datatype DataBox = DataBox(xMin: real, xMax: real, yMin: real, yMax: real)

  /** The lead box: the cell's horizontal span, and vertically the box of
      height `BoxHeight` centred on the row, clamped to `[yLo, yHi]`. */
  function LeadBox(samples: seq<real>, xMin: real, xMax: real, yCentre: real,
                   margin: real, minHeight: real, yLo: real, yHi: real): (b: DataBox)
    requires |samples| > 0
    ensures b.xMin == xMin && b.xMax == xMax
    ensures yLo <= b.yMin && b.yMax <= yHi
    ensures var h := BoxHeight(MaxDeviation(samples), margin, minHeight);
            b.yMin == Max(yLo, yCentre - h / 2.0) && b.yMax == Min(yHi, yCentre + h / 2.0)
  {
    var h := BoxHeight(MaxDeviation(samples), margin, minHeight);
    DataBox(xMin, xMax, Max(yLo, yCentre - h / 2.0), Min(yHi, yCentre + h / 2.0))
  }

  /** With a non-negative margin the unclamped box holds every plotted
      sample `yCentre + v`, and clamping keeps those inside the axes. */
  lemma LeadBoxCoversTrace(samples: seq<real>, xMin: real, xMax: real, yCentre: real,
                           margin: real, minHeight: real, yLo: real, yHi: real, i: nat)
    requires |samples| > 0 && margin >= 0.0 && i < |samples|
    requires yLo <= yCentre + samples[i] <= yHi
    ensures var b := LeadBox(samples, xMin, xMax, yCentre, margin, minHeight, yLo, yHi);
            b.yMin <= yCentre + samples[i] <= b.yMax
  {
    var d := MaxDeviation(samples);
    assert Abs(samples[i]) <= d;
  }

  /** A centre on the axes gives a non-empty clamped interval around it. */
  lemma LeadBoxAroundCentre(samples: seq<real>, xMin: real, xMax: real, yCentre: real,
                            margin: real, minHeight: real, yLo: real, yHi: real)
    requires |samples| > 0 && margin >= 0.0 && yLo <= yCentre <= yHi
    ensures var b := LeadBox(samples, xMin, xMax, yCentre, margin, minHeight, yLo, yHi);
            b.yMin <= yCentre <= b.yMax
  {
    var d := MaxDeviation(samples);
    assert Abs(samples[0]) <= d;
  }

  /** `ax.transData`: an increasing affine map on each axis. */
  datatype Affine = Affine(sx: real, tx: real, sy: real, ty: real)

  predicate Increasing(t: Affine) { t.sx > 0.0 && t.sy > 0.0 }

  function DisplayX(t: Affine, x: real): real { t.sx * x + t.tx }
  function DisplayY(t: Affine, y: real): real { t.sy * y + t.ty }

  /** The four corners `{0: top-left, 1: top-right, 2: bottom-right,
      3: bottom-left}` as `[y, x]` pixels; image rows count down from the
      top, so the top row comes from the box's upper data edge. */
  function Corners(t: Affine, canvasHeight: int, b: DataBox): (c: seq<Corner>)
    ensures |c| == 4
    ensures c[0].0 == c[1].0 && c[2].0 == c[3].0 && c[0].1 == c[3].1 && c[1].1 == c[2].1
    ensures c[0].0 == Trunc(canvasHeight as real - DisplayY(t, b.yMax))
    ensures c[2].0 == Trunc(canvasHeight as real - DisplayY(t, b.yMin))
    ensures c[0].1 == Trunc(DisplayX(t, b.xMin)) && c[1].1 == Trunc(DisplayX(t, b.xMax))
  {
    var yMinImage := canvasHeight as real - DisplayY(t, b.yMax);
    var yMaxImage := canvasHeight as real - DisplayY(t, b.yMin);
    var xMinPx := DisplayX(t, b.xMin);
    var xMaxPx := DisplayX(t, b.xMax);
    [(Trunc(yMinImage), Trunc(xMinPx)), (Trunc(yMinImage), Trunc(xMaxPx)),
     (Trunc(yMaxImage), Trunc(xMaxPx)), (Trunc(yMaxImage), Trunc(xMinPx))]
  }

  /** For a box with ordered edges corner 0 is the top-left one and corner
      2 the bottom-right one in image coordinates. */
  lemma CornersOrdered(t: Affine, canvasHeight: int, b: DataBox)
    requires Increasing(t) && b.xMin <= b.xMax && b.yMin <= b.yMax
    ensures var c := Corners(t, canvasHeight, b);
            c[0].0 <= c[2].0 && c[0].1 <= c[1].1
  {
    assert t.sx * b.xMin <= t.sx * b.xMax;
    assert t.sy * b.yMin <= t.sy * b.yMax;
    TruncMonotone(DisplayX(t, b.xMin), DisplayX(t, b.xMax));
    TruncMonotone(canvasHeight as real - DisplayY(t, b.yMax), canvasHeight as real - DisplayY(t, b.yMin));
  }
}
