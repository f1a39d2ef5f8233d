/** `ecg_plot` in `ecg-image-generator/ecg_plot.py`: the page layout of
    one frame, where each lead's trace goes, and the JSON records with the
    lead bounding boxes, in realistic and in mask mode.

    Drawing itself (lines, text, grid, saving the image) is not modelled;
    what is modelled is every value the drawing and the JSON are computed
    from. The canvas size and `ax.transData` are inputs. */
module Plot {
  import opened Base
  import opened Windower
  import opened Layout

  /** `configs['layout_parameters']`: every key is optional. */
  datatype LayoutParams = LayoutParams(
    width: Option<real>, height: Option<real>,
    yGridSize: Option<real>, xGridSize: Option<real>,
    yGridInch: Option<real>, xGridInch: Option<real>,
    minBoxHeight: Option<real>, boxMargin: Option<real>, dcOffset: Option<real>)

  datatype Settings = Settings(paper: Paper, minBoxHeight: real, boxMargin: real, dcOffset: real)

  /** A configuration without `layout_parameters`. */
  const NoParams := LayoutParams(None, None, None, None, None, None, None, None, None)

  /** The defaults of lines 23-36 and 79. */
  function SettingsOf(lp: LayoutParams): (s: Settings)
    ensures s.paper.width == OrElse(lp.width, 11.0) && s.paper.height == OrElse(lp.height, 8.5)
    ensures s.boxMargin == OrElse(lp.boxMargin, 0.1) && s.minBoxHeight == OrElse(lp.minBoxHeight, 2.0)
    ensures s.dcOffset == OrElse(lp.dcOffset, 0.2)
    ensures lp == NoParams ==> ValidPaper(s.paper)
  {
    Settings(
      Paper(OrElse(lp.width, 11.0), OrElse(lp.height, 8.5),
            OrElse(lp.yGridSize, 0.5), OrElse(lp.xGridSize, 0.2),
            OrElse(lp.yGridInch, 5.0 / 25.4), OrElse(lp.xGridInch, 5.0 / 25.4)),
      OrElse(lp.minBoxHeight, 2.0), OrElse(lp.boxMargin, 0.1), OrElse(lp.dcOffset, 0.2))
  }

  /** The display switches a caller passes. */
  datatype Flags = Flags(showLeadName: bool, showGrid: bool, bbox: bool, showDcPulse: bool)

  /** The switches when `get_paper_ecg` makes its mask call: the
      defaults of the signature (line 9). */
  const MaskCallFlags := Flags(true, true, false, true)

  /** Mask mode switches off the grid, the lead names, the pulse and the
      boxes (lines 53-60); realistic mode keeps the caller's switches. */
  function Effective(f: Flags, maskMode: bool): (e: Flags)
    ensures maskMode ==> !e.showGrid && !e.showLeadName && !e.showDcPulse && !e.bbox
    ensures !maskMode ==> e == f
  {
    if maskMode then Flags(false, false, false, false) else f
  }

  /** `signal_x_shift` as written (line 84): computed from the switches
      after mask mode has turned the pulse off. */
  function SignalShiftAsWritten(e: Flags, dc: real): (shift: real)
    ensures shift == 0.0 || shift == dc
  {
    if e.showDcPulse then dc else 0.0
  }

  /** The mask pass that `get_paper_ecg` makes draws every trace `dc`
      seconds to the left of the realistic pass that showed the pulse, so
      mask and image disagree about where each trace is. */
  lemma MaskTraceMisaligned(f: Flags, dc: real)
    requires f.showDcPulse && dc > 0.0
    ensures SignalShiftAsWritten(Effective(MaskCallFlags, true), dc) + dc
            == SignalShiftAsWritten(Effective(f, false), dc)
  {
  }

  /** The shift as intended: it follows the pulse choice the caller made
      for the page, and mask mode only stops the pulse from being drawn. */
  function SignalShift(f: Flags, dc: real): (shift: real)
    ensures f.showDcPulse ==> shift == dc
    ensures !f.showDcPulse ==> shift == 0.0
    ensures shift == SignalShiftAsWritten(Effective(f, false), dc)
  {
    if f.showDcPulse then dc else 0.0
  }

  /** Where a trace is drawn: its first sample's x, its baseline and its
      duration in seconds. */
  datatype Trace = Trace(name: string, x0: real, baseline: real, duration: real)

  /** A lead entry of `json_dict["leads"]`. */
  datatype LeadEntry = LeadEntry(name: string, box: Option<seq<Corner>>)

  datatype PageJson = PageJson(width: int, height: int, leads: Option<seq<LeadEntry>>)

  datatype Canvas = Canvas(width: int, height: int, t: Affine)

  datatype Page = Page(geometry: Geometry, traces: seq<Trace>, json: Option<PageJson>, returned: (real, real))

  /** `NothingToPlot` is the early return for an empty frame; `Raises` a
      `ValueError` (the extreme of an empty sample list) or a `KeyError`
      (appending to a `"leads"` list never created). */
  datatype PlotOutcome = NothingToPlot | Drawn(page: Page) | Raises

  /** The samples a lead's box is measured on: the pulse, if one is drawn
      in front of it, then the signal. */
  function BoxSamples(withPulse: bool, pulseLength: nat, signal: seq<real>): (s: seq<real>)
    ensures |s| == (if withPulse then pulseLength else 0) + |signal|
    ensures s[|s| - |signal|..] == signal
  {
    (if withPulse then Pulse(pulseLength) else []) + signal
  }

  /** The data-space box of one grid lead (lines 117-133): it spans the
      cell from where the trace starts, and `None` stands for the error of
      measuring an empty sample list. */
  function CellBox(s: Settings, e: Flags, ecg: Frame, c: Cell, g: Geometry, secs: real,
                   rate: real, shift: real): (r: Option<DataBox>)
    requires c.name in ecg && rate > 0.0
    ensures r.None? <==> |BoxSamples(e.showDcPulse && c.column == 0, PulseLength(s.dcOffset, rate), ecg[c.name])| == 0
    ensures r.Some? ==> r.value.xMin == c.xOffset + g.xGap + shift && r.value.xMax == r.value.xMin + secs
    ensures r.Some? ==> 0.0 <= r.value.yMin && r.value.yMax <= g.yMax
  {
    var samples := BoxSamples(e.showDcPulse && c.column == 0, PulseLength(s.dcOffset, rate), ecg[c.name]);
    if |samples| == 0 then None
    else
      var xMin := c.xOffset + g.xGap + shift;
      Some(LeadBox(samples, xMin, xMin + secs, c.yCentre, s.boxMargin, s.minBoxHeight, 0.0, g.yMax))
  }

  /** The entry of one grid lead (lines 91-144); `None` when its box cannot
      be measured. */
  function CellEntry(s: Settings, e: Flags, ecg: Frame, c: Cell, g: Geometry, secs: real,
                     rate: real, shift: real, canvas: Canvas): (r: Option<LeadEntry>)
    requires c.name in ecg && rate > 0.0
    ensures r.Some? ==> r.value.name == c.name && (r.value.box.Some? <==> e.bbox)
    ensures e.bbox ==> (r.None? <==> CellBox(s, e, ecg, c, g, secs, rate, shift).None?)
  {
    if !e.bbox then Some(LeadEntry(c.name, None))
    else
      match CellBox(s, e, ecg, c, g, secs, rate, shift)
      case None => None
      case Some(b) => Some(LeadEntry(c.name, Some(Corners(canvas.t, canvas.height, b))))
  }

  predicate AllDrawn(ecg: Frame, cells: seq<Cell>) {
    forall k :: 0 <= k < |cells| ==> cells[k].name in ecg
  }

  /** The entries of all grid leads, or `None` if one of them raises. */
  function CellEntries(s: Settings, e: Flags, ecg: Frame, cells: seq<Cell>, g: Geometry, secs: real,
                       rate: real, shift: real, canvas: Canvas): (r: Option<seq<LeadEntry>>)
    requires AllDrawn(ecg, cells) && rate > 0.0
    ensures r.Some? ==> |r.value| == |cells|
    ensures r.Some? ==> forall k :: 0 <= k < |cells| ==>
              Some(r.value[k]) == CellEntry(s, e, ecg, cells[k], g, secs, rate, shift, canvas)
    ensures !e.bbox ==> r.Some?
  {
    if cells == [] then Some([])
    else
      var first := CellEntry(s, e, ecg, cells[0], g, secs, rate, shift, canvas);
      var rest := CellEntries(s, e, ecg, cells[1..], g, secs, rate, shift, canvas);
      if first.None? || rest.None? then None
      else
        var r := [first.value] + rest.value;
        assert forall k :: 1 <= k < |cells| ==> r[k] == rest.value[k - 1] && cells[k] == cells[1..][k - 1];
        Some(r)
  }

  /** The rhythm strip's data-space box (lines 169-187): it starts after
      the pulse when one is shown and spans the strip's duration. */
  function RhythmBox(s: Settings, e: Flags, signal: seq<real>, y: real, g: Geometry, rate: real): (r: Option<DataBox>)
    requires rate > 0.0
    ensures r.None? <==> |BoxSamples(e.showDcPulse, PulseLength(s.dcOffset, rate), signal)| == 0
    ensures r.Some? ==> r.value.xMin == g.xGap + (if e.showDcPulse then s.dcOffset else 0.0)
                        && r.value.xMax == r.value.xMin + |signal| as real / rate
    ensures r.Some? ==> 0.0 <= r.value.yMin && r.value.yMax <= g.yMax
  {
    var samples := BoxSamples(e.showDcPulse, PulseLength(s.dcOffset, rate), signal);
    if |samples| == 0 then None
    else
      var xMin := g.xGap + (if e.showDcPulse then s.dcOffset else 0.0);
      Some(LeadBox(samples, xMin, xMin + |signal| as real / rate, y, s.boxMargin, s.minBoxHeight, 0.0, g.yMax))
  }

  /** The rhythm strip's entry (lines 150-198). */
  function RhythmEntry(s: Settings, e: Flags, fullMode: string, signal: seq<real>, y: real, g: Geometry,
                       rate: real, canvas: Canvas): (r: Option<LeadEntry>)
    requires rate > 0.0
    ensures r.Some? ==> r.value.name == fullMode && (r.value.box.Some? <==> e.bbox)
    ensures e.bbox ==> (r.None? <==> RhythmBox(s, e, signal, y, g, rate).None?)
  {
    if !e.bbox then Some(LeadEntry(fullMode, None))
    else
      match RhythmBox(s, e, signal, y, g, rate)
      case None => None
      case Some(b) => Some(LeadEntry(fullMode, Some(Corners(canvas.t, canvas.height, b))))
  }

  function CellTraces(ecg: Frame, cells: seq<Cell>, xGap: real, shift: real, rate: real): (r: seq<Trace>)
    requires AllDrawn(ecg, cells) && rate > 0.0
    ensures |r| == |cells|
    ensures forall k :: 0 <= k < |cells| ==>
              r[k] == Trace(cells[k].name, cells[k].xOffset + xGap + shift, cells[k].yCentre,
                            |ecg[cells[k].name]| as real / rate)
  {
    seq(|cells|, k requires 0 <= k < |cells| =>
      Trace(cells[k].name, cells[k].xOffset + xGap + shift, cells[k].yCentre, |ecg[cells[k].name]| as real / rate))
  }

  /** The cells of a frame's leads, stacked from the first row centre. */
  function PageCells(ecg: Frame, leadIndex: seq<string>, columns: int, secs: real, g: Geometry): (cells: seq<Cell>)
    requires columns >= 1
    ensures AllDrawn(ecg, cells)
  {
    var cells := Stack(ecg, leadIndex, columns, secs, g.rowHeight, FirstCentre(g.rows, g.rowHeight), 0);
    StackCells(ecg, leadIndex, columns, secs, g.rowHeight, FirstCentre(g.rows, g.rowHeight), 0);
    assert forall k :: 0 <= k < |cells| ==> PlacedAt(ecg, leadIndex, columns, secs, cells[k]);
    cells
  }

  /** The rhythm row's centre: one row below the last lead row. */
  function RhythmCentre(ecg: Frame, leadIndex: seq<string>, columns: int, g: Geometry): real
    requires columns >= 1
  {
    CentreAfter(ecg, leadIndex, columns, g.rowHeight, FirstCentre(g.rows, g.rowHeight), 0) - g.rowHeight
  }

  /** What the layout of a frame is computed from, shared by both passes. */
  datatype Plan = Plan(settings: Settings, geometry: Geometry, cells: seq<Cell>, rhythmY: real, shift: real)

  function PlanFrom(s: Settings, ecg: Frame, columns: int, leadIndex: seq<string>, fullMode: string,
                    f: Flags, secs: real): (p: Plan)
    requires columns >= 1 && ValidPaper(s.paper)
    ensures p.settings == s && AllDrawn(ecg, p.cells)
    ensures p.geometry.rows == CeilDiv(|leadIndex|, columns) + (if RhythmKey(fullMode) in ecg then 1 else 0)
  {
    var g := PageGeometry(s.paper, |leadIndex|, columns, secs, RhythmKey(fullMode) in ecg);
    Plan(s, g, PageCells(ecg, leadIndex, columns, secs, g), RhythmCentre(ecg, leadIndex, columns, g),
         SignalShift(f, s.dcOffset))
  }

  function PlanOf(ecg: Frame, lp: LayoutParams, columns: int, leadIndex: seq<string>, fullMode: string,
                  f: Flags, secs: real): (p: Plan)
    requires columns >= 1 && ValidPaper(SettingsOf(lp).paper)
    ensures AllDrawn(ecg, p.cells)
  {
    PlanFrom(SettingsOf(lp), ecg, columns, leadIndex, fullMode, f, secs)
  }

  function OptionSeq<T>(o: Option<T>): (r: seq<T>)
    ensures |r| == (if o.Some? then 1 else 0)
  {
    if o.Some? then [o.value] else []
  }

  /** The appends to `json_dict["leads"]`: the lead loop sets it to the
      prior list (or `[]`) plus the entries when it draws at least one lead;
      the rhythm append needs the list to exist. `None` is the `KeyError`. */
  function AppendLeads(prior: Option<seq<LeadEntry>>, entries: seq<LeadEntry>, rhythm: Option<LeadEntry>)
    : (r: Option<Option<seq<LeadEntry>>>)
    ensures r.None? <==> rhythm.Some? && entries == [] && prior.None?
    ensures r.Some? && prior.None? ==>
              (r.value.Some? <==> |entries| + |OptionSeq(rhythm)| > 0)
              && (r.value.Some? ==> r.value.value == entries + OptionSeq(rhythm))
    ensures r.Some? && prior.Some? ==> r.value == Some(prior.value + entries + OptionSeq(rhythm))
  {
    var afterLoop := if |entries| > 0 then Some(OrElse(prior, []) + entries) else prior;
    assert prior.Some? && entries == [] ==> prior.value + entries == prior.value;
    assert afterLoop.Some? ==> afterLoop.value + OptionSeq(None) == afterLoop.value;
    if rhythm.Some? && afterLoop.None? then None
    else Some(if rhythm.Some? then Some(afterLoop.value + [rhythm.value]) else afterLoop)
  }

  /** The page drawn from a plan: the lead traces at the plan's shift, the
      rhythm trace at `rhythmX`, and the entries under the switches in
      effect. Shared by both revisions, as written and corrected. */
  function Render(ecg: Frame, p: Plan, rate: real, secs: real, fullMode: string, e: Flags, rhythmX: real,
                  maskMode: bool, canvas: Canvas, prior: Option<seq<LeadEntry>>): (r: PlotOutcome)
    requires rate > 0.0 && AllDrawn(ecg, p.cells)
    ensures !r.NothingToPlot?
    ensures r.Drawn? ==> r.page.geometry == p.geometry && r.page.returned == (1.0, 1.0)
    ensures r.Drawn? ==> |r.page.traces| == |p.cells| + (if RhythmKey(fullMode) in ecg then 1 else 0)
    ensures r.Drawn? && maskMode ==> r.page.json.None?
    ensures r.Drawn? && !maskMode ==>
              r.page.json.Some? && r.page.json.value.width == canvas.width && r.page.json.value.height == canvas.height
  {
    var g := p.geometry;
    var hasRhythm := RhythmKey(fullMode) in ecg;
    var traces := CellTraces(ecg, p.cells, g.xGap, p.shift, rate)
      + (if hasRhythm
         then [Trace(fullMode, rhythmX, p.rhythmY, |ecg[RhythmKey(fullMode)]| as real / rate)]
         else []);
    var entries := CellEntries(p.settings, e, ecg, p.cells, g, secs, rate, p.shift, canvas);
    var rhythm := if hasRhythm then RhythmEntry(p.settings, e, fullMode, ecg[RhythmKey(fullMode)], p.rhythmY, g, rate, canvas)
                  else None;
    if entries.None? || (hasRhythm && rhythm.None?) then Raises
    else if maskMode then Drawn(Page(g, traces, None, (1.0, 1.0)))
    else
      var leads := AppendLeads(prior, entries.value, rhythm);
      if leads.None? then Raises
      else Drawn(Page(g, traces, Some(PageJson(canvas.width, canvas.height, leads.value)), (1.0, 1.0)))
  }

  /** `ecg_plot` of the newer revision as written: `signal_x_shift` comes
      from the switches after mask mode has turned the pulse off, so every
      mask-mode trace starts at its cell's `x_gap`. `prior` is the
      `"leads"` list `json_dict` already holds, if any. */
  function EcgPlot(ecg: Frame, lp: LayoutParams, rate: real, columns: int, leadIndex: seq<string>,
                   fullMode: string, f: Flags, secs: real, maskMode: bool, canvas: Canvas,
                   prior: Option<seq<LeadEntry>>): (r: PlotOutcome)
    requires rate > 0.0 && columns >= 1 && ValidPaper(SettingsOf(lp).paper)
    ensures r.NothingToPlot? <==> ecg == map[]
    ensures r.Drawn? ==> r.page.returned == (1.0, 1.0)
    ensures r.Drawn? && maskMode ==> r.page.json.None?
    ensures r.Drawn? && maskMode && RhythmKey(fullMode) in ecg ==>
              |r.page.traces| > 0 && r.page.traces[|r.page.traces| - 1].x0 == r.page.geometry.xGap
    ensures r.Drawn? && !maskMode ==>
              r.page.json.Some? && r.page.json.value.width == canvas.width && r.page.json.value.height == canvas.height
  {
    if ecg == map[] then NothingToPlot
    else
      var e := Effective(f, maskMode);
      var p := PlanOf(ecg, lp, columns, leadIndex, fullMode, e, secs);
      Render(ecg, p, rate, secs, fullMode, e, p.geometry.xGap + p.shift, maskMode, canvas, prior)
  }

  /** `ecg_plot` with `signal_x_shift` as intended (`SignalShift`): the
      shift follows the caller's pulse choice in both modes. */
  function EcgPlotCorrected(ecg: Frame, lp: LayoutParams, rate: real, columns: int, leadIndex: seq<string>,
                            fullMode: string, f: Flags, secs: real, maskMode: bool, canvas: Canvas,
                            prior: Option<seq<LeadEntry>>): (r: PlotOutcome)
    requires rate > 0.0 && columns >= 1 && ValidPaper(SettingsOf(lp).paper)
    ensures r.NothingToPlot? <==> ecg == map[]
    ensures r.Drawn? ==> r.page.returned == (1.0, 1.0)
    ensures r.Drawn? && maskMode ==> r.page.json.None?
    ensures r.Drawn? && !maskMode ==>
              r.page.json.Some? && r.page.json.value.width == canvas.width && r.page.json.value.height == canvas.height
  {
    if ecg == map[] then NothingToPlot
    else
      var p := PlanOf(ecg, lp, columns, leadIndex, fullMode, f, secs);
      Render(ecg, p, rate, secs, fullMode, Effective(f, maskMode), p.geometry.xGap + p.shift, maskMode, canvas, prior)
  }

  /** The correction only moves mask-mode traces: in realistic mode the
      code as written draws the corrected page. */
  lemma RealisticAsCorrected(ecg: Frame, lp: LayoutParams, rate: real, columns: int, leadIndex: seq<string>,
                             fullMode: string, f: Flags, secs: real, canvas: Canvas, prior: Option<seq<LeadEntry>>)
    requires rate > 0.0 && columns >= 1 && ValidPaper(SettingsOf(lp).paper)
    ensures EcgPlot(ecg, lp, rate, columns, leadIndex, fullMode, f, secs, false, canvas, prior)
         == EcgPlotCorrected(ecg, lp, rate, columns, leadIndex, fullMode, f, secs, false, canvas, prior)
  {
  }

  /** As written, the mask pass ignores the caller's switches altogether. */
  lemma MaskIgnoresSwitches(ecg: Frame, lp: LayoutParams, rate: real, columns: int, leadIndex: seq<string>,
                            fullMode: string, f: Flags, f': Flags, secs: real, canvas: Canvas,
                            prior: Option<seq<LeadEntry>>)
    requires rate > 0.0 && columns >= 1 && ValidPaper(SettingsOf(lp).paper)
    ensures EcgPlot(ecg, lp, rate, columns, leadIndex, fullMode, f, secs, true, canvas, prior)
         == EcgPlot(ecg, lp, rate, columns, leadIndex, fullMode, f', secs, true, canvas, prior)
  {
  }

  /** Mask mode never raises: without boxes and without JSON nothing can
      fail once the frame is non-empty. */
  lemma MaskNeverRaises(ecg: Frame, lp: LayoutParams, rate: real, columns: int, leadIndex: seq<string>,
                        fullMode: string, f: Flags, secs: real, canvas: Canvas, prior: Option<seq<LeadEntry>>)
    requires rate > 0.0 && columns >= 1 && ValidPaper(SettingsOf(lp).paper)
    ensures !EcgPlot(ecg, lp, rate, columns, leadIndex, fullMode, f, secs, true, canvas, prior).Raises?
    ensures !EcgPlotCorrected(ecg, lp, rate, columns, leadIndex, fullMode, f, secs, true, canvas, prior).Raises?
  {
    if ecg != map[] {
      var e := Effective(f, true);
      var p := PlanOf(ecg, lp, columns, leadIndex, fullMode, e, secs);
      assert CellEntries(p.settings, e, ecg, p.cells, p.geometry, secs, rate, p.shift, canvas).Some?;
      var q := PlanOf(ecg, lp, columns, leadIndex, fullMode, f, secs);
      assert CellEntries(q.settings, e, ecg, q.cells, q.geometry, secs, rate, q.shift, canvas).Some?;
    }
  }

  /** The two passes `get_paper_ecg` makes (lines 178 and 196-209): the
      realistic one with the frame's switches, the mask one with the
      signature's defaults. Both compute the same layout, but the traces
      coincide exactly when there are none or the realistic pass put no
      pulse in front of them. */
  lemma PassesAgree(ecg: Frame, lp: LayoutParams, rate: real, columns: int, leadIndex: seq<string>,
                    fullMode: string, f: Flags, secs: real, canvas: Canvas, prior: Option<seq<LeadEntry>>)
    requires rate > 0.0 && columns >= 1 && ValidPaper(SettingsOf(lp).paper)
    requires EcgPlot(ecg, lp, rate, columns, leadIndex, fullMode, f, secs, false, canvas, prior).Drawn?
    ensures var mask := EcgPlot(ecg, lp, rate, columns, leadIndex, fullMode, MaskCallFlags, secs, true, canvas, prior);
            var realistic := EcgPlot(ecg, lp, rate, columns, leadIndex, fullMode, f, secs, false, canvas, prior);
            mask.Drawn? && mask.page.geometry == realistic.page.geometry
            && (mask.page.traces == realistic.page.traces <==>
                  realistic.page.traces == [] || !f.showDcPulse || SettingsOf(lp).dcOffset == 0.0)
  {
    MaskNeverRaises(ecg, lp, rate, columns, leadIndex, fullMode, MaskCallFlags, secs, canvas, prior);
    var dc := SettingsOf(lp).dcOffset;
    var pm := PlanOf(ecg, lp, columns, leadIndex, fullMode, Effective(MaskCallFlags, true), secs);
    var pr := PlanOf(ecg, lp, columns, leadIndex, fullMode, f, secs);
    var mask := EcgPlot(ecg, lp, rate, columns, leadIndex, fullMode, MaskCallFlags, secs, true, canvas, prior);
    var realistic := EcgPlot(ecg, lp, rate, columns, leadIndex, fullMode, f, secs, false, canvas, prior);
    assert pm.shift == 0.0 && pr.shift == SignalShift(f, dc);
    assert pm.cells == pr.cells && pm.geometry == pr.geometry && pm.rhythmY == pr.rhythmY;
    if realistic.page.traces != [] && f.showDcPulse && dc != 0.0 {
      assert mask.page.traces[0].x0 + dc == realistic.page.traces[0].x0;
    }
  }

  /** With the shift corrected, and the mask call given the frame's own
      switches, the two passes compute the same layout and put every trace
      in the same place. */
  lemma PassesAgreeCorrected(ecg: Frame, lp: LayoutParams, rate: real, columns: int, leadIndex: seq<string>,
                             fullMode: string, f: Flags, secs: real, canvas: Canvas, prior: Option<seq<LeadEntry>>)
    requires rate > 0.0 && columns >= 1 && ValidPaper(SettingsOf(lp).paper)
    requires EcgPlotCorrected(ecg, lp, rate, columns, leadIndex, fullMode, f, secs, false, canvas, prior).Drawn?
    ensures var mask := EcgPlotCorrected(ecg, lp, rate, columns, leadIndex, fullMode, f, secs, true, canvas, prior);
            var realistic := EcgPlotCorrected(ecg, lp, rate, columns, leadIndex, fullMode, f, secs, false, canvas, prior);
            mask.Drawn? && mask.page.geometry == realistic.page.geometry && mask.page.traces == realistic.page.traces
  {
    MaskNeverRaises(ecg, lp, rate, columns, leadIndex, fullMode, f, secs, canvas, prior);
  }

  /** In realistic mode with a fresh `json_dict`, the JSON gets one entry
      per drawn lead, in `lead_index` order, then one for the rhythm strip;
      each carries a box exactly when boxes were asked for. */
  lemma RealisticEntries(ecg: Frame, lp: LayoutParams, rate: real, columns: int, leadIndex: seq<string>,
                         fullMode: string, f: Flags, secs: real, canvas: Canvas)
    requires rate > 0.0 && columns >= 1 && ValidPaper(SettingsOf(lp).paper)
    requires EcgPlot(ecg, lp, rate, columns, leadIndex, fullMode, f, secs, false, canvas, None).Drawn?
    ensures var leads := EcgPlot(ecg, lp, rate, columns, leadIndex, fullMode, f, secs, false, canvas, None).page.json.value.leads;
            var cells := PlanOf(ecg, lp, columns, leadIndex, fullMode, f, secs).cells;
            var n := |cells| + (if RhythmKey(fullMode) in ecg then 1 else 0);
            (leads.Some? <==> n > 0)
            && (leads.Some? ==>
                |leads.value| == n
                && (forall k :: 0 <= k < |cells| ==>
                      leads.value[k].name == cells[k].name && (leads.value[k].box.Some? <==> f.bbox))
                && (RhythmKey(fullMode) in ecg ==>
                      leads.value[n - 1].name == fullMode && (leads.value[n - 1].box.Some? <==> f.bbox)))
  {
    var p := PlanOf(ecg, lp, columns, leadIndex, fullMode, f, secs);
    var entries := CellEntries(p.settings, f, ecg, p.cells, p.geometry, secs, rate, p.shift, canvas);
    assert entries.Some?;
    forall k | 0 <= k < |p.cells|
      ensures entries.value[k].name == p.cells[k].name && (entries.value[k].box.Some? <==> f.bbox)
    {
      assert Some(entries.value[k]) == CellEntry(p.settings, f, ecg, p.cells[k], p.geometry, secs, rate, p.shift, canvas);
    }
  }

  /** A grid lead's box starts where its trace starts. */
  lemma CellBoxAtTrace(s: Settings, f: Flags, ecg: Frame, c: Cell, g: Geometry, secs: real,
                       rate: real, canvas: Canvas)
    requires c.name in ecg && rate > 0.0 && f.bbox
    requires CellEntry(s, f, ecg, c, g, secs, rate, SignalShift(f, s.dcOffset), canvas).Some?
    ensures var box := CellEntry(s, f, ecg, c, g, secs, rate, SignalShift(f, s.dcOffset), canvas).value.box.value;
            |box| == 4 && box[0].1 == box[3].1
            && box[0].1 == Trunc(DisplayX(canvas.t, c.xOffset + g.xGap + SignalShift(f, s.dcOffset)))
  {
  }

  /** The rhythm strip's box starts where its trace starts, `x_gap` plus
      the page's shift. */
  lemma RhythmBoxAtTrace(s: Settings, f: Flags, fullMode: string, signal: seq<real>, y: real, g: Geometry,
                         rate: real, canvas: Canvas)
    requires rate > 0.0 && f.bbox
    requires RhythmEntry(s, f, fullMode, signal, y, g, rate, canvas).Some?
    ensures var box := RhythmEntry(s, f, fullMode, signal, y, g, rate, canvas).value.box.value;
            |box| == 4 && box[0].1 == box[3].1
            && box[0].1 == Trunc(DisplayX(canvas.t, g.xGap + SignalShift(f, s.dcOffset)))
  {
  }
}
