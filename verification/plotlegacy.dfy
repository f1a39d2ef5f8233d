/** The earlier revision of `ecg_plot`
    (`codes/code-image-generator/ecg_plot.py`): the same page layout and
    bounding boxes, but from the module constant `standard_values` instead
    of the configuration, a single colour set, no mask mode, and the JSON
    always written. */
module PlotLegacy {
  import opened Base
  import opened Text
  import opened Windower
  import opened Layout
  import opened Plot

  /** The numeric entries of `standard_values` (lines 10-17). */
  const StandardValues: map<string, real> := map[
    "y_grid_size" := 0.5, "x_grid_size" := 0.2, "y_grid_inch" := 5.0 / 25.4, "x_grid_inch" := 5.0 / 25.4,
    "grid_line_width" := 0.5, "lead_name_offset" := 0.5, "lead_fontsize" := 11.0, "x_gap" := 1.0,
    "y_gap" := 0.5, "display_factor" := 1.0, "line_width" := 0.75, "row_height" := 8.0,
    "dc_offset_length" := 0.2, "lead_length" := 2.5, "width" := 11.0, "height" := 8.5,
    "min_bbox_height_mv" := 2.0, "bbox_vertical_margin_mv" := 0.1]

  /** `dict.get(key, default)`. */
  function Get(m: map<string, real>, key: string, default: real): (v: real)
    ensures key in m ==> v == m[key]
    ensures key !in m ==> v == default
  {
    if key in m then m[key] else default
  }

  /** The settings the older revision reads: subscripts for the paper and
      the pulse (lines 31-33, 52), `.get` with fallbacks for the box
      (lines 95, 97). */
  function LegacySettings(): (s: Settings)
    ensures s.minBoxHeight == 2.0 && s.boxMargin == 0.1
    ensures s == SettingsOf(NoParams)
  {
    Settings(
      Paper(StandardValues["width"], StandardValues["height"],
            StandardValues["y_grid_size"], StandardValues["x_grid_size"],
            StandardValues["y_grid_inch"], StandardValues["x_grid_inch"]),
      Get(StandardValues, "min_bbox_height_mv", 1.0),
      Get(StandardValues, "bbox_vertical_margin_mv", 0.1),
      StandardValues["dc_offset_length"])
  }

  /** The older revision's constants are the newer revision's defaults, so
      a configuration without `layout_parameters` gives the same page. */
  lemma LegacySettingsAreDefaults()
    ensures LegacySettings() == SettingsOf(NoParams)
    ensures ValidPaper(LegacySettings().paper)
  {
    var s := LegacySettings();
    assert s.paper.yGridInch > 0.0;
  }

  /** The colour tables (lines 18-19) hold only `colour5`. */
  const StandardMajorColours: map<string, (real, real, real)> := map["colour5" := (1.0, 0.0, 0.0)]
  const StandardMinorColours: map<string, (real, real, real)> := map["colour5" := (0.996, 0.8745, 0.8588)]

  function ColourKey(n: int): string { "colour" + IntToString(n) }

  /** The colour lookup of line 42 succeeds exactly for `standard_colours == 5`. */
  lemma ColourDefinedIff(n: int)
    ensures ColourKey(n) in StandardMajorColours <==> n == 5
    ensures ColourKey(n) in StandardMinorColours <==> n == 5
  {
    if ColourKey(n) == "colour5" {
      assert IntToString(n) == ColourKey(n)[6..];
      assert IntToString(5) == "5";
      IntToStringInjective(n, 5);
    }
  }

  /** Where the rhythm trace starts as written (line 141): always after the
      pulse's width, whether or not the pulse is drawn. */
  function RhythmTraceXAsWritten(g: Geometry, s: Settings, f: Flags): (x: real)
    ensures x - g.xGap == s.dcOffset
  {
    g.xGap + s.dcOffset
  }

  /** Without the pulse, the rhythm trace is drawn `dc_offset_length` to
      the right of its own bounding box (line 144). */
  lemma RhythmTraceOutsideBox(g: Geometry, f: Flags, signal: seq<real>, y: real, rate: real)
    requires !f.showDcPulse && |signal| > 0 && rate > 0.0
    ensures var b := RhythmBox(LegacySettings(), f, signal, y, g, rate);
            b.Some? && RhythmTraceXAsWritten(g, LegacySettings(), f) == b.value.xMin + 0.2
  {
  }

  /** The rhythm trace as intended: shifted like every other trace, by the
      pulse's width only when the pulse is shown. */
  function RhythmTraceX(g: Geometry, s: Settings, f: Flags): (x: real)
    ensures f.showDcPulse ==> x == RhythmTraceXAsWritten(g, s, f)
    ensures !f.showDcPulse ==> x == g.xGap
  {
    g.xGap + SignalShift(f, s.dcOffset)
  }

  /** With the corrected start the rhythm box begins where its trace does,
      with or without the pulse. */
  lemma RhythmTraceInBox(g: Geometry, f: Flags, signal: seq<real>, y: real, rate: real)
    requires rate > 0.0
    requires RhythmBox(LegacySettings(), f, signal, y, g, rate).Some?
    ensures RhythmBox(LegacySettings(), f, signal, y, g, rate).value.xMin == RhythmTraceX(g, LegacySettings(), f)
  {
  }

  /** The page of the older `ecg_plot` with its rhythm trace at the start
      `rhythmX` computes; the colour lookup of line 42 raises for any
      colour set but 5. */
  function LegacyPage(ecg: Frame, rate: real, columns: int, leadIndex: seq<string>, fullMode: string,
                      f: Flags, secs: real, colour: int, canvas: Canvas, prior: Option<seq<LeadEntry>>,
                      rhythmX: (Geometry, Settings, Flags) -> real): (r: PlotOutcome)
    requires rate > 0.0 && columns >= 1
    ensures r.NothingToPlot? <==> ecg == map[]
    ensures ecg != map[] && colour != 5 ==> r.Raises?
    ensures r.Drawn? ==> r.page.returned == (1.0, 1.0) && r.page.json.Some?
                         && r.page.json.value.width == canvas.width && r.page.json.value.height == canvas.height
  {
    ColourDefinedIff(colour);
    if ecg == map[] then NothingToPlot
    else if ColourKey(colour) !in StandardMajorColours then Raises
    else
      LegacySettingsAreDefaults();
      var p := PlanFrom(LegacySettings(), ecg, columns, leadIndex, fullMode, f, secs);
      Render(ecg, p, rate, secs, fullMode, f, rhythmX(p.geometry, p.settings, f), false, canvas, prior)
  }

  /** The older `ecg_plot` as written, with the rhythm trace at
      `RhythmTraceXAsWritten`. */
  function EcgPlotLegacy(ecg: Frame, rate: real, columns: int, leadIndex: seq<string>, fullMode: string,
                         f: Flags, secs: real, colour: int, canvas: Canvas,
                         prior: Option<seq<LeadEntry>>): (r: PlotOutcome)
    requires rate > 0.0 && columns >= 1
    ensures r.NothingToPlot? <==> ecg == map[]
    ensures ecg != map[] && colour != 5 ==> r.Raises?
    ensures r.Drawn? ==> r.page.returned == (1.0, 1.0) && r.page.json.Some?
                         && r.page.json.value.width == canvas.width && r.page.json.value.height == canvas.height
    ensures r.Drawn? && RhythmKey(fullMode) in ecg ==>
              |r.page.traces| > 0 && r.page.traces[|r.page.traces| - 1].x0 == r.page.geometry.xGap + 0.2
  {
    LegacyPage(ecg, rate, columns, leadIndex, fullMode, f, secs, colour, canvas, prior, RhythmTraceXAsWritten)
  }

  /** The older `ecg_plot` with the rhythm trace at the corrected
      `RhythmTraceX`. */
  function EcgPlotLegacyCorrected(ecg: Frame, rate: real, columns: int, leadIndex: seq<string>, fullMode: string,
                                  f: Flags, secs: real, colour: int, canvas: Canvas,
                                  prior: Option<seq<LeadEntry>>): (r: PlotOutcome)
    requires rate > 0.0 && columns >= 1
    ensures r.NothingToPlot? <==> ecg == map[]
    ensures ecg != map[] && colour != 5 ==> r.Raises?
    ensures r.Drawn? ==> r.page.returned == (1.0, 1.0) && r.page.json.Some?
                         && r.page.json.value.width == canvas.width && r.page.json.value.height == canvas.height
  {
    LegacyPage(ecg, rate, columns, leadIndex, fullMode, f, secs, colour, canvas, prior, RhythmTraceX)
  }

  /** With the one defined colour set, the older revision as written draws
      what the newer one draws in realistic mode from a configuration
      without `layout_parameters` (the same rows, row height, `x_gap`, row
      stacking, lead traces, boxes and JSON), except that its rhythm trace
      moves exactly when no pulse is shown. */
  lemma LegacyAgreesWithNewer(ecg: Frame, rate: real, columns: int, leadIndex: seq<string>, fullMode: string,
                              f: Flags, secs: real, canvas: Canvas, prior: Option<seq<LeadEntry>>)
    requires rate > 0.0 && columns >= 1
    ensures ValidPaper(SettingsOf(NoParams).paper)
    ensures var older := EcgPlotLegacy(ecg, rate, columns, leadIndex, fullMode, f, secs, 5, canvas, prior);
            var newer := EcgPlot(ecg, NoParams, rate, columns, leadIndex, fullMode, f, secs, false, canvas, prior);
            older.Drawn? == newer.Drawn?
            && (!older.Drawn? ==> older == newer)
            && (older.Drawn? ==>
                  older.page.geometry == newer.page.geometry && older.page.json == newer.page.json
                  && (older == newer <==> RhythmKey(fullMode) !in ecg || f.showDcPulse))
  {
    LegacySettingsAreDefaults();
    ColourDefinedIff(5);
    var older := EcgPlotLegacy(ecg, rate, columns, leadIndex, fullMode, f, secs, 5, canvas, prior);
    var newer := EcgPlot(ecg, NoParams, rate, columns, leadIndex, fullMode, f, secs, false, canvas, prior);
    if older.Drawn? && RhythmKey(fullMode) in ecg && !f.showDcPulse {
      var n := |older.page.traces| - 1;
      assert older.page.traces[n].x0 == newer.page.traces[n].x0 + 0.2;
    }
  }

  /** With the corrected rhythm start the two revisions draw the same page
      in every case. */
  lemma LegacyCorrectedAgreesWithNewer(ecg: Frame, rate: real, columns: int, leadIndex: seq<string>, fullMode: string,
                                       f: Flags, secs: real, canvas: Canvas, prior: Option<seq<LeadEntry>>)
    requires rate > 0.0 && columns >= 1
    ensures ValidPaper(SettingsOf(NoParams).paper)
    ensures EcgPlotLegacyCorrected(ecg, rate, columns, leadIndex, fullMode, f, secs, 5, canvas, prior)
            == EcgPlot(ecg, NoParams, rate, columns, leadIndex, fullMode, f, secs, false, canvas, prior)
  {
    LegacySettingsAreDefaults();
    ColourDefinedIff(5);
  }
}
