# ECG image pipeline: a Dafny model of its arithmetic core

This project models the core of an ECG research pipeline written in Python. The pipeline does the following:
- It turns WFDB recordings into synthetic paper-ECG images.
- It writes per-lead bounding boxes and masks.
- It converts the boxes to YOLO labels and scores detections against them.
- It crops the leads and prepares nnU-Net data sets.
- It measures segmentation masks and reconstructs signals from them.

Each driver models its script as written. Where verification showed a script to be wrong (see "## Findings"), a corrected member sits beside the one as written, and lemmas state where the two agree and give an input on which they differ. Python's integer truncation, `round`, floor division, slicing (negative indices included), `str.split`, `os.path.splitext` and `sorted` are modelled exactly. Everything the scripts read from disk or draw at random is a parameter: listings, file contents, existence tests, shuffles and `.rvs()` draws.

| file | module | what it models |
|---|---|---|
| base.dfy | Base | `Option`, Python `int()`, `round()`, `//`, `math.ceil`, slicing, ceil-division chunks, list comprehensions, shuffles as position lists |
| text.dfy | Text | `str.split`/`join`/`split()`/`upper`/`lower`/`replace`/`endswith`, `os.path.splitext`/`basename`/`join`, `str(int)`, `int()`/`float()` of tokens |
| strorder.dfy | StrOrder | Python's order on `str`, `sorted`, `sorted(set(...))` |
| header.dfy | WfdbHeader | `helper_functions.py`: the WFDB header readers, signal dictionary, lead-name normalisation |
| annotations.dfy | Annotations | `helper_functions.py`: bounding boxes to JSON dicts and back |
| windower.dfy | Windower | `extract_leads.py` (`get_paper_ecg`): lead selection, framing, output names |
| layout.dfy | Layout | the page and box geometry shared by both `ecg_plot` revisions |
| plot.dfy | Plot | `ecg-image-generator/ecg_plot.py`: realistic and mask passes |
| plotlegacy.dfy | PlotLegacy | `codes/code-image-generator/ecg_plot.py`, the earlier revision |
| boxes.dfy | Boxes | `convert_to_yolo.py` and `diagnose_json.py` |
| iou.dfy | Iou | `iou_metrics.py` and `calculate_iou` |
| matching.dfy | Matching | `evaluation.py`, `iou_calculation.py` and `visualize_specific_errors.py` |
| maskmetrics.dfy | MaskMetrics | Dice, MSE and the SNR guards of `evaluate_per_lead.py` and `evaluate_ensemble.py` |
| reconstruct.dfy | Reconstruct | `vectorize_mask` and `scale_signal` of `reconstruct_signals.py` and `create_demo.py` |
| audit.dfy | Audit | `audit_dataset.py` |
| jobs.dfy | Jobs | both `run_generation_500.py` runners |
| crop.dfy | Crop | both `crop_leads.py` scripts |
| datasets.dfy | Datasets | `prepare_data.py` and `prepare_data_parallel.py` |
| splits.dfy | Splits | both `split_data.py` scripts |

Signals and coordinates are exact reals. matplotlib's data-to-display transform is an increasing affine map passed in as a parameter, and so is the canvas size.

## Model

| member | source | states |
|---|---|---|
| Windower.FilterPresent | ecg-image-generator/extract_leads.py:55-58 | the filtered list keeps `desired_order`'s order, holds only present leads, and keeps each entry of the order exactly when it is present |
| Windower.SelectLeads | ecg-image-generator/extract_leads.py:49-58 | without `desired_order` the leads are the standardized header leads; with it they are a subsequence of the order, all taken from the header |
| Windower.RhythmLead | ecg-image-generator/extract_leads.py:61-71 | with 12 leads the rhythm lead is `full_mode` when that is present and the first lead otherwise; with any other count it is `'None'` |
| Windower.TwelveLeadsHaveRhythm | ecg-image-generator/extract_leads.py:61-64 | thanks to the first-lead fallback, a single-start frame of a twelve-lead record carries a rhythm strip whatever `full_mode` asks for |
| Windower.TwoLeadAdjustmentInert | ecg-image-generator/extract_leads.py:52-68 | as written, the two-lead column re-read gives the same column count as for any other lead count |
| Windower.TwoLeadDefaultLost | ecg-image-generator/extract_leads.py:52-68 | a two-lead record without a configured count gets 4 columns as written, and 1 in the corrected rule |
| Windower.Columns | ecg-image-generator/extract_leads.py:52-68 | an explicit argument wins, then the configured count, then 1 for two leads and 4 otherwise; it agrees with the code for every lead count but two |
| Windower.RecordDict | ecg-image-generator/extract_leads.py:75-81 | the corrected dictionary exists exactly when every selected lead's header row exists |
| Windower.RecordDictRows | ecg-image-generator/extract_leads.py:75-81 | in the corrected dictionary each selected lead holds the row of the header signal with its name |
| Windower.RecordDictUnreordered | ecg-image-generator/extract_leads.py:55-81 | without reordering, the corrected dictionary equals the one the code builds |
| Windower.RecordDictReorderMismatch | ecg-image-generator/extract_leads.py:55-81 | after reordering by `desired_order`, the code hands lead II the samples of lead I |
| Windower.TruncatedSlice | ecg-image-generator/extract_leads.py:104-108 | a single-start slice is the part of `[ds, ds+seg)` that the signal has: the whole segment, a shorter tail, or nothing |
| Windower.LeadSlices | ecg-image-generator/extract_leads.py:99-108 | every lead of the list gets an entry in the frame |
| Windower.LeadSlicesAt | ecg-image-generator/extract_leads.py:99-108 | a lead's entry is sliced from its row offset `start + (i // columns)*seg`, taken at its last position in the list |
| Windower.SingleFrame | ecg-image-generator/extract_leads.py:93-118 | the single frame has an entry for every lead, and the rhythm strip when the rhythm lead is set and recorded |
| Windower.SingleFrameLead | ecg-image-generator/extract_leads.py:97-108 | in single-start mode a lead holds `sig[min(ds,n) .. min(ds+seg,n)]`, which is empty once the start is past the end |
| Windower.SingleFrameKeepsLead | ecg-image-generator/extract_leads.py:110-116 | adding the rhythm strip never overwrites a lead entry |
| Windower.ContinuousFrame | ecg-image-generator/extract_leads.py:121-150 | a frame is emitted only when every lead has `start + ceil(n/columns)*seg` samples; an emitted frame has every lead and, when there is a rhythm lead, its full strip |
| Windower.Windows | ecg-image-generator/extract_leads.py:121-151 | the first emitted frame is the frame at the start |
| Windower.WindowsFrames | ecg-image-generator/extract_leads.py:121-151 | frame k is the frame at the k-th start; the loop stops at the first start whose frame is not emitted, so no partial frame is ever emitted |
| Windower.FrameStartClosed | ecg-image-generator/extract_leads.py:151 | frame k starts at `start + k*int(rate*abs_lead_step)` |
| Windower.RowBelowMaxRows | ecg-image-generator/extract_leads.py:125-137 | the row index `i // columns` of every lead is below `ceil(n/columns)` |
| Windower.ContinuousLead | ecg-image-generator/extract_leads.py:124-139 | every lead of an emitted continuous frame holds exactly `seg` samples, namely those of its row's segment |
| Windower.SegmentFits | ecg-image-generator/extract_leads.py:125-139 | the segment of every lead lies within a lead that passed the sufficiency check |
| Windower.ContinuousRhythm | ecg-image-generator/extract_leads.py:141-145 | the rhythm strip of an emitted frame holds exactly `rhythm_strip_samples` samples from `start` |
| Windower.StalledStep | ecg-image-generator/extract_leads.py:121-151 | with a step below one sample, an emitted frame is emitted again at the next start |
| Windower.StalledForever | ecg-image-generator/extract_leads.py:121-151 | with a step below one sample, every start emits a frame, so the loop never ends |
| Windower.NoLeadsForever | ecg-image-generator/extract_leads.py:121-150 | without leads every iteration emits an empty frame |
| Windower.FramesFrom | ecg-image-generator/extract_leads.py:85-151 | a missing dictionary or a zero column count raises, and single-start mode yields exactly one frame |
| Windower.PaperEcg | ecg-image-generator/extract_leads.py:38-151 | as written: a recording that failed to load gives no frames; otherwise (with the column count of lines 52 and 68 and the dictionary of line 81) an unreadable frequency, fewer recording rows than selected leads or a zero column count raises, and single-start mode yields exactly one frame |
| Windower.PaperEcgCorrected | ecg-image-generator/extract_leads.py:38-151 | with the two-lead default of one column and each lead read from its own header row: a recording that failed to load gives no frames; otherwise an unreadable frequency, a missing header row or a zero column count raises, and single-start mode yields exactly one frame |
| Windower.PaperEcgAgrees | ecg-image-generator/extract_leads.py:37-81 | without `desired_order`, with a row per header signal (or a failed load), and unless a two-lead record leaves the column count to its default, the code as written produces the corrected frames |
| Windower.PaperEcgReorderMismatch | ecg-image-generator/extract_leads.py:55-118 | after a two-lead record is reordered, the single-start frame the code produces gives the first desired lead the other lead's samples, while the corrected frame gives it its own |
| Windower.ReorderedDicts | ecg-image-generator/extract_leads.py:55-81 | for a reordered two-lead record, the dictionary as written maps the first desired lead to the first row, and the corrected one maps it to its own header row |
| Windower.FirstLeadWhole | ecg-image-generator/extract_leads.py:99-108 | with one column and a segment as long as the first lead, the single-start frame holds that lead whole |
| Windower.NonEmptyFrom | ecg-image-generator/extract_leads.py:161-175 | lists exactly the non-empty frames, in increasing order |
| Windower.Outputs | ecg-image-generator/extract_leads.py:157-236 | output k belongs to the k-th non-empty frame `i`: its image is `name-i.png` in the output directory, its JSON holds the rate, resolution and padding, and, iff `store_configs == 2`, frame `i`'s four draws with the column count and rhythm lead; the JSON is written iff `store_configs` is truthy |
| Windower.NonEmptyCount | ecg-image-generator/extract_leads.py:161-175 | the listed positions are as many as the non-empty frames |
| Windower.RecFileBasename | ecg-image-generator/extract_leads.py:173-227 | the image of frame i is named after the header's base name, then `-`, then i |
| Windower.PngNameInjective | ecg-image-generator/extract_leads.py:173-227 | different frame numbers give different image names |
| Windower.OutputsDistinct | ecg-image-generator/extract_leads.py:161-236 | no two outputs of a recording share an image name |
| WfdbHeader.StripGroups | ecg-image-generator/helper_functions.py:47-50 | the substitution never lengthens the header |
| WfdbHeader.StripGroupsNoParen | ecg-image-generator/helper_functions.py:50 | text without a `(` is unchanged |
| WfdbHeader.StripGroupsKeep | ecg-image-generator/helper_functions.py:50 | a character other than `(` is kept |
| WfdbHeader.StripGroupsLeading | ecg-image-generator/helper_functions.py:50 | a leading `(digits)` group is deleted |
| WfdbHeader.StripGroupsDeletes | ecg-image-generator/helper_functions.py:50 | the first `(digits)` group after a `(`-free prefix is deleted, and the scan resumes after it |
| WfdbHeader.GainFieldNeedsStrip | ecg-image-generator/helper_functions.py:47-50 | `gain(baseline)/units` reads as the gain once the group is removed, and is unreadable otherwise |
| WfdbHeader.StrippedGainField | ecg-image-generator/helper_functions.py:50 | `1000(0)/mV` becomes `1000/mV` |
| WfdbHeader.SignalLines | ecg-image-generator/helper_functions.py:66-68 | at most `nsig` signal lines are read |
| WfdbHeader.GetLeads | ecg-image-generator/helper_functions.py:63-73 | at most `nsig` names; an unreadable record line gives none |
| WfdbHeader.GetLeadsOfRender | ecg-image-generator/helper_functions.py:63-73 | for a header built from a record line and signal lines, the leads are the signal lines' last fields, in order, whatever follows them |
| WfdbHeader.SignalCountOfRender | ecg-image-generator/helper_functions.py:66-68 | such a header declares its signal count, and the lines read are its signal lines |
| WfdbHeader.LinesOfRender | ecg-image-generator/helper_functions.py:66 | splitting such a header on line breaks gives back its lines |
| WfdbHeader.WordsOfLine | ecg-image-generator/helper_functions.py:67-70 | `split()` of a line built from tokens gives back the tokens |
| WfdbHeader.GetFrequency | ecg-image-generator/helper_functions.py:75-79 | a record line with fewer than three tokens gives `None` |
| WfdbHeader.GetFrequencyOfRender | ecg-image-generator/helper_functions.py:75-79 | for such a header the frequency is the record line's third field, up to its first `/` |
| WfdbHeader.FrequencyFieldValue | ecg-image-generator/helper_functions.py:77 | `fs/counter` reads as `fs` |
| WfdbHeader.LeadIndex | ecg-image-generator/helper_functions.py:83 | `{lead: i}` keeps the last position of each name, and has no key for absent names |
| WfdbHeader.GetAdcGains | ecg-image-generator/helper_functions.py:81-95 | one gain per lead, all zero when the record line is unreadable |
| WfdbHeader.ApplyGains | ecg-image-generator/helper_functions.py:87-94 | the gain loop keeps one gain per requested lead, whatever lines it meets or raises on |
| WfdbHeader.RawGainField | ecg-image-generator/helper_functions.py:92 | a gain field written `gain(baseline)/units` does not read as a number before the slash |
| WfdbHeader.GetAdcGainsOfRender | ecg-image-generator/helper_functions.py:81-95 | for such a header, entry j is the gain of the last signal line naming `leads[j]`, and 0 when no line names it or j is not that name's last position |
| WfdbHeader.TruncateSignal | ecg-image-generator/helper_functions.py:97-98 | the result is the prefix of length `min(len, int(rate*secs))` |
| WfdbHeader.TruncateIsPrefix | ecg-image-generator/helper_functions.py:97-98 | whatever the length's sign, the result is a prefix of the signal |
| WfdbHeader.SignalDictionary | ecg-image-generator/helper_functions.py:100-101 | the dictionary exists iff there are enough rows, and its keys are exactly the lead names |
| WfdbHeader.SignalDictionaryRows | ecg-image-generator/helper_functions.py:100-101 | each name maps to the row at its last position |
| WfdbHeader.StandardizeLeads | ecg-image-generator/helper_functions.py:103-105 | the length is kept, and each name is standardized on its own |
| WfdbHeader.StandardLeadShape | ecg-image-generator/helper_functions.py:103-105 | a standardized name is the upper-cased name, or one of `aVR`, `aVL`, `aVF` that upper-cases to the same |
| WfdbHeader.StandardizeIdempotent | ecg-image-generator/helper_functions.py:103-105 | standardizing twice is standardizing once |
| Annotations.RoundBox | ecg-image-generator/helper_functions.py:127 | each corner is rounded to integers at most half a unit away |
| Annotations.ConvertToDict | ecg-image-generator/helper_functions.py:122-134 | one record per label, in order, named by it; a box is attached iff `i < len(boxes)`; the optional lists are used iff truthy, and a short one raises |
| Annotations.ReadLeads | ecg-image-generator/helper_functions.py:107-120 | one label, start, end and pixel entry per record, with the defaults; at most one box per record |
| Annotations.ReadLeadsFields | ecg-image-generator/helper_functions.py:107-120 | `read_leads` succeeds iff every present box has its four corners; each list is the records' field with its default, and the box lists skip records without a box |
| Annotations.PresentWritten | ecg-image-generator/helper_functions.py:126-129 | the boxes written for n labels read back as the first `min(n, len(boxes))` boxes, rounded |
| Annotations.ReadConvertRoundTrip | ecg-image-generator/helper_functions.py:107-134 | `read_leads(convert_bounding_boxes_to_dict(...))` gives the labels, the rounded boxes of the labelled leads, and the per-lead lists or their defaults |
| Layout.XGap | ecg-image-generator/ecg_plot.py:46 | `x_gap ≤ (x_max - columns*secs)/2 < x_gap + 0.2` |
| Layout.PageGeometry | ecg-image-generator/ecg_plot.py:39-47 | `rows = ceil(n/columns)`, plus one with a rhythm strip; `rows + 2` rows of positive height fill `y_max = height*y_grid_size/y_grid_inch`; `x_max = width*x_grid_size/x_grid_inch`; the `x_gap` bounds |
| Layout.LoweredClosed | ecg-image-generator/ecg_plot.py:96 | lowering a centre n times by `rh` is subtracting `n*rh` |
| Layout.LoweredMonotone | ecg-image-generator/ecg_plot.py:96 | lowering more times never raises the centre |
| Layout.Stack | ecg-image-generator/ecg_plot.py:86-99 | each cell comes from a position of `lead_index` at or after the start |
| Layout.StackCells | ecg-image-generator/ecg_plot.py:86-99 | each cell is a present lead at `x_offset = (i % columns)*secs` for its position i, even after skipped leads, and the cells follow `lead_index` order |
| Layout.StackComplete | ecg-image-generator/ecg_plot.py:86-87 | every present lead gets a cell |
| Layout.StackCentres | ecg-image-generator/ecg_plot.py:81-98 | a cell's centre is the start lowered by one row height per present column-0 lead up to and including its own position |
| Layout.CentreAfterClosed | ecg-image-generator/ecg_plot.py:86-96 | after the loop the centre is the start lowered once per row opened |
| Layout.RowsOpenedMonotone | ecg-image-generator/ecg_plot.py:95-96 | rows opened never decrease along the list |
| Layout.RowsOpenedBound | ecg-image-generator/ecg_plot.py:41-96 | at most `ceil(i/columns)` rows are opened by the first i positions |
| Layout.StackDescends | ecg-image-generator/ecg_plot.py:86-99 | rows stack downward: a later cell is never above an earlier one |
| Layout.CentresOnPage | ecg-image-generator/ecg_plot.py:41-98 | started at `rows*rh + rh/2`, every centre lies in `[rh/2, rows*rh + rh/2]`, inside the page of `rows + 2` rows |
| Layout.BottomRow | ecg-image-generator/ecg_plot.py:81-82 | lowering the first centre by all rows reaches half a row |
| Layout.RhythmOnPage | ecg-image-generator/ecg_plot.py:150-155 | the rhythm strip, one row below the last lead row, lies on the page |
| Layout.MaxDeviation | ecg-image-generator/ecg_plot.py:122-123 | the largest magnitude of any sample, and attained by one |
| Layout.PulseLength | ecg-image-generator/ecg_plot.py:104 | `np.arange(0, dc, 1/rate)` has `ceil(dc*rate)` samples, none for `dc ≤ 0` |
| Layout.Pulse | ecg-image-generator/ecg_plot.py:105 | the pulse is ones with the first two and last two samples zero |
| Layout.BoxHeight | ecg-image-generator/ecg_plot.py:125-126 | the height is `2*(deviation + margin)` or the minimum, whichever is larger |
| Layout.LeadBox | ecg-image-generator/ecg_plot.py:118-133 | the box spans the cell horizontally, and vertically `BoxHeight` centred on the row, clamped to the y-limits |
| Layout.LeadBoxCoversTrace | ecg-image-generator/ecg_plot.py:115-133 | with a non-negative margin, every plotted sample on the axes lies inside its box |
| Layout.LeadBoxAroundCentre | ecg-image-generator/ecg_plot.py:128-133 | a row centre on the axes lies inside its clamped box |
| Layout.Corners | ecg-image-generator/ecg_plot.py:135-141 | four `[y, x]` corners in the order top-left, top-right, bottom-right, bottom-left; image `y = canvas_height - display_y`, truncated by `int` |
| Layout.CornersOrdered | ecg-image-generator/ecg_plot.py:135-141 | for an increasing transform and an ordered box, corner 0 is above and left of corner 2 |
| Plot.SettingsOf | ecg-image-generator/ecg_plot.py:19-36 | each setting is the configured value or its default: width 11, height 8.5, margin 0.1, minimum height 2.0, pulse 0.2; the defaults give a valid page |
| Plot.Effective | ecg-image-generator/ecg_plot.py:53-60 | mask mode turns off the grid, lead names, pulse and boxes; realistic mode keeps the caller's switches |
| Plot.SignalShiftAsWritten | ecg-image-generator/ecg_plot.py:84 | as written, the shift is either 0 or the pulse width, taken from the switches after mask mode has overridden them |
| Plot.MaskTraceMisaligned | ecg-image-generator/ecg_plot.py:53-84 | as written, the mask pass draws every trace `dc` to the left of a realistic pass that showed the pulse |
| Plot.SignalShift | ecg-image-generator/ecg_plot.py:84 | the corrected shift is `dc_offset_length` iff the caller asked for the pulse, which is what the realistic pass computes |
| Plot.BoxSamples | ecg-image-generator/ecg_plot.py:89-120 | a box is measured on the pulse (if drawn in front of the lead) followed by the signal |
| Plot.CellBox | ecg-image-generator/ecg_plot.py:117-133 | a grid lead's box spans `[x_offset + x_gap + shift, … + secs]` and lies within the y-limits; it fails only on an empty sample list |
| Plot.CellEntry | ecg-image-generator/ecg_plot.py:91-144 | a lead's entry is named after the lead and carries a box iff boxes were asked for |
| Plot.CellEntries | ecg-image-generator/ecg_plot.py:86-144 | one entry per drawn lead, in order; nothing can fail without boxes |
| Plot.RhythmBox | ecg-image-generator/ecg_plot.py:169-187 | the rhythm box spans `[x_gap + (dc if pulse else 0), … + len(signal)/rate]` and lies within the y-limits |
| Plot.RhythmEntry | ecg-image-generator/ecg_plot.py:150-198 | the rhythm entry is named `full_mode` and carries a box iff boxes were asked for |
| Plot.CellTraces | ecg-image-generator/ecg_plot.py:112-115 | each trace starts at `x_offset + x_gap + shift` on its row centre and lasts `len/rate` |
| Plot.PageCells | ecg-image-generator/ecg_plot.py:86-99 | every cell of the page is a lead of the frame, drawn where the stacking puts it |
| Plot.PlanFrom | ecg-image-generator/ecg_plot.py:39-99 | the page has `ceil(n/columns)` rows plus one for a rhythm strip, and every cell is a drawn lead |
| Plot.PlanOf | ecg-image-generator/ecg_plot.py:19-99 | with the settings the caller passed, every cell of the page is a lead of the frame |
| Plot.AppendLeads | ecg-image-generator/ecg_plot.py:91-198 | the `leads` list is the prior list (or a new one) plus the entries and the rhythm entry; the rhythm append raises iff no list exists yet |
| Plot.Render | ecg-image-generator/ecg_plot.py:86-216 | a drawn page keeps the plan's geometry, has one trace per cell plus one for a rhythm strip, returns `(1.0, 1.0)`, and has JSON with the canvas size exactly outside mask mode |
| Plot.EcgPlot | ecg-image-generator/ecg_plot.py:9-216 | as written: an empty frame returns before drawing; a drawn page returns `(1.0, 1.0)`; the JSON gets the canvas size in realistic mode and is untouched in mask mode; in mask mode the rhythm trace starts at `x_gap`, unshifted |
| Plot.EcgPlotCorrected | ecg-image-generator/ecg_plot.py:9-216 | with the shift following the caller's pulse choice in both modes: the same early return, return value and JSON as the code |
| Plot.RealisticAsCorrected | ecg-image-generator/ecg_plot.py:53-84 | in realistic mode the code as written draws the corrected page |
| Plot.MaskIgnoresSwitches | ecg-image-generator/ecg_plot.py:53-84 | as written, the mask pass draws the same page whatever switches the caller passes |
| Plot.MaskNeverRaises | ecg-image-generator/ecg_plot.py:53-93 | the mask pass never raises, as written or corrected |
| Plot.PassesAgree | ecg-image-generator/extract_leads.py:178-209 | as written, the realistic pass with the frame's switches and the mask pass with the default switches compute the same layout, and their traces coincide iff there are none, the pulse is off, or its width is 0 |
| Plot.PassesAgreeCorrected | ecg-image-generator/ecg_plot.py:53-115 | with the corrected shift and a mask call given the frame's switches, the two passes compute the same layout and put every trace in the same place |
| Plot.RealisticEntries | ecg-image-generator/ecg_plot.py:86-198 | with a fresh `json_dict`, the JSON gets one entry per drawn lead in `lead_index` order, then the rhythm entry; each has a box iff boxes were asked for |
| Plot.CellBoxAtTrace | ecg-image-generator/ecg_plot.py:115-141 | a grid lead's box starts at the pixel column where its trace starts |
| Plot.RhythmBoxAtTrace | ecg-image-generator/ecg_plot.py:167-195 | the rhythm box starts where the rhythm trace starts |
| PlotLegacy.Get | codes/code-image-generator/ecg_plot.py:95-97 | `dict.get` gives the value of a present key and the default otherwise |
| PlotLegacy.LegacySettings | codes/code-image-generator/ecg_plot.py:10-97 | the settings come from `standard_values`; the minimum height is 2.0 because the key exists, and the 1.0 fallback is unreachable |
| PlotLegacy.LegacySettingsAreDefaults | codes/code-image-generator/ecg_plot.py:10-17 | the constants are the newer revision's defaults and form a valid page |
| PlotLegacy.ColourDefinedIff | codes/code-image-generator/ecg_plot.py:18-42 | the colour lookup succeeds iff `standard_colours == 5` |
| PlotLegacy.RhythmTraceXAsWritten | codes/code-image-generator/ecg_plot.py:141 | as written, the rhythm trace starts the pulse width after `x_gap`, whatever the switches |
| PlotLegacy.RhythmTraceOutsideBox | codes/code-image-generator/ecg_plot.py:141-144 | as written, without the pulse the rhythm trace starts 0.2 to the right of its box |
| PlotLegacy.RhythmTraceX | codes/code-image-generator/ecg_plot.py:141 | the corrected rhythm trace is shifted by the pulse width only when the pulse is shown |
| PlotLegacy.RhythmTraceInBox | codes/code-image-generator/ecg_plot.py:141-146 | with the correction, the rhythm box starts where its trace starts |
| PlotLegacy.LegacyPage | codes/code-image-generator/ecg_plot.py:21-182 | for either rhythm start: an empty frame returns nothing; any colour but 5 raises; a drawn page always writes the canvas size and returns `(1.0, 1.0)` |
| PlotLegacy.EcgPlotLegacy | codes/code-image-generator/ecg_plot.py:21-182 | as written: an empty frame returns nothing; any colour but 5 raises; a drawn page always writes the canvas size and returns `(1.0, 1.0)`; the rhythm trace starts at `x_gap + 0.2` |
| PlotLegacy.EcgPlotLegacyCorrected | codes/code-image-generator/ecg_plot.py:21-182 | with the corrected rhythm start: the same early return, colour check, JSON and return value |
| PlotLegacy.LegacyAgreesWithNewer | codes/code-image-generator/ecg_plot.py:26-168 | as written, with colour 5, the older revision computes the same geometry and JSON as the newer one in realistic mode without `layout_parameters`, and the two pages are equal iff there is no rhythm strip or the pulse is shown |
| PlotLegacy.LegacyCorrectedAgreesWithNewer | codes/code-image-generator/ecg_plot.py:26-168 | with the corrected rhythm start, the older revision draws exactly the newer one's realistic page: the same rows, `x_gap`, stacking, traces, boxes and JSON |
| Boxes.SpanOf | code-yolo/convert_to_yolo.py:18-22 | the tightest box around a non-empty point list: every point lies inside and each edge is attained; no points means the `min` raises |
| Boxes.CornersToXywh | code-yolo/convert_to_yolo.py:14-22 | corners are read as `[y, x]`; the result encloses every corner, and an empty corner record raises |
| Boxes.RectToXywh | code-yolo/convert_to_yolo.py:14-22 | on an axis-parallel corner record the converter gives `(left, top, right - left, bottom - top)` |
| Boxes.ExtremesAre | code-yolo/convert_to_yolo.py:18-19 | a list whose elements lie between two of its elements has those two as its `min` and `max` |
| Boxes.PlotCornersAreRect | ecg-image-generator/ecg_plot.py:117-141 | the corner record `ecg_plot` writes for an ordered box is an axis-parallel rectangle in `[y, x]` order |
| Boxes.BboxToYolo | code-yolo/convert_to_yolo.py:24-30 | multiplying the normalised width, height and centre by the image side gives back the pixel width, height and centre; a zero side raises |
| Boxes.YoloNormalised | code-yolo/convert_to_yolo.py:24-30 | a box inside the image has all four YOLO values in [0, 1] |
| Boxes.YoloToXyxy | code-yolo/evaluation.py:21-25 | the corner box has the YOLO width and height scaled by the image, centred on the scaled YOLO centre |
| Boxes.YoloRoundTrip | code-yolo/convert_to_yolo.py:24-30 | converting a pixel box to YOLO and back with `yolo_to_xyxy` gives its corners `(x, y, x + w, y + h)` |
| Boxes.ClassOf | code-yolo/convert_to_yolo.py:62-71 | lead II is class 12 iff its box is wider than 1000 pixels and class 1 otherwise; other known names take their `CLASS_MAP` value; unknown names get -1 |
| Boxes.LeadLine | code-yolo/convert_to_yolo.py:56-75 | a lead makes one line iff it has a name, a box and a known class; it raises iff its corner record is empty, or it makes a line on a zero-sided image |
| Boxes.LeadLinesAppend | code-yolo/convert_to_yolo.py:55-75 | the lines of two lead lists are the lines of the first followed by those of the second, and either raising makes the whole raise |
| Boxes.LeadLinesCount | code-yolo/convert_to_yolo.py:55-75 | exactly one line per labelled lead |
| Boxes.LeadLinesClasses | code-yolo/convert_to_yolo.py:62-75 | every written line has a class in 0..12 |
| Boxes.ConvertFile | code-yolo/convert_to_yolo.py:43-78 | an unreadable file, a missing `width` or `height`, or no `leads` means the file is skipped; a written file has one line per labelled lead, each with a class in 0..12 |
| Boxes.PlotRecordLine | code-yolo/convert_to_yolo.py:56-75 | a lead record `ecg_plot` writes becomes exactly one line, whose class follows the lead's name and whose box is the drawn rectangle, normalised |
| Boxes.DiagnoseXywhAsWritten | code-yolo/diagnose_json.py:8-17 | as written, the diagnosis reads corners as `[x, y]`; it raises only on an empty record |
| Boxes.DiagnoseSwapsAxes | code-yolo/diagnose_json.py:8-50 | a lead box well inside an 1100×850 page is reported out of bounds, because its rows are compared with the width |
| Boxes.DiagnoseXywh | code-yolo/diagnose_json.py:8-17 | either reading of a corner record raises only on an empty record |
| Boxes.AsWrittenTransposed | code-yolo/diagnose_json.py:8-17 | the diagnosis as written reads a record as the converter's box with its axes exchanged |
| Boxes.FlaggedSquare | code-yolo/diagnose_json.py:42-45 | on a square image the axis mix-up never changes whether a box is flagged |
| Boxes.FlaggedIff | code-yolo/diagnose_json.py:42-50 | read as the converter reads it, a corner record is flagged iff its right edge passes the width or its bottom edge passes the height |
| Boxes.FileFlags | code-yolo/diagnose_json.py:28-37 | with `corrected` false this is the code as written: an unreadable file, or one without `width`, `height` or `leads`, gives no flags, and any other file gets its leads' flags |
| Boxes.LeadFlags | code-yolo/diagnose_json.py:39-50 | with `corrected` false this is the code as written: one flag per lead, a lead being flagged iff it has a non-empty box whose far edge, read as written (or corrected), passes the image; an empty corner record raises |
| Boxes.LeadFlagsSquare | code-yolo/diagnose_json.py:39-50 | on a square image the code as written flags exactly the leads the corrected reading flags |
| Boxes.AnyTrue | code-yolo/diagnose_json.py:24-50 | `found_errors` is set iff some box was flagged |
| Boxes.Diagnose | code-yolo/diagnose_json.py:19-55 | with `corrected` false this is the code as written: the "errors found" verdict is given iff some file has a flagged box; the run raises iff some file has an empty corner record |
| Boxes.SingleLeadVerdict | code-yolo/diagnose_json.py:19-55 | a file holding one boxed lead gives the verdict of that lead's flag |
| Boxes.DiagnoseVerdictSwapped | code-yolo/diagnose_json.py:8-55 | a file whose one box lies inside the page, but whose bottom row passes the width or whose right column passes the height, gets "errors found" as written and no error when corrected |
| Iou.AreaNonNegative | code-yolo/iou_metrics.py:16-17 | a box with ordered edges has non-negative area |
| Iou.InterArea | code-yolo/iou_metrics.py:7-13 | the clamped intersection area is never negative and is at most either box's area |
| Iou.InterSymmetric | code-yolo/iou_metrics.py:7-13 | the intersection does not depend on the order of the boxes |
| Iou.UnionCoversInter | code-yolo/iou_metrics.py:13-20 | with ordered edges the union is at least the intersection, which is at least 0 |
| Iou.BoxIou | code-yolo/iou_metrics.py:5-24 | IoU times `union + 1e-6` is the intersection; for boxes with ordered edges it is finite and in [0, 1) |
| Iou.BoxIouSymmetric | code-yolo/iou_metrics.py:5-24 | `box_iou(a, b) == box_iou(b, a)` |
| Iou.BoxIouDisjoint | code-yolo/iou_metrics.py:7-23 | boxes separated along one axis have IoU 0 |
| Iou.HullCoversUnion | code-yolo/iou_metrics.py:32-38 | the smallest enclosing box is at least as large as the union of the two boxes |
| Iou.GeneralizedIouAsWritten | code-yolo/iou_metrics.py:27-48 | as written, the GIoU is finite for boxes with ordered edges |
| Iou.GeneralizedIouIdentical | code-yolo/iou_metrics.py:41-47 | as written, any box of area 1 paired with itself gets a GIoU above 1.9, outside GIoU's range [-1, 1] |
| Iou.GeneralizedIouAsWrittenAt | code-yolo/iou_metrics.py:41-47 | as written, once the IoU, the summed areas `a1 + a2` and the enclosing area `c` are known, the GIoU is `iou - (c - (a1 + a2 - iou * (a1 + a2 - iou * (a1 + a2)))) / (c + 1e-6)` |
| Iou.BoxIouValue | code-yolo/iou_metrics.py:20-23 | `box_iou` is the intersection over `union + 1e-6` whenever that is not 0 |
| Iou.UnitAreaSelf | code-yolo/iou_metrics.py:5-24 | a box of area 1 paired with itself has IoU `1 / (1 + 1e-6)` and is its own enclosing box |
| Iou.GeneralizedIou | code-yolo/iou_metrics.py:27-48 | with the true intersection, GIoU is finite for boxes with ordered edges and lies in `(iou - 1, iou]` |
| Iou.GeneralizedIouOfSame | code-yolo/iou_metrics.py:27-48 | with the true intersection, two identical boxes have GIoU equal to their IoU |
| Iou.DiouTerm | code-yolo/iou_metrics.py:55-72 | the DIoU penalty is never negative |
| Iou.Diou | code-yolo/iou_metrics.py:51-73 | DIoU is finite iff IoU is, and never exceeds it |
| Iou.DiouSameCentre | code-yolo/iou_metrics.py:65-73 | boxes with the same centre get DIoU equal to IoU |
| Iou.CalculateIou | codes/code-yolo/visualize_specific_errors.py:10-17 | 0 when the union is not positive, otherwise IoU times the union is the intersection; with ordered edges it is in [0, 1] |
| Iou.CalculateIouSymmetric | codes/code-yolo/visualize_specific_errors.py:10-17 | `calculate_iou` does not depend on the order of the boxes |
| Iou.CalculateIouSelf | codes/code-yolo/visualize_specific_errors.py:10-17 | a box with positive area has IoU 1 with itself |
| Matching.ParseFloats | code-yolo/evaluation.py:18 | every token parses or the call raises; the values are the tokens' values in order |
| Matching.ParseRow | code-yolo/evaluation.py:17-18 | a blank line raises; a parsed row has the first word's integer as class and one value per further word |
| Matching.ParseRows | code-yolo/evaluation.py:16-18 | every line parses or the whole read raises; one row per line, in order |
| Matching.GroundTruth | code-yolo/evaluation.py:11-19 | a missing label file gives no boxes; an existing one gives its parsed lines |
| Matching.RowToXyxy | code-yolo/evaluation.py:21-25 | the unpacking succeeds iff the row has exactly four numbers; the box has the scaled YOLO width and height |
| Matching.LabelRowRoundTrip | code-yolo/evaluation.py:21-25 | a line written by the JSON-to-YOLO converter reads back as the pixel corners of the box it came from |
| Matching.BestSoFar | code-yolo/evaluation.py:112-119 | the strict `>` loop keeps the first index holding the largest score above the start value, and no index iff no score beats it |
| Matching.ClassScores | code-yolo/evaluation.py:114-116 | one score per prediction: `box_iou(pred, gt)` for the ground truth's class, skipped otherwise |
| Matching.BestMatch | code-yolo/evaluation.py:112-121 | the kept prediction has the ground truth's class and the largest IoU, the first such; none iff no prediction of the class beats -1 |
| Matching.BestMatchWellFormed | code-yolo/evaluation.py:112-121 | with ordered edges a match is found iff some prediction has the ground truth's class |
| Matching.RowMatches | code-yolo/evaluation.py:108-122 | the rows are matched iff each has exactly four numbers; each match is a prediction of the image |
| Matching.ClassesPresent | code-yolo/evaluation.py:108-121 | at most one matched row per ground-truth row |
| Matching.MatchCount | code-yolo/evaluation.py:108-122 | with ordered edges, each ground-truth row whose class was predicted gets exactly one match |
| Matching.ImageMatches | code-yolo/evaluation.py:98-102 | an image whose label file is missing contributes nothing |
| Matching.ImageMatchesIouCalculation | codes/code-yolo/iou_calculation.py:47-72 | an image without a label file is skipped |
| Matching.ScriptsAgree | codes/code-yolo/iou_calculation.py:10-72 | `iou_calculation.py` and `evaluation.py` find the same matches in every image |
| Matching.SelectionIncluded | codes/code-yolo/iou_calculation.py:43 | every image `iou_calculation.py` evaluates, `evaluation.py` evaluates as well |
| Matching.LabelName | code-yolo/evaluation.py:98 | a label file name ends in `.txt` |
| Matching.LabelNameOf | code-yolo/evaluation.py:98 | the label of `stem.ext` is `stem.txt` |
| Matching.CompleteBoxIou | code-yolo/iou_metrics.py:51-85 | with the GIoU it evidently means to return, the IoU is `box_iou`; for boxes with ordered edges all three values are finite, IoU is in [0, 1), and neither GIoU nor DIoU exceeds it |
| Matching.CompleteBoxIouAsWritten | code-yolo/iou_metrics.py:85 | as written, every call raises, because `giou` is not bound in `complete_box_iou` |
| Matching.Scored | code-yolo/evaluation.py:121-126 | one record per match, holding its class and its scores |
| Matching.CollectRecords | code-yolo/evaluation.py:121-126 | the records are collected iff no score raised, one per match |
| Matching.ScoredAsWritten | code-yolo/evaluation.py:121-126 | as written, scoring gets through only an empty match list |
| Matching.Of | code-yolo/evaluation.py:123-129 | the records of one class, all of that class, non-empty iff the class has a record |
| Matching.Others | code-yolo/evaluation.py:129 | removing one class keeps every other class and nothing else, and shrinks the list when the class was present |
| Matching.OfOthers | code-yolo/evaluation.py:129 | removing another class keeps the records of `x` |
| Matching.Sum | code-yolo/evaluation.py:134-137 | the sum is finite iff every value is |
| Matching.Average | code-yolo/evaluation.py:134-137 | `sum / len` is finite iff the list is non-empty and finite, and times the length gives the sum |
| Matching.SumBounds | code-yolo/evaluation.py:134-137 | values in `[lo, hi]` sum to between `lo * n` and `hi * n` |
| Matching.AverageBounds | code-yolo/evaluation.py:134-137 | the average of values in `[lo, hi]` lies in `[lo, hi]` |
| Matching.ClassIds | code-yolo/evaluation.py:129 | the class of each record, in order |
| Matching.Summary | code-yolo/evaluation.py:128-146 | the table is empty iff there are no records |
| Matching.SummaryListed | code-yolo/evaluation.py:128-139 | the table lists exactly the classes that have records |
| Matching.SummaryRows | code-yolo/evaluation.py:130-138 | each line holds the averages over exactly its class's records, and its count is positive |
| Matching.SummarySorted | code-yolo/evaluation.py:129 | the lines come in strictly ascending class order |
| Matching.AverageIouInUnit | code-yolo/evaluation.py:134 | when every recorded IoU is in [0, 1], so is each class average |
| Matching.OfSubset | code-yolo/evaluation.py:123-129 | every record of a class is one of the records |
| Matching.AllMatches | code-yolo/evaluation.py:96-126 | the matches of all images are found iff no image raises, and are empty iff every image has none |
| Matching.Evaluate | code-yolo/evaluation.py:87-146 | with the intended scores, the IoU table is produced iff reading the labels raises for no image |
| Matching.EvaluationAsWrittenRaises | code-yolo/evaluation.py:121-122 | as written, the evaluation finishes iff no ground-truth box finds a prediction of its class, so whenever the intended table has a line it raises |
| Matching.GtLines | codes/code-yolo/visualize_specific_errors.py:61-67 | every line must parse to a class and four numbers; one box per line, at the scaled corners |
| Matching.GtBoxes | codes/code-yolo/visualize_specific_errors.py:61 | a missing label file raises |
| Matching.Available | codes/code-yolo/visualize_specific_errors.py:74 | `calculate_iou(gt, p)` for every prediction not yet taken; taken ones are skipped |
| Matching.Pick | codes/code-yolo/visualize_specific_errors.py:74-76 | the untaken prediction with the largest IoU above 0.45, the first such; none iff no untaken prediction passes 0.45 |
| Matching.Greedy | codes/code-yolo/visualize_specific_errors.py:73-79 | every box that takes a prediction takes a free one that overlaps it above 0.45, is `correct` iff the classes agree, and no prediction is taken twice |
| Matching.GreedyMissed | codes/code-yolo/visualize_specific_errors.py:73-79 | a box is left `missed` only when every prediction still free at its turn overlaps it by at most 0.45 |
| Matching.TakenCons | codes/code-yolo/visualize_specific_errors.py:77 | the predictions taken by a list of statuses are those of its head plus those of its tail |
| Matching.NameToId | codes/code-yolo/visualize_specific_errors.py:45 | the inverted dictionary gives a name's last id, and nothing iff the name is unknown |
| Matching.MistakeOf | codes/code-yolo/visualize_specific_errors.py:82-86 | a box is an error iff it is a missed V2 .. V6 box, or a V4 taken for V5 or the reverse |
| Matching.Mistakes | codes/code-yolo/visualize_specific_errors.py:82-88 | the errors of the boxes in order; none iff no box is an error |
| Matching.AnalyzeImage | codes/code-yolo/visualize_specific_errors.py:54-88 | an image without a label file raises |
| Matching.StandardNamesMatchClassMap | code-yolo/convert_to_yolo.py:7-10 | the standard class names are numbered as the converter numbers them |
| Matching.StandardIds | codes/code-yolo/visualize_specific_errors.py:46 | with the standard names the ids of V2 .. V6 are 7 .. 11 |
| Matching.StandardChecked | codes/code-yolo/visualize_specific_errors.py:46 | with the standard names a class is checked iff its id is in 7 .. 11 |
| Matching.StandardSwap | codes/code-yolo/visualize_specific_errors.py:47-85 | with the standard names the swapped pair is 9 and 10, in either order |
| Matching.NameToIdAt | codes/code-yolo/visualize_specific_errors.py:45 | a name's id is its last position |
| MaskMetrics.Zip | code-unet/evaluate_per_lead.py:84-86 | an element-wise operation succeeds iff the shapes agree, and applies the operation position by position |
| MaskMetrics.Count | code-unet/evaluate_per_lead.py:13-16 | a mask has at most as many foreground elements as elements |
| MaskMetrics.Both | code-unet/evaluate_per_lead.py:13-15 | the overlap is at most either mask's foreground |
| MaskMetrics.BothSymmetric | code-unet/evaluate_per_lead.py:15 | the overlap does not depend on the order of the masks |
| MaskMetrics.BothFull | code-unet/evaluate_per_lead.py:13-16 | the overlap equals both foregrounds iff the masks have the same foreground |
| MaskMetrics.DiceOf | code-unet/evaluate_per_lead.py:13-18 | Dice is in [0, 1]; it is 1 for two empty masks, and otherwise Dice times the volume sum is twice the overlap |
| MaskMetrics.Dice | code-unet/evaluate_per_lead.py:9-18 | Dice raises iff the shapes differ, and is otherwise in [0, 1] |
| MaskMetrics.DiceSymmetric | code-unet/evaluate_per_lead.py:9-18 | Dice does not depend on the order of the masks |
| MaskMetrics.DiceOneIff | code-unet/evaluate_per_lead.py:9-18 | Dice is 1 iff the masks have the same foreground |
| MaskMetrics.SumSquares | code-unet/evaluate_per_lead.py:22-27 | a sum of squares is never negative |
| MaskMetrics.Power | code-unet/evaluate_per_lead.py:26-27 | `np.mean(x ** 2)` is finite iff the array is non-empty, and is never negative |
| MaskMetrics.SumSquaresZero | code-unet/evaluate_per_lead.py:22 | the sum of squares is 0 iff every element is 0 |
| MaskMetrics.Mse | code-unet/evaluate_per_lead.py:20-22 | the MSE is defined iff the shapes agree and the arrays are non-empty, and is never negative |
| MaskMetrics.MseZeroIff | code-unet/evaluate_per_lead.py:20-22 | the MSE is 0 iff the two signals are equal |
| MaskMetrics.CalculateSnr | code-unet/evaluate_per_lead.py:24-30 | +inf iff the noise power is below 1e-9; -inf iff not that and the signal power is below 1e-9 (also when the noise is empty, since NaN fails `<`); NaN iff neither test fires and an array is empty; otherwise the ratio in decibels is of `power_signal / power_noise` |
| MaskMetrics.SnrAgreesWithMse | code-unet/evaluate_per_lead.py:84-89 | a file's SNR is +inf iff its MSE is below 1e-9, and a finite SNR's ratio is the ground truth's power over the MSE |
| MaskMetrics.FileMetrics | code-unet/evaluate_per_lead.py:82-89 | a file's metrics exist only when the three arrays have one shape, and its Dice is that of the two masks |
| MaskMetrics.PerfectPrediction | code-unet/evaluate_per_lead.py:82-89 | a prediction equal to the ground truth scores Dice 1, MSE 0 and an infinite SNR |
| MaskMetrics.PerLeadNames | code-unet/evaluate_per_lead.py:63-67 | for `stem.nii.gz` the lead is the stem's last `_` field and the image is `stem_0000.nii.gz` |
| MaskMetrics.EnsembleNameWrong | code-unet/evaluate_ensemble.py:49-50 | as written, `stem.nii.gz` is paired with `stem.nii_0000.gz`, not with `stem_0000.nii.gz` |
| MaskMetrics.ImageNameEnsemble | code-unet/evaluate_ensemble.py:48-50 | the corrected image name ends in `_0000.nii.gz` |
| MaskMetrics.EnsembleNameAgrees | code-unet/evaluate_ensemble.py:48-50 | the corrected name is the one the per-lead script uses |
| Reconstruct.Column | code-unet/reconstruct_signals.py:16 | `mask_np[:, x]` has one element per row, taken from column `x` |
| Reconstruct.Hits | code-unet/reconstruct_signals.py:16 | `np.where(column > 0)` lists exactly the foreground rows, in increasing order |
| Reconstruct.SumNatBound | code-unet/reconstruct_signals.py:20 | rows below `h` sum to at most `n * (h - 1)` |
| Reconstruct.Centre | code-unet/reconstruct_signals.py:16-23 | the centre is NaN iff the column has no foreground, and is otherwise a row coordinate |
| Reconstruct.MeanOfRows | code-unet/reconstruct_signals.py:20 | the mean of rows below `h` is in `[0, h - 1]` |
| Reconstruct.Vectorize | code-unet/reconstruct_signals.py:9-25 | one sample per column: NaN iff the column has no foreground, otherwise a row coordinate |
| Reconstruct.SinglePixelCentre | code-unet/reconstruct_signals.py:16-20 | a column with one foreground pixel is centred on it |
| Reconstruct.HitsNone | code-unet/reconstruct_signals.py:16 | a column without foreground has no hits |
| Reconstruct.SingleHit | code-unet/reconstruct_signals.py:16 | a column with one foreground pixel has exactly that hit |
| Reconstruct.Draw | code-unet/reconstruct_signals.py:11 | a one-pixel trace draws a rectangular mask of its height and width |
| Reconstruct.VectorizeDraw | code-unet/reconstruct_signals.py:9-25 | vectorising a drawn one-pixel trace gives the trace back |
| Reconstruct.VoltageCentreAntitone | code-unet/reconstruct_signals.py:35-39 | the middle row is 0 mV, and a lower row is a lower voltage |
| Reconstruct.VoltageRoundTrip | code-unet/reconstruct_signals.py:30-39 | scaling a row to millivolts can be undone |
| Reconstruct.TimeStartsAndIncreases | code-unet/reconstruct_signals.py:41 | the time axis starts at 0 and increases strictly |
| Reconstruct.Scale | code-unet/create_demo.py:24-30 | one time and one voltage per sample; a voltage is NaN iff its sample is |
| Reconstruct.ScaleRoundTrip | code-unet/create_demo.py:24-30 | every scaled sample maps back to the row it came from |
| Reconstruct.ReconstructFixed | code-unet/reconstruct_signals.py:71-72 | one time and one voltage per mask column |
| Reconstruct.ReconstructDemo | code-unet/create_demo.py:86-90 | one time and one voltage per mask column |
| Reconstruct.VoltageHeightShift | code-unet/create_demo.py:27 | the same row gives the same voltage under two heights iff the heights are equal |
| Reconstruct.ScriptsAgreeIff | code-unet/create_demo.py:86-90 | `reconstruct_signals.py` and the demo give the same signal iff the mask is 180 rows high or has no foreground at all |
| Reconstruct.CsvName | code-unet/reconstruct_signals.py:63-79 | a CSV is written iff the mask name ends in `.nii.gz` |
| Reconstruct.DemoInputs | code-unet/create_demo.py:102-108 | the plotting stage takes a file iff its name ends in `.csv` |
| Reconstruct.DemoInputsRoundTrip | code-unet/create_demo.py:95-108 | for a dot-free case name, the plotting stage finds the mask it reconstructed and the input image of that case |
| Audit.RecordOf | ecg-image-generator/audit_dataset.py:22-27 | a walked file belongs to a record iff its extension is `.dat` or `.hea`; the key is the directory joined with the name without its extension |
| Audit.Add | ecg-image-generator/audit_dataset.py:16-27 | `records[key].add(ext)` keeps the record table well formed: one entry per key |
| Audit.Entries | ecg-image-generator/audit_dataset.py:22-27 | one entry per walked file, in walk order |
| Audit.Group | ecg-image-generator/audit_dataset.py:16-27 | the grouped table is well formed |
| Audit.FoundSnoc | ecg-image-generator/audit_dataset.py:22-27 | a key or key/extension pair is found in a longer walk iff it was found before or in the new file |
| Audit.GroupStep | ecg-image-generator/audit_dataset.py:27 | one more file adds its extension to its record and changes nothing else |
| Audit.GroupContents | ecg-image-generator/audit_dataset.py:22-27 | the grouping holds exactly the records it was given, each with exactly its extensions |
| Audit.CollectContents | ecg-image-generator/audit_dataset.py:22-27 | the walk is grouped into exactly the records of its `.dat` and `.hea` files, each with exactly the extensions found for it |
| Audit.Missing | ecg-image-generator/audit_dataset.py:38-54 | the missing extensions are the expected ones not found, sorted |
| Audit.TallyOf | ecg-image-generator/audit_dataset.py:43-54 | every listed record is one of the keys, with its non-empty list of missing extensions |
| Audit.TallyCounts | ecg-image-generator/audit_dataset.py:47-48 | each total counts the records that have that extension |
| Audit.HavingStep | ecg-image-generator/audit_dataset.py:47-48 | one more key adds itself to the records having an extension iff it has it |
| Audit.ListedAppend | ecg-image-generator/audit_dataset.py:54 | a key is listed in a joined list iff it is listed in one part |
| Audit.TallyListsIncomplete | ecg-image-generator/audit_dataset.py:50-54 | a record is listed iff it lacks `.dat` or `.hea` |
| Audit.TallyOrdered | ecg-image-generator/audit_dataset.py:41-54 | over sorted keys the report lists records in key order |
| Audit.AuditRecords | ecg-image-generator/audit_dataset.py:6-32 | the audit stops at once iff the path is not a directory, and stops after the scan iff no record was found |
| Audit.NoRecordsIff | ecg-image-generator/audit_dataset.py:22-32 | the audit stops before any analysis iff no walked file has a `.dat` or `.hea` extension |
| Audit.SortedKeys | ecg-image-generator/audit_dataset.py:41 | the report's keys are sorted, without repeats, and exactly the collected records |
| Audit.ReportCounts | ecg-image-generator/audit_dataset.py:35-60 | each reported total is the number of records having that extension |
| Audit.ReportIncomplete | ecg-image-generator/audit_dataset.py:36-54 | the listed records are exactly the incomplete ones |
| Audit.ReportOrdered | ecg-image-generator/audit_dataset.py:41-54 | the incomplete records are listed in sorted order, each with its sorted missing extensions |
| Jobs.DatPathsMembers | run_generation_500.py:58-64 | a path is collected iff some walked file ending in `.dat` is at that path |
| Jobs.PairedMembers | ecg-image-generator/run_generation_500.py:46-52 | a `.dat` path is kept iff the header beside it exists |
| Jobs.OutputNameOf | run_generation_500.py:116-117 | the record `dir/stem.dat` produces the image `stem.png` |
| Jobs.PendingMembers | run_generation_500.py:114-122 | a selected file is run iff its output image does not exist yet |
| Jobs.AttemptsStopAtFirstFailure | run_generation_500.py:134-145 | the runs are a prefix of the pending files; only the last can have failed; they stop short only after a failure, and run everything when none fails |
| Jobs.JobSlice | run_generation_500.py:93-102 | the `min`-clipped slice is exactly chunk `j` of the ceiling-division split |
| Jobs.Command500 | run_generation_500.py:124-132 | the worker command has ten words and passes the record after `-i` |
| Jobs.LimitSelectsPrefix500 | run_generation_500.py:70-76 | test mode runs the first `limit` sorted records, whatever the job arguments say |
| Jobs.JobArrayPartition500 | run_generation_500.py:93-111 | job `j` of `t > 0` works on exactly its ceiling-division chunk or stops when that is empty, and the chunks of jobs `0 .. t-1` laid end to end are the whole list |
| Jobs.MissingJobArgsIff500 | run_generation_500.py:70-81 | without a limit, the run stops iff a job argument is missing |
| Jobs.RunStopsAtFirstFailure500 | run_generation_500.py:58-147 | a run that selected files issues one command per attempted record, in order; the attempts are a prefix of the records whose image is missing, only the last can have failed, and they stop short only after a failure |
| Jobs.CommandGen | ecg-image-generator/run_generation_500.py:93-101 | a fixed eight-word prefix, then every unrecognised argument verbatim and in order |
| Jobs.GenCandidates | ecg-image-generator/run_generation_500.py:44-53 | the candidates are sorted and are exactly the walked `.dat` files whose header exists |
| Jobs.ModePriorityGen | ecg-image-generator/run_generation_500.py:57-74 | a range wins over a limit and a job, a limit wins over a job, and a job of `t > 0` works on its ceiling-division chunk |
| Jobs.RangeSelectsGen | ecg-image-generator/run_generation_500.py:58-61 | a range inside the list selects exactly those consecutive records |
| Jobs.RunStopsAtFirstFailureGen | ecg-image-generator/run_generation_500.py:76-111 | a run that selected files issues one command per attempted record, each carrying the pass-through arguments; the attempts are a prefix of the pending records, only the last can have failed, and they stop short only after a failure |
| Crop.ImageFilesMembers | ecg-image-generator/crop_leads.py:39 | the list is sorted and holds exactly the listed names with an image extension, in any letter case |
| Crop.ImagesInMembers | ecg-image-generator/crop_leads.py:39 | a name is kept iff it is listed and has an image extension |
| Crop.CropPixels | ecg-image-generator/crop_leads.py:101 | pixel `(i, k)` of a crop is pixel `(oy + i, ox + k)` of the image, with the slice starts normalised as numpy does, and the crop is as large as the normalised bounds allow |
| Crop.CropPair | ecg-image-generator/crop_leads.py:100-107 | an image and a mask of one size cropped with one box give crops of one size whose pixels come from the same positions |
| Crop.FlattenPairsLength | ecg-image-generator/crop_leads.py:94-113 | pairs laid end to end give twice as many writes |
| Crop.FlattenPairs | ecg-image-generator/crop_leads.py:94-113 | pair `k` lands at positions `2k` and `2k + 1` |
| Crop.PairWritesLength | ecg-image-generator/crop_leads.py:94-113 | an image with `n` detections gives `2n` writes |
| Crop.PairWritesMatch | ecg-image-generator/crop_leads.py:94-111 | writes `2k` and `2k + 1` are the image and mask crops of detection `k`: one file name in the two output directories, one box applied to both pictures |
| Crop.FileCrops | ecg-image-generator/crop_leads.py:77-113 | each counted detection of an image gives two writes |
| Crop.MergeEven | ecg-image-generator/crop_leads.py:76-113 | combined results keep two writes per counted detection |
| Crop.MergeAppend | ecg-image-generator/crop_leads.py:76-113 | combining two runs of results concatenates the writes and adds the totals |
| Crop.CropPairs | ecg-image-generator/crop_leads.py:76-113 | the loop writes two files per counted crop |
| Crop.CropPairsAppend | ecg-image-generator/crop_leads.py:77-113 | running over `xs + ys` writes what `xs` writes, then what `ys` writes, and adds the totals |
| Crop.PerFileAppend | ecg-image-generator/crop_leads.py:77 | the per-file results of a joined list are those of its parts, in order |
| Crop.MissingMaskSkipsImage | ecg-image-generator/crop_leads.py:82-87 | an image whose mask is missing or unreadable contributes nothing |
| Crop.CropPairsTotal | ecg-image-generator/crop_leads.py:76-116 | the reported total is the number of detections over the images that were cropped |
| Crop.PairModes | ecg-image-generator/crop_leads.py:45-66 | a limit overrides the job arguments; a job of `t > 0` works on its ceiling-division chunk; without either the script stops |
| Crop.LeadWrites | codes/code-unet/crop_leads.py:65-77 | one crop per detection |
| Crop.CropLeads | codes/code-unet/crop_leads.py:54-77 | the total counts the writes: one per detection of a readable image |
| Crop.CropLeadsNames | codes/code-unet/crop_leads.py:56-77 | every write is the crop `base_class.png` of one of the detections of a readable image among the files |
| Crop.LeadWritesFrom | codes/code-unet/crop_leads.py:65-76 | every write of one image is the crop of one of its detections, under `base_class.png` |
| Datasets.DatasetNameInjective | code-unet/prepare_data_parallel.py:39 | different ids with one suffix give different data set names |
| Datasets.GetConfig | code-unet/prepare_data_parallel.py:11-40 | a configuration exists iff the model type is `12L` or `LL`; any other type raises |
| Datasets.ConfigNames | code-unet/prepare_data_parallel.py:12-39 | the two data sets are `Dataset007__12L` and `Dataset008__LL`, with different ids |
| Datasets.EcgIdOf | code-unet/prepare_data_parallel.py:94 | a lead image `id_lead.png`, whose lead has no `_`, belongs to ECG `id` |
| Datasets.EcgIdWithoutSeparator | code-unet/prepare_data_parallel.py:94 | a name without `_` has the empty id |
| Datasets.OutNamesOf | code-unet/prepare_data_parallel.py:126-127 | for a dot-free stem, `stem.png` becomes the image `stem_0000.nii.gz` and the label `stem.nii.gz` |
| Datasets.GatherKeys | code-unet/prepare_data_parallel.py:89-97 | the map has a key for exactly the ids of the gathered files |
| Datasets.GatherValues | code-unet/prepare_data_parallel.py:89-97 | each id's list holds exactly its files, in source order and sorted within each source |
| Datasets.Shard | code-unet/prepare_data_parallel.py:106-110 | sharding raises iff there are no shards |
| Datasets.ShardsPartition | code-unet/prepare_data_parallel.py:106-110 | with `t > 0` shards, shard `s` is ceiling-division chunk `s`, and shards `0 .. t-1` laid end to end are the list |
| Datasets.TrainTestPartition | code-unet/prepare_data_parallel.py:115-117 | the training ids followed by the test ids are the list; with a fraction in [0, 1] the training part is the first `int(n * (1 - test_split))` ids |
| Datasets.TrainTestDisjoint | code-unet/prepare_data_parallel.py:115-117 | over a list without repeats, no id is both trained on and tested on |
| Datasets.Binarise | code-unet/prepare_data_parallel.py:48 | the label keeps the mask's shape, and a pixel is 1 iff the mask pixel is positive, 0 otherwise |
| Datasets.BinariseIdempotent | code-unet/prepare_data_parallel.py:48 | binarising twice is binarising once |
| Datasets.ConvertChecked | code-unet/prepare_data_parallel.py:42-59 | the conversion succeeds iff both pictures are readable and non-empty, and writes the binarised mask |
| Datasets.Convert | code-unet/prepare_data.py:37-49 | the conversion succeeds iff both pictures are readable, and writes the binarised mask |
| Datasets.PlanMembers | code-unet/prepare_data_parallel.py:120-141 | a conversion is planned exactly for a file of a listed id whose mask exists; image and mask share the file name |
| Datasets.ConversionsOfMember | code-unet/prepare_data_parallel.py:121-128 | every conversion of one id is of one of its files whose mask exists |
| Datasets.ConversionsOfHas | code-unet/prepare_data_parallel.py:121-128 | every file of one id whose mask exists is converted |
| Datasets.Succeeded | code-unet/prepare_data.py:119-131 | the count of successful conversions is at most the number planned |
| Datasets.SucceededCounts | code-unet/prepare_data.py:119-131 | `train_cases` is the number planned minus those with an unreadable picture |
| Datasets.Unreadable | code-unet/prepare_data.py:130-131 | at most every planned conversion fails |
| Datasets.PrepareShard | code-unet/prepare_data_parallel.py:61-143 | a shard is prepared iff the model type is known and there is at least one shard |
| Datasets.StreamSkipping | code-unet/prepare_data_parallel.py:90-93 | skipping missing image directories, gathering never fails |
| Datasets.UniqueIds | code-unet/prepare_data.py:94-109 | the ids are sorted, each once, and exactly the ids of the gathered files |
| Datasets.Prepare | code-unet/prepare_data.py:66-131 | the run gets past gathering iff every image directory exists; `train_cases` counts the training conversions whose pictures are readable; every id comes from a gathered file |
| Datasets.PrepareIds | code-unet/prepare_data.py:94-115 | when the shuffle covers every position, the ids are exactly the ids of the gathered files |
| Splits.SplitEndsBounds | code-yolo/split_data.py:35-37 | `train_end <= valid_end <= n`, and each part has the size its ratio gives, rounded down |
| Splits.PartsPartition | code-yolo/split_data.py:35-41 | the three parts laid end to end are the shuffled list |
| Splits.LabelNameOf | code-yolo/split_data.py:51 | the label of `stem.png` is `stem.txt` |
| Splits.FileCopiesImage | code-yolo/split_data.py:50-59 | an image is copied iff it and its label exist, and then its label is copied too |
| Splits.PartCopiesMembers | code-yolo/split_data.py:46-64 | an image of a part is copied iff it and its label exist, and then its label is copied into the same part |
| Splits.PartCopiesStayInPart | code-yolo/split_data.py:54-55 | every copy of a part goes into that part's `images` or `labels` folder, and image copies come from the part's files |
| Splits.SplitData | code-yolo/split_data.py:12-33 | the split stops iff the image directory is missing, else iff the label directory is missing, else iff no listed name ends in `.png` |
| Splits.SplitDataCopied | code-yolo/split_data.py:27-64 | when the shuffle covers every position, an image is copied into a part iff it is a listed `.png` whose image and label both exist |

## Left out

- Drawing: matplotlib plotting, text, grid, ticks and `savefig`, PIL drawing and SimpleITK writing. Only the coordinates and boxes the code computes are modelled; canvas sizes and the `transData` map are inputs.
- File and directory I/O: `os.walk`, `listdir`, `exists`, `makedirs`, copying, and reading images, masks, JSON and CSV. The model takes listings, existence sets and file contents as parameters and returns the writes and copies as values.
- Randomness: `random.shuffle` in the split and prepare scripts is an input permutation (`Permute` with an order). The `.rvs()` appearance draws of the generator are inputs as well.
- Foreign code: YOLO predict, train and val (including the mAP part of the evaluation), the nnU-Net command line, the torch architecture, cv2 morphology and the wfdb and scipy loaders. Detections and loaded arrays are parameters. Whether the detector loads in `crop_leads` is a boolean input.
- Floating point: every quantity is an exact real. `int(x)` is truncation toward zero, `round` is half-to-even and `//` is floor division. IEEE rounding of `int(n*ratio)` and `int(rate*secs)` is not modelled, and NaN handling (`nanmin`, `nanmax`) is replaced by `Option` where the code can produce it.
- Trigonometry and logarithms: the CIoU `atan` aspect term is not computed, so the model's CIoU is the DIoU value. The SNR is kept as a power ratio, without the `10*log10`. Bounding-box rotation is also left out.
- Pandas interpolation and `fillna` in the signal reconstruction: columns without foreground stay `None` instead of being interpolated, and writing the CSV is left out.
- Number parsing accepts optional sign, digits and one decimal point. Exponents, `inf` and `nan` spellings are not accepted. Upper and lower casing is ASCII-only.
- `generate_dataset_json` (code-unet/prepare_data.py:150) is called but defined nowhere, so the run raises at that point. The model stops at the plan that precedes the call.
- `process_ecg_subset` (code-unet/prepare_data.py:51-64) is never called by `main` and reads an argument the parser does not define.
- MaskMetrics.Zip: numpy broadcasting is not modelled. Arrays of different shapes make the element-wise operations fail, where numpy would broadcast compatible shapes (code-unet/evaluate_per_lead.py:22, 84-86). `calculate_dice` checks only that the two masks agree in shape; the original image is never checked against them, so an image whose shape merely broadcasts against the masks makes `FileMetrics` give no result where the script would compute one.
- Windower.Config: `paper_len` and `abs_lead_step` are mandatory fields, so the `KeyError` that ecg-image-generator/extract_leads.py:88-89 raises when either key is missing from the configuration is not modelled.
- The mutable default `json_dict=dict()` shared across calls of `ecg_plot` (ecg-image-generator/ecg_plot.py:9): each call is modelled with a fresh dictionary.
- Progress bars, printing, argparse and the `.6f` formatting of reports.
- Training, inference, plotting and debug scripts outside the pipeline's core.
- MaskMetrics.FileMetrics: its contract states the shape checks and the Dice score. The MSE value is stated only for a perfect prediction (`PerfectPrediction`); how the SNR follows from the MSE is stated by `SnrAgreesWithMse`.
- Reconstruct.ReconstructFixed: its contract gives only the lengths. How it relates to the demo's reconstruction is stated by `ScriptsAgreeIff`, and the scaling by `ScaleRoundTrip`.
- Reconstruct.ReconstructDemo: its contract gives only the lengths, as for `ReconstructFixed`.
- Crop.LeadWrites: its contract gives the count. The contents of each write are stated by `LeadWritesFrom`.
- Matching.GtBoxes: its contract states only the missing-file case. Parsing of the lines is stated on `GtLines`.
- Matching.AnalyzeImage: its contract states only the missing-label case. The greedy matching itself is stated by `GreedyMissed` and the class checks by `StandardChecked` and `StandardSwap`.

## Findings

| source | as written | input that shows it | evidently intended | confidence | as-written member | corrected member |
|---|---|---|---|---|---|---|
| ecg-image-generator/extract_leads.py:55-81 | the lead names are reordered to `desired_order` (line 58) while the recording rows stay in header order, and the dictionary pairs the k-th reordered name with the k-th row (line 81) | header leads `I, II`, with rows `[1.0]` and `[2.0]`, reordered to `II, I`: lead II gets `[1.0]`, the samples of lead I | each lead gets its own samples | high, not executed | Windower.RecordDictReorderMismatch | Windower.RecordDictRows |
| ecg-image-generator/ecg_plot.py:53-84 | the mask pass forces the pulse flag off before computing the trace shift, so its traces are not shifted by the pulse width; the caller's mask call does not pass the frame's `show_dc_pulse` either | a page that shows the pulse, with `dc > 0`: every mask trace lies `dc` to the left of the realistic trace | the mask traces coincide with the drawn traces: the shift follows the frame's pulse choice, and the mask call passes that choice | high, not executed | Plot.PassesAgree | Plot.PassesAgreeCorrected |
| code-yolo/diagnose_json.py:8-17 | rows are compared with the image width and columns with the height | a box with rows 100 to 200 and columns 900 to 1000 on an 1100 by 850 page is flagged as out of bounds | rows are checked against the height and columns against the width | high, not executed | Boxes.DiagnoseVerdictSwapped | Boxes.FlaggedIff |
| code-unet/evaluate_ensemble.py:49-50 | the image name is built by inserting `_0000` before the last extension of `stem.nii.gz` | `stem.nii.gz` pairs with `stem.nii_0000.gz` | `stem_0000.nii.gz`, the name the per-lead script uses | high, not executed | MaskMetrics.EnsembleNameWrong | MaskMetrics.EnsembleNameAgrees |
| codes/code-image-generator/ecg_plot.py:141-144 | the rhythm trace is always shifted by the pulse width of 0.2 | a page without the pulse: the rhythm trace starts 0.2 to the right of its box | the shift applies only when the pulse is shown, as for the lead traces | medium, not executed | PlotLegacy.RhythmTraceOutsideBox | PlotLegacy.RhythmTraceInBox |
| ecg-image-generator/extract_leads.py:52-68 | the two-lead default of one column is overwritten by the configured default of 4 | a two-lead record with no column argument and no configured count gets 4 columns | a two-lead record gets 1 column | medium, not executed | Windower.TwoLeadDefaultLost | Windower.Columns |
| code-yolo/iou_metrics.py:43 | the intersection area is computed as `iou * (A + B - iou * (A + B))` | any box of area 1 paired with itself, such as the unit box (0, 0, 1, 1): a GIoU above 1.9, outside GIoU's range | the intersection `iou * (A + B) / (1 + iou)`, which makes the GIoU of a box with itself its IoU | high, not executed | Iou.GeneralizedIouIdentical | Iou.GeneralizedIouOfSame |
| code-yolo/iou_metrics.py:85 | `complete_box_iou` returns `giou`, which is bound nowhere in the function | any matched ground-truth box makes the evaluation raise `NameError` | the generalized IoU of the two boxes is returned | high, not executed | Matching.EvaluationAsWrittenRaises | Matching.CompleteBoxIou |
