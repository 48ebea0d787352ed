# F1 telemetry dashboard: the alignment pipeline

This project models the data path of `displaySelectedData` in `js/dashboard.js` and
proves properties of it. The path takes one driver's car telemetry and the session's
lap-count log. It puts every telemetry sample on a common x axis (wall-clock time, or
the lap it belongs to) and builds five synchronized charts: speed, RPM, gear,
throttle/brake and DRS. Zoom and hover on any chart are mirrored on the others.

Modules, in pipeline order:

- `TimeOfDay` (`timeofday.dfy`): `timeStringToDate`, the `HH:MM:SS[.f|.ff|.fff]` parser
  for the prefix of a lap-count line. It is proved against an independent `Clock`
  reading and its written form.
- `Text` (`text.dfy`): the string primitives the pipeline relies on, namely the
  ECMAScript `trim`, `indexOf` and `split`.
- `StableSort` (`stablesort.dfy`): `Array.prototype.sort` with a subtraction comparator.
  It is a pure stable insertion sort plus an in-place array method proved equal to it.
- `LapBoundaries` (`laps.dfy`): the lap-boundary extractor (`map` / `filter(Boolean)` /
  `sort`).
- `CarData` (`cardata.dfy`): the driver lookup and the nested loops that collect
  `pilotCarData`, followed by the in-place sort.
- `AxisMapper` (`axis.dfy`): the x-axis mapping loop for the lap and time axes.
- `SeriesBuilder` (`series.dfy`): the point filter of `createOrUpdatePlot`, the "no data"
  decision, the gear and DRS y-ranges, and the traces of each chart.
- `Sync` (`sync.dfy`): the relayout and hover handlers, as the code writes them. The
  nearest-index scan is a method proved against a fold. Events map to per-chart patches
  through a pure function, and a `Dashboard` class applies the patches chart by chart.
  A hover turn that throws in `toFixed` stops the handler, so that chart and the later
  ones keep their old overlay. The corrected hover, with each trace read at its own
  nearest index, is a separate pure function (see Findings).
- `Pipeline` (`pipeline.dfy`): `displaySelectedData` after the fetches, with its early
  returns, as a method proved equal to a pure `Display` function.

Representation choices:

- Times are integer milliseconds. A sample's `Utc` is an `Instant`, either `Valid(ms)` or
  `Invalid` (an Invalid Date).
- A lap boundary's timestamp is the epoch-day-0 value the parser builds. It is compared
  with absolute sample times as a plain integer, exactly as the code compares the two
  `Date` objects.
- Readings are exact reals, so the ±0.5 of the y-ranges and the 0.75 threshold are exact.
- A channel value is a `Reading`: a number; a value that is no number but that `isNaN`
  lets through and `Math.min`/`Math.max` convert to a number (a numeric string, a
  boolean, an array such as `[5]`), kept with that number; any other non-null value,
  for which `isNaN` holds; or `null`. Only a number has `toFixed`.
- `JSON.parse` is a function parameter returning `None` when it throws or yields a
  falsy value.

Where the specification and the code differ, the model follows the code:

- The `plotly_unhover` handler's body is an empty comment (js/dashboard.js:573).
  Unhovering therefore leaves the hover line and annotations in place, and
  `Sync.QuietEvents` states exactly that.
- The last-lap fallback (js/dashboard.js:378-380) can never fire, for any non-empty
  `lapData`, sorted or not.
- The revert-to-time branch (js/dashboard.js:392-397) can never fire either. The loop
  pushes one value per sample.
- The nearest-index scan returns -1 when no x value is a number. On the time axis this
  covers Invalid Dates as well as `undefined`, because their difference is `NaN`.
- The scan follows the axis type the user selected, not the one in use. With the lap
  axis selected but no lap data, the x values are dates and every difference is
  `NaN`, so a hover draws the line but no annotation (`Sync.MixedAxesNoAnnotations`).
- A reading that is neither a number, `undefined` nor `null` passes the check at
  js/dashboard.js:537, and `toFixed` then throws. The exception leaves the chart's
  `forEach` callback, so no later chart is relayouted either.

## Model

| member | source | states |
|---|---|---|
| TimeOfDay.ParsedValue | js/dashboard.js:56-68 | a string matching `^\d{2}:\d{2}:\d{2}(\.\d{1,3})?$` parses to `((h*60+m)*60+s)*1000` plus its fraction read as tenths, hundredths and thousandths (the `padEnd(3,'0')` rule); hours above 23 carry on linearly |
| TimeOfDay.ParseOnlyClockReadings | js/dashboard.js:56-68 | the parser accepts only strings matching the pattern; each accepted string is exactly the written form of its own clock reading and parses to that reading's value |
| TimeOfDay.FormatThenParse | js/dashboard.js:56-68 | every clock reading with two-digit fields and up to three fractional digits, written out, is accepted with its own milliseconds |
| TimeOfDay.FractionValue | js/dashboard.js:62-66 | the padded millisecond part has the value of the fraction's digits as tenths, hundredths and thousandths |
| TimeOfDay.FormatHasNoBrace | js/dashboard.js:285-287 | a written clock reading has no `{`, so it survives the split at the first brace intact |
| Text.Trim | js/dashboard.js:281-284 | `trim()` is the slice between the leading and trailing ECMAScript whitespace, has no whitespace at either end, and is empty exactly when the string is all whitespace |
| Text.IndexOf | js/dashboard.js:285-286 | `indexOf` is the first index holding the character, or -1 exactly when there is none |
| Text.SplitPiecesHaveNoSeparator | js/dashboard.js:282 | the pieces of `split('\n')` hold no newline |
| Text.JoinSplit | js/dashboard.js:282 | joining the pieces of `split` with the separator gives back the string, so no character is lost or duplicated |
| StableSort.SortPermutes | js/dashboard.js:335 | the sort is a permutation of its input |
| StableSort.SortSorts | js/dashboard.js:335 | when every key is a valid time the result is in non-decreasing key order |
| StableSort.SortStable | js/dashboard.js:335 | elements with equal keys keep their input order, whatever the keys (an Invalid Date compares equal to everything, through `NaN`) |
| StableSort.SortInPlace | js/dashboard.js:335 | the in-place array sort leaves the array equal to the pure sort of its old contents |
| StableSort.InsertLast | js/dashboard.js:335 | one pass of adjacent swaps leaves the first `i + 1` cells equal to the pure insertion of the old `a[i]` into the old prefix, and the cells after them untouched |
| StableSort.InsertPosition | js/dashboard.js:335 | the insertion puts the new element right after the last element it does not precede, when every later one it does precede |
| LapBoundaries.NoBraceNoBoundary | js/dashboard.js:285-286 | a line without `{` yields no boundary |
| LapBoundaries.BlankLineNoBoundary | js/dashboard.js:284 | a blank line yields no boundary |
| LapBoundaries.BoundaryOrigin | js/dashboard.js:285-294 | a boundary comes from a line whose prefix before its first `{` parses as a time of day and whose payload from that `{` parses and carries `CurrentLap`; the boundary holds those two values |
| LapBoundaries.WellFormedLine | js/dashboard.js:283-294 | conversely, a clock reading followed by a payload carrying `CurrentLap` yields exactly that timestamp and lap |
| LapBoundaries.LapDataNullIffBlank | js/dashboard.js:271-281 | `lapData` stays `null` exactly when the fetched text is all whitespace |
| LapBoundaries.SurvivorsExactly | js/dashboard.js:283-297 | `filter(Boolean)` keeps exactly the boundaries that some line yields |
| LapBoundaries.LapDataSortedPermutation | js/dashboard.js:281-297 | extracted `lapData` is sorted non-decreasing by timestamp (`SortedByTimestamp`, the requirement of the lap assignment), is a permutation of the surviving boundaries, and keeps equal timestamps in line order |
| CarData.FindRacingNumber | js/dashboard.js:319-321 | the racing number is that of the first driver entry whose `Tla` matches, and is absent exactly when no entry matches |
| CarData.CollectDriverSamples | js/dashboard.js:320-331 | the nested loops push exactly the specified sequence of samples, in record order and entry order |
| CarData.DriverSamplesExactly | js/dashboard.js:322-329 | a sample is collected exactly when some entry of some record has `Cars[racingNumber].Channels`, and it carries that entry's `Utc` and `Channels` |
| CarData.EntrySamplesCount | js/dashboard.js:324-328 | the number of samples collected from an entry list is the number of its entries that carry the car |
| CarData.SelectPilotCarData | js/dashboard.js:317-335 | the fresh `pilotCarData` array is the sorted selection: no samples without a driver, a driver list, or a matching driver |
| CarData.PilotCarDataSorted | js/dashboard.js:335 | `pilotCarData` is a permutation of the collected samples, in non-decreasing `Utc` order when every `Utc` is valid, with equal `Utc` kept in collection order |
| AxisMapper.MapXAxis | js/dashboard.js:349-404 | one x value per sample; the lap axis is used only when selected with non-empty `lapData`; each x is the sample's lap, `undefined` for an Invalid Date on the lap axis, otherwise its own `Utc`; the warning is shown exactly when the lap axis was selected and time is used |
| AxisMapper.FallbackUnreachable | js/dashboard.js:361-380 | for any non-empty `lapData` the inner loop always assigns a lap, so the last-lap fallback is dead |
| AxisMapper.AssignedLapMeaning | js/dashboard.js:361-377 | on sorted boundaries, a time before the first boundary gets the out-lap `lap > 0 ? lap - 1 : 0`; any other time gets the lap of the last boundary at or before it (so equal timestamps go to the later entry) |
| AxisMapper.AssignedLapInInterval | js/dashboard.js:362-368 | on sorted boundaries, a time inside `[b[i], b[i+1])` (or after the last boundary) gets `b[i].lap` |
| AxisMapper.ScanFindsLastStart | js/dashboard.js:361-370 | once the scan has passed a boundary at or before `t` it ends at the last such boundary |
| AxisMapper.OutLap | js/dashboard.js:374 | the out-lap is never negative and is one below the first recorded lap when that lap is positive |
| AxisMapper.LastStartAtOrBefore | js/dashboard.js:365-366 | the index of the last boundary at or before `t`; every later boundary is after `t` |
| AxisMapper.LapAxisValues | js/dashboard.js:355-381 | on the lap axis an x is `undefined` exactly for an Invalid Date and is never a date |
| SeriesBuilder.FilteredTrace | js/dashboard.js:421-429 | the filtered trace has equal-length `x` and `y`, taken in increasing index order at exactly the valid points (x defined, y neither `undefined` nor `null`), as many as there are valid points |
| SeriesBuilder.ValidPointsExactly | js/dashboard.js:422-424 | an index is kept exactly when its point is valid |
| SeriesBuilder.ValidPointsIncreasing | js/dashboard.js:422-424 | kept indices are in strictly increasing (original) order |
| SeriesBuilder.ValidDataTracesExactly | js/dashboard.js:421-430 | the surviving traces are exactly the filtered input traces that kept a point |
| SeriesBuilder.NoDataExactly | js/dashboard.js:433-436 | a chart is "no data" (its cache entry `null`) exactly when no trace has a valid point; the second half of the guard never decides |
| SeriesBuilder.ValidValuesExactly | js/dashboard.js:454 | the y-range values are exactly the readings that are present, not `null` and not `NaN`, each taken as the number it converts to (so numeric strings or booleans count) |
| SeriesBuilder.MinWithZero | js/dashboard.js:455 | `Math.min(0, ...values)` is at most 0 and every value, and is attained |
| SeriesBuilder.MaxWithZero | js/dashboard.js:455-456 | `Math.max(0, ...values)` is at least 0 and every value, and is attained |
| SeriesBuilder.GearRangeBounds | js/dashboard.js:455 | a gear range exists exactly when some reading converts to a number; its ends are at most -0.5 and at least 0.5, every such reading lies at least half a step inside them, and each end is 0 or an actual reading, widened by 0.5 |
| SeriesBuilder.DrsRangeBounds | js/dashboard.js:456 | the DRS range starts at -0.5 and ends above it: at `[-0.5, 2.5]` when no reading converts to a number, otherwise half a step above the largest of 0 and those readings |
| SeriesBuilder.SingleChannelPoints | js/dashboard.js:451-466 | when every x is defined, a single-channel chart keeps as many points as there are samples whose channel is present and not `null` |
| Sync.NearestIndex | js/dashboard.js:511-522 | the `forEach` that updates `minDiff` and `closestIndex` computes exactly the scan fold for the selected axis type; the result is -1 exactly when the selected and used axis types do not match (lap selected, time used) or no value is a number, and otherwise indexes a number |
| Sync.NearestIndexMeaning | js/dashboard.js:511-522 | the result is -1 exactly when no value is a number, else a minimiser of the distance to the hover value; on the time axis the first minimiser; on the lap axis the last index equal to the hover value when there is one, otherwise the first minimiser |
| Sync.ScanPrefixMeaning | js/dashboard.js:513-521 | the invariant of the scan after each prefix: the minimum so far, attained at `closestIndex`, with the tie rules above |
| Sync.AnnotationAxRule | js/dashboard.js:543-556 | the annotation goes right (`ax = 40`) exactly when the range has positive width and `4 * (x - r0) > 3 * (r1 - r0)`, that is past 75 % of it, for fractional range ends too; otherwise it goes left (`-40`) |
| Sync.RelayoutPropagation | js/dashboard.js:478-489 | a range event gives every chart but the master that exact range (autorange off); an autorange event gives them autorange; any other event changes nothing; the master is never patched; shapes and annotations are untouched |
| Sync.UntilThrowMeaning | js/dashboard.js:495-570 | a chart is relayouted with its turn's patch exactly when no turn up to and including its own threw, and not at all otherwise |
| Sync.AnnotationsExactly | js/dashboard.js:535-566 | the annotations pushed are exactly one per trace whose reading at its index is a number, in trace order, each at the hover value, 30 px above, showing that reading with the trace's name and channel; no other trace gets one |
| Sync.NoIndexNoAnnotations | js/dashboard.js:534 | with no index found, no annotation is pushed |
| Sync.OverlayMeaning | js/dashboard.js:496-569 | a turn throws exactly when some trace's reading at its index is no number; otherwise its patch keeps the chart's other shapes and annotations in their order, adds exactly one `hover-line` at the hover value spanning the y range, and appends the trace annotations |
| Sync.HoverAsWrittenMeaning | js/dashboard.js:508-566 | as the code does it: every trace is read at the one index the scan finds in the chart's x values; the turn throws exactly when a reading there is no number, and otherwise annotates exactly the traces whose reading there is a number, in trace order |
| Sync.HoverOverlayMeaning | js/dashboard.js:496-569 | corrected: every trace is read at its own nearest index; the turn throws exactly when one of those readings is no number, otherwise its patch is the kept markers, one new hover line, and exactly one annotation per trace whose own reading is a number, in trace order |
| Sync.MixedAxesNoAnnotations | js/dashboard.js:511-534 | with the lap axis selected but time in use, a hover adds no annotation and never throws |
| Sync.HoverPatchAt | js/dashboard.js:495-570 | a hover patches chart `j` with its own turn's result exactly when no turn up to it threw |
| Sync.HoverReplacesMarkers | js/dashboard.js:491-569 | after a hover, every active chart, master or not, whose turn came before any exception has exactly one hover line, at the hover value, spanning its y range; any later chart is unchanged; only shapes and annotations ever change |
| Sync.QuietEvents | js/dashboard.js:491-573 | a hover with no points and an unhover change nothing |
| Sync.CorrectedAgreesOnAlignedTraces | js/dashboard.js:534-537 | when every trace has the chart's own x values (every single-trace chart) the corrected turn equals the code's |
| Sync.BrakeAnnotationMisaligned | js/dashboard.js:439-536 | on a concrete throttle/brake chart the code's brake annotation shows 9, the reading of another sample, where the corrected one shows 7; the two differ (see Findings) |
| Sync.CoercibleReadingDrawnButThrows | js/dashboard.js:422-542 | a reading that is no number but converts to one is a valid point (422), counts in the y-range values (454), and makes a hover's `toFixed` throw (542) rather than being annotated |
| Sync.TraceAnnotation | js/dashboard.js:535-565 | one trace's callback pushes its reading at the index when it is a number, nothing for `undefined` or `null`, and throws exactly on any other value |
| Sync.AnnotateTraces | js/dashboard.js:535-566 | the `traces.forEach` throws exactly when some trace's reading at the index is no number, and otherwise appends exactly the trace annotations to the kept ones |
| Sync.HoverChart | js/dashboard.js:496-569 | the per-chart hover body (filter, push line, one scan of the chart's x values, read every trace at that index, push annotations) computes exactly the code's turn, the throw included |
| Sync.SyncUpdate | js/dashboard.js:476-573 | every event yields one patch slot per active chart |
| Sync.Dashboard.OnRelayout | js/dashboard.js:478-489 | the per-chart relayout loop leaves every chart as the pure patches say |
| Sync.Dashboard.HoverTurn | js/dashboard.js:496-569 | one chart's turn relayouts that chart with its patch, or leaves it as it is when the turn throws |
| Sync.Dashboard.HoverAll | js/dashboard.js:495-570 | the `activePlotDivs.forEach` of the hover handler leaves the charts before the first throwing turn patched and every other chart unchanged |
| Sync.Dashboard.OnHover | js/dashboard.js:491-571 | the hover handler leaves every chart as the pure patches say |
| Sync.Dashboard.OnUnhover | js/dashboard.js:573 | the unhover handler changes no chart |
| Pipeline.DisplaySelectedData | js/dashboard.js:271-580 | the body after the fetches, with its early returns, computes exactly `Display` on the `lapData` extracted when the lap axis is selected and the lap-count text was fetched, and `null` otherwise |
| Pipeline.LapAxisFromExtractedLaps | js/dashboard.js:281-377 | when the lap axis is used, the `lapData` extracted from the lap file is sorted by timestamp, so a valid sample time gets the out lap before the first boundary and otherwise the lap of the last boundary at or before it |
| Pipeline.OutcomeCases | js/dashboard.js:311-580 | the function returns silently exactly for blank car data (311) and exactly for a non-blank text without one parseable line (315); otherwise the charts are drawn exactly when a driver, a driver list, a matching entry and at least one of its samples exist, and the "no data" message names the driver exactly when one is selected; a drawn outcome holds the driver's samples (a permutation), at least one, with one x value each |
| Pipeline.DisplayPlots | js/dashboard.js:340-476 | a drawn outcome depends on the texts only through its non-empty `pilotCarData` |
| Pipeline.PlotAll | js/dashboard.js:445-474 | the five `createOrUpdatePlot` calls fill `plotDataCache` with every chart's entry |
| Pipeline.PlotsFields | js/dashboard.js:340-476 | a drawn outcome records the axis used, the warning, one x per sample, each chart's cache entry, and as active charts exactly those with an entry |
| Pipeline.PlottedXValues | js/dashboard.js:349-442 | on a drawn chart no x value is `undefined`; on the lap axis each is a recorded lap or the out-lap, on the time axis each is the `Utc` of a sample |
| Pipeline.ActiveExactly | js/dashboard.js:433-476 | a chart joins the synchronized charts exactly when one of its traces has a valid point |
| Pipeline.CachedXValuesFromAxis | js/dashboard.js:421-442 | a chart's cached x values are defined values of the common `xAxisData` |
| Pipeline.InitialChartsHaveData | js/dashboard.js:433-476 | the charts the handlers start from each carry the cache entry their `createOrUpdatePlot` left, with at least one x value and none `undefined`, start without markers on autorange, and include every chart that has an entry |
| Pipeline.ConnectCharts | js/dashboard.js:476-477 | the handlers are attached to a new dashboard over the active charts, with the axis type selected and the one used |

## Left out

- DOM access, select population, the dropdown cascade and the event listeners (js/dashboard.js:41-54, 71-204, 591-644): UI state only.
- `fetchJSON`, `fetch`, `response.text()` and the URL-keyed caches (js/dashboard.js:23-39, 261-309): network I/O. The fetched texts and the driver list are inputs. A failed lap-count fetch is a `None` lap-count text. A lap-data cache hit is taken to give what extraction gives.
- The meetings-catalog lookup of the session path (js/dashboard.js:242-250): it resolves the URLs to fetch, and returns early with an error message when the meeting list, the Grand Prix or the session is not found (js/dashboard.js:243, 245, 247). These three exits are part of the catalog lookup, which is not modelled; the model starts once the session is resolved.
- `JSON.parse` of car-data and lap-count lines: a parameter. `parseInt(CurrentLap)` is taken to give an integer; a `NaN` lap is not modelled.
- `new Date(e.Utc)`: the date text parser is foreign, so each entry's `Utc` is given already parsed as an `Instant`.
- Sort order with Invalid Dates: the comparator returns `NaN`, which makes it inconsistent, and ECMAScript then leaves the order implementation-defined. The model fixes one order, stable insertion, and proves sortedness only when every key is valid.
- Plotly: `newPlot`, rendering, styling, and the range Plotly computes after autorange. A `yaxis.range` absent from the layout is `None`.
- Nested relayout events: `Plotly.relayout` on a chart fires that chart's own `plotly_relayout` again. The model treats each event as one run of one handler.
- Hover and range values in time mode are date strings that `new Date(...)` converts. The model takes them as already-comparable numbers (integer hover values, real range ends), so a `NaN` hover time or range end is not modelled.
- The `pointNumber` override (js/dashboard.js:524-530): it depends on Plotly's event semantics and a float tolerance.
- Annotation text, units and `toLocaleTimeString` (js/dashboard.js:342-352, 539-542): the text itself is not modelled. The `TypeError` that `toFixed` throws on a non-number is modelled, as the end of the hover handler.
- Where that exception goes after it leaves the Plotly event callback: it is outside the data path.
- `Math.min(0, ...values)` / `Math.max(0, ...values)`: the spread can throw on very large arrays, which the model does not capture.
- Floating point: readings are exact reals.
- Console logging, including the "undefined lap" warning (js/dashboard.js:389-391), and the error display of the `catch` block (js/dashboard.js:582-586).
- `async` / `await`: the handlers and the data path are sequential.

## Findings

| source | as written | input that shows it | evidently intended | confidence | as-written member | corrected member |
|---|---|---|---|---|---|---|
| js/dashboard.js:439-536 | `plotDataCache` keeps only the first surviving trace's x values (lines 439-442). `closestIndex` is found in them and then used to index every trace's own filtered `y`. On the throttle/brake chart the two traces are filtered separately, so their indices need not refer to the same sample. | throttle present at samples 0 to 3 (readings 10, 20, 30, 40); brake only at samples 1 and 3 (readings 7 and 9); hover at sample 1: `closestIndex` is 1, so the brake annotation shows 9, brake's reading at sample 3, although brake reads 7 at sample 1 (`Sync.BrakeAnnotationMisaligned`) | each trace's annotation shows that trace's reading at its own x value nearest the hover point | not executed | Sync.HoverAnnotationsAsWritten | Sync.HoverAnnotations |

The handler models (`Sync.HoverChart`, `Sync.SyncUpdate`, `Sync.Dashboard.OnHover`) follow the code as written. The corrected turn is `Sync.HoverResult`, built on `Sync.HoverAnnotations`; `Sync.HoverOverlayMeaning` states what it does, and `Sync.CorrectedAgreesOnAlignedTraces` shows it agrees with the code wherever the traces share their x values.
