/** The data path of `displaySelectedData` (js/dashboard.js) once the files are
    fetched: the car-data lines are parsed, the driver's samples selected and sorted,
    mapped onto the x axis and turned into one plot per chart. */
module Pipeline {

  import opened Wrappers
  import opened Types
  import opened Text
  import opened StableSort
  import opened LapBoundaries
  import opened CarData
  import opened AxisMapper
  import opened SeriesBuilder
  import opened Sync

  /** `JSON.parse` of one `CarData.jsonl` line: `None` when it throws or yields a falsy
      value. The parser is not part of the model. */
  type RecordParser = string -> Option<CarRecord>

  /** How `displaySelectedData` ends once the session is resolved: the car data is empty
      or has no parseable line (both return silently), the driver has no samples (the
      "no data" or "select a driver" message on every chart), or the charts are drawn. */
  datatype Outcome =
    | NoCarData
    | NoRecords
    | NoDriverData(driverSelected: bool)
    | Plotted(used: AxisMode, xAxisWarning: bool, pilotCarData: seq<Sample>, xAxisData: seq<XValue>,
              plotDataCache: map<ChartId, Option<CacheEntry>>, active: seq<ChartId>)

  /** `lapData`: extracted from `LapCount.jsonStream` on the lap axis when the file was
      fetched (`lapCountText` is `None` when the fetch failed), `null` otherwise. */
  function LapDataFor(selected: AxisMode, lapCountText: Option<string>, parseLap: JsonParser): Option<seq<LapBoundary>>
  {
    if selected == LapAxis && lapCountText.Some? then ExtractLapData(lapCountText.value, parseLap) else None
  }

  /** `allCarDataEntries`: the lines of the trimmed text that parse. */
  function CarRecords(carDataText: string, parseRecord: RecordParser): seq<CarRecord>
  {
    var lines := Split(Trim(carDataText), '\n');
    Somes(seq(|lines|, i requires 0 <= i < |lines| => parseRecord(lines[i])))
  }

  /** `xAxisData` as a function of the samples. */
  function XAxisOf(pilotCarData: seq<Sample>, lapData: Option<seq<LapBoundary>>, selected: AxisMode): (r: seq<XValue>)
    ensures |r| == |pilotCarData|
  {
    if UsedAxis(selected, lapData) == LapAxis
    then seq(|pilotCarData|, k requires 0 <= k < |pilotCarData| => LapX(lapData.value, pilotCarData[k].utc))
    else TimeXs(pilotCarData)
  }

  /** `plotDataCache[id]` after `createOrUpdatePlot` for chart `id`. */
  function ChartPlot(id: ChartId, xAxisData: seq<XValue>, pilotCarData: seq<Sample>): Option<CacheEntry>
  {
    CreateOrUpdatePlot(ChartTraces(id, xAxisData, pilotCarData))
  }

  /** `plotDataCache[key]`: a key never set reads as `undefined`, as falsy as `null`. */
  function Cached(plotDataCache: map<ChartId, Option<CacheEntry>>, id: ChartId): Option<CacheEntry>
  {
    if id in plotDataCache then plotDataCache[id] else None
  }

  /** The map with one key per chart and the value `plot(id)` at `id`. */
  function EveryChart(plot: ChartId -> Option<CacheEntry>): (r: map<ChartId, Option<CacheEntry>>)
    ensures forall id | id in ChartOrder :: id in r
    ensures forall id | id in r :: id in ChartOrder && r[id] == plot(id)
  {
    map[Speed := plot(Speed), Rpm := plot(Rpm), Gear := plot(Gear), ThrottleBrake := plot(ThrottleBrake), Drs := plot(Drs)]
  }

  /** `plotDataCache` after the five `createOrUpdatePlot` calls. */
  function PlotCache(xAxisData: seq<XValue>, pilotCarData: seq<Sample>): (r: map<ChartId, Option<CacheEntry>>)
  {
    EveryChart(id => ChartPlot(id, xAxisData, pilotCarData))
  }

  lemma PlotCacheAt(xAxisData: seq<XValue>, pilotCarData: seq<Sample>, id: ChartId)
    ensures Cached(PlotCache(xAxisData, pilotCarData), id) == ChartPlot(id, xAxisData, pilotCarData)
  {
    assert id in ChartOrder;
  }

  /** `activePlotDivs`: the charts in `plotDivsMap` order that were plotted. */
  function ActiveCharts(ids: seq<ChartId>, plotDataCache: map<ChartId, Option<CacheEntry>>): (r: seq<ChartId>)
    ensures forall id :: id in r <==> id in ids && Cached(plotDataCache, id).Some?
  {
    if ids == [] then []
    else ActiveCharts(ids[..|ids| - 1], plotDataCache) + (if Cached(plotDataCache, ids[|ids| - 1]).Some? then [ids[|ids| - 1]] else [])
  }

  /** The charts drawn for a non-empty `pilotCarData`. */
  function Plots(pilotCarData: seq<Sample>, lapData: Option<seq<LapBoundary>>, selected: AxisMode): Outcome
  {
    var xAxisData := XAxisOf(pilotCarData, lapData, selected);
    var cache := PlotCache(xAxisData, pilotCarData);
    Plotted(UsedAxis(selected, lapData), selected == LapAxis && UsedAxis(selected, lapData) == TimeAxis,
            pilotCarData, xAxisData, cache, ActiveCharts(ChartOrder, cache))
  }

  /** The outcome of `displaySelectedData` for the fetched texts. */
  function Display(carDataText: string, parseRecord: RecordParser, driverTla: string, driverList: Option<seq<DriverEntry>>,
                   lapData: Option<seq<LapBoundary>>, selected: AxisMode): Outcome
  {
    if Trim(carDataText) == "" then NoCarData
    else
      var records := CarRecords(carDataText, parseRecord);
      if records == [] then NoRecords
      else
        var pilotCarData := SortBy(SelectedSamples(records, driverTla, driverList), UtcKey);
        if pilotCarData == [] then NoDriverData(driverTla != "")
        else Plots(pilotCarData, lapData, selected)
  }

  /** The order of `plotConfigs` followed by the throttle/brake call. */
  const PlotOrder: seq<ChartId> := [Speed, Rpm, Gear, Drs, ThrottleBrake]

  /** The `plotConfigs.forEach` and the throttle/brake call, filling `plotDataCache`. */
  method PlotAll(xAxisData: seq<XValue>, pilotCarData: seq<Sample>) returns (plotDataCache: map<ChartId, Option<CacheEntry>>)
    ensures plotDataCache == PlotCache(xAxisData, pilotCarData)
  {
    plotDataCache := map[];
    for k := 0 to |PlotOrder|
      invariant forall id :: id in plotDataCache <==> id in PlotOrder[..k]
      invariant forall id | id in plotDataCache :: plotDataCache[id] == ChartPlot(id, xAxisData, pilotCarData)
    {
      var id := PlotOrder[k];
      plotDataCache := plotDataCache[id := CreateOrUpdatePlot(ChartTraces(id, xAxisData, pilotCarData))];
    }
    assert PlotOrder[..|PlotOrder|] == PlotOrder;
    assert plotDataCache.Keys == PlotCache(xAxisData, pilotCarData).Keys;
  }

  /** The body of `displaySelectedData` after the fetches, with its early returns. */
  method DisplaySelectedData(carDataText: string, parseRecord: RecordParser, driverTla: string,
                             driverList: Option<seq<DriverEntry>>, lapCountText: Option<string>, parseLap: JsonParser,
                             selected: AxisMode)
    returns (outcome: Outcome)
    ensures outcome == Display(carDataText, parseRecord, driverTla, driverList, LapDataFor(selected, lapCountText, parseLap), selected)
  {
    var lapData: Option<seq<LapBoundary>> := None;
    if selected == LapAxis && lapCountText.Some? {
      lapData := ExtractLapData(lapCountText.value, parseLap);
    }
    var trimmed := Trim(carDataText);
    if trimmed == "" { return NoCarData; }
    var lines := Split(trimmed, '\n');
    var allCarDataEntries := Somes(seq(|lines|, i requires 0 <= i < |lines| => parseRecord(lines[i])));
    assert allCarDataEntries == CarRecords(carDataText, parseRecord);
    if |allCarDataEntries| == 0 { return NoRecords; }
    var pilotCarData := SelectPilotCarData(allCarDataEntries, driverTla, driverList);
    if pilotCarData.Length == 0 { return NoDriverData(driverTla != ""); }
    var samples := pilotCarData[..];
    var xAxisData, used, xAxisWarning := MapXAxis(samples, lapData, selected);
    assert xAxisData == XAxisOf(samples, lapData, selected);
    var plotDataCache := PlotAll(xAxisData, samples);
    outcome := Plotted(used, xAxisWarning, samples, xAxisData, plotDataCache, ActiveCharts(ChartOrder, plotDataCache));
  }

  /** The dashboard the sync handlers start from: the active charts with their cache
      entries, each x axis on autorange, no markers, and the y range the layout sets. */
  function InitialCharts(pilotCarData: seq<Sample>, plotDataCache: map<ChartId, Option<CacheEntry>>, active: seq<ChartId>): seq<Chart>
  {
    seq(|active|, j requires 0 <= j < |active| =>
      Chart(active[j], Cached(plotDataCache, active[j]), Layout(None, true, ChartYRange(active[j], pilotCarData), [], [])))
  }

  /** Attaching the handlers: the synchronized dashboard over the active charts of a
      drawn outcome, for the axis type selected and the one used. */
  method ConnectCharts(o: Outcome, selected: AxisMode) returns (d: Dashboard)
    requires o.Plotted?
    ensures fresh(d)
    ensures d.charts == InitialCharts(o.pilotCarData, o.plotDataCache, o.active)
    ensures d.selected == selected && d.used == o.used
  {
    d := new Dashboard(InitialCharts(o.pilotCarData, o.plotDataCache, o.active), selected, o.used);
  }

  // ---------------------------------------------------------------------------------
  // Properties.

  /** The charts the handlers start from are exactly the drawn ones, in `plotDivsMap`
      order: each has the cache entry its `createOrUpdatePlot` left, with at least one x
      value and none `undefined`, no hover markers and its x axis on autorange; and
      every chart with an entry is among them. */
  lemma InitialChartsHaveData(xAxisData: seq<XValue>, pilotCarData: seq<Sample>)
    ensures var cache := PlotCache(xAxisData, pilotCarData);
      var charts := InitialCharts(pilotCarData, cache, ActiveCharts(ChartOrder, cache));
      (forall j | 0 <= j < |charts| ::
         charts[j].cache == ChartPlot(charts[j].id, xAxisData, pilotCarData)
         && charts[j].cache.Some? && |charts[j].cache.value.xValues| > 0
         && (forall k | 0 <= k < |charts[j].cache.value.xValues| :: charts[j].cache.value.xValues[k] != Undefined)
         && charts[j].layout.shapes == [] && charts[j].layout.annotations == [] && charts[j].layout.xAutorange)
      && (forall id | ChartPlot(id, xAxisData, pilotCarData).Some? :: exists j | 0 <= j < |charts| :: charts[j].id == id)
  {
    var cache := PlotCache(xAxisData, pilotCarData);
    var active := ActiveCharts(ChartOrder, cache);
    var charts := InitialCharts(pilotCarData, cache, active);
    forall j | 0 <= j < |charts|
      ensures charts[j].cache == ChartPlot(charts[j].id, xAxisData, pilotCarData)
      ensures charts[j].cache.Some? && |charts[j].cache.value.xValues| > 0
      ensures forall k | 0 <= k < |charts[j].cache.value.xValues| :: charts[j].cache.value.xValues[k] != Undefined
    {
      PlotCacheAt(xAxisData, pilotCarData, charts[j].id);
      assert active[j] in active;
      ChartXValues(charts[j].id, xAxisData, pilotCarData);
    }
    forall id | ChartPlot(id, xAxisData, pilotCarData).Some? ensures exists j | 0 <= j < |charts| :: charts[j].id == id {
      PlotCacheAt(xAxisData, pilotCarData, id);
      assert id in ChartOrder;
      var j :| 0 <= j < |active| && active[j] == id;
      assert charts[j].id == id;
    }
  }

  /** On the lap axis a valid sample time gets the lap of the last extracted boundary at
      or before it, and the out lap before the first one: the extracted `lapData` is
      sorted, which is what the assignment's scan relies on. */
  lemma LapAxisFromExtractedLaps(selected: AxisMode, lapCountText: Option<string>, parseLap: JsonParser, t: int)
    requires UsedAxis(selected, LapDataFor(selected, lapCountText, parseLap)) == LapAxis
    ensures var lapData := LapDataFor(selected, lapCountText, parseLap).value;
      SortedByTimestamp(lapData)
      && (t < lapData[0].timestamp ==> LapX(lapData, Valid(t)) == At(OutLap(lapData)))
      && (t >= lapData[0].timestamp ==> LapX(lapData, Valid(t)) == At(lapData[LastStartAtOrBefore(lapData, t)].lap))
  {
    var lapData := LapDataFor(selected, lapCountText, parseLap).value;
    LapDataSortedPermutation(lapCountText.value, parseLap);
    AssignedLapMeaning(lapData, t);
  }

  /** The early returns and the result: a blank car-data text, and a text without one
      parseable line, return silently; otherwise the charts are drawn exactly when the
      selected driver has samples, and those samples are what is drawn. */
  lemma OutcomeCases(carDataText: string, parseRecord: RecordParser, driverTla: string, driverList: Option<seq<DriverEntry>>,
                     lapData: Option<seq<LapBoundary>>, selected: AxisMode)
    ensures var o := Display(carDataText, parseRecord, driverTla, driverList, lapData, selected);
      (o == NoCarData <==> forall i | 0 <= i < |carDataText| :: IsWhitespace(carDataText[i]))
      && (o == NoRecords <==> (Trim(carDataText) != "" && CarRecords(carDataText, parseRecord) == []))
      && ((Trim(carDataText) != "" && driverTla != "" && driverList.Some? && FindRacingNumber(driverList.value, driverTla).Some?
           && DriverSamples(CarRecords(carDataText, parseRecord), FindRacingNumber(driverList.value, driverTla).value) != []) ==> o.Plotted?)
      && (o.NoDriverData? ==> (o.driverSelected == (driverTla != "") &&
            (driverTla == "" || driverList.None? || FindRacingNumber(driverList.value, driverTla).None?
             || DriverSamples(CarRecords(carDataText, parseRecord), FindRacingNumber(driverList.value, driverTla).value) == [])))
      && (o.Plotted? ==> (driverTla != "" && driverList.Some? && FindRacingNumber(driverList.value, driverTla).Some?
            && multiset(o.pilotCarData) == multiset(DriverSamples(CarRecords(carDataText, parseRecord), FindRacingNumber(driverList.value, driverTla).value))
            && |o.xAxisData| == |o.pilotCarData| > 0))
  {
    var o := Display(carDataText, parseRecord, driverTla, driverList, lapData, selected);
    if Trim(carDataText) != "" {
      var records := CarRecords(carDataText, parseRecord);
      if records != [] {
        var selectedSamples := SelectedSamples(records, driverTla, driverList);
        SortPermutes(selectedSamples, UtcKey);
        if selectedSamples == [] {
          assert SortBy(selectedSamples, UtcKey) == [];
        }
      }
    }
  }

  /** The x values of a plotted chart are points of the chart's traces, so they come
      from `xAxisData` and none is `undefined`. */
  lemma {:induction false} CachedXValuesFromAxis(traces: seq<Trace>, xAxisData: seq<XValue>)
    requires forall i | 0 <= i < |traces| :: traces[i].x == xAxisData
    ensures CreateOrUpdatePlot(traces).Some? ==>
      var e := CreateOrUpdatePlot(traces).value;
      |e.xValues| > 0 && forall k | 0 <= k < |e.xValues| :: e.xValues[k] != Undefined && e.xValues[k] in xAxisData
  {
    var valid := ValidDataTraces(traces);
    if CreateOrUpdatePlot(traces).Some? {
      ValidDataTracesEmpty(traces);
      ValidDataTracesExactly(traces, valid[0]);
      var i :| 0 <= i < |traces| && valid[0] == FilterTrace(traces[i]) && |valid[0].x| > 0;
      FilteredTrace(traces[i]);
    }
  }

  /** Every trace a chart is given is on `xAxisData`. */
  lemma ChartTracesOnAxis(id: ChartId, xAxisData: seq<XValue>, pilotCarData: seq<Sample>)
    ensures forall i | 0 <= i < |ChartTraces(id, xAxisData, pilotCarData)| :: ChartTraces(id, xAxisData, pilotCarData)[i].x == xAxisData
  {
  }

  /** The lap the mapper assigns is one of the recorded laps, or the out-lap. */
  lemma {:induction false} ScanGivesALap(lapData: seq<LapBoundary>, t: int, i: nat)
    requires |lapData| > 0
    ensures ScanFrom(lapData, t, i).Some? ==>
      ScanFrom(lapData, t, i).value == OutLap(lapData) || exists q | 0 <= q < |lapData| :: lapData[q].lap == ScanFrom(lapData, t, i).value
    decreases |lapData| - i
  {
    if i < |lapData| && t >= lapData[i].timestamp && !(i + 1 >= |lapData| || t < lapData[i + 1].timestamp) {
      ScanGivesALap(lapData, t, i + 1);
    }
  }

  /** The x values of a drawn chart are defined values of `xAxisData`. */
  lemma ChartXValues(id: ChartId, xAxisData: seq<XValue>, pilotCarData: seq<Sample>)
    ensures ChartPlot(id, xAxisData, pilotCarData).Some? ==>
      var xs := ChartPlot(id, xAxisData, pilotCarData).value.xValues;
      |xs| > 0 && forall k | 0 <= k < |xs| :: xs[k] != Undefined && xs[k] in xAxisData
  {
    ChartTracesOnAxis(id, xAxisData, pilotCarData);
    CachedXValuesFromAxis(ChartTraces(id, xAxisData, pilotCarData), xAxisData);
  }

  /** On the lap axis every x value is `undefined`, a recorded lap or the out-lap. */
  lemma LapAxisLaps(pilotCarData: seq<Sample>, lapData: seq<LapBoundary>, x: XValue)
    requires |lapData| > 0
    requires x in XAxisOf(pilotCarData, Some(lapData), LapAxis)
    ensures x == Undefined || (x.At? && (x.v == OutLap(lapData) || exists q | 0 <= q < |lapData| :: lapData[q].lap == x.v))
  {
    var j :| 0 <= j < |pilotCarData| && XAxisOf(pilotCarData, Some(lapData), LapAxis)[j] == x;
    var utc := pilotCarData[j].utc;
    if utc.Valid? {
      ScanGivesALap(lapData, utc.ms, 0);
    }
  }

  /** On the lap axis the x values of a drawn chart are recorded laps or the out-lap. */
  lemma PlottedLapValues(pilotCarData: seq<Sample>, lapData: seq<LapBoundary>, id: ChartId)
    requires |lapData| > 0
    ensures var plot := ChartPlot(id, XAxisOf(pilotCarData, Some(lapData), LapAxis), pilotCarData);
      plot.Some? ==> forall k | 0 <= k < |plot.value.xValues| :: var x := plot.value.xValues[k];
        x.At? && (x.v == OutLap(lapData) || exists q | 0 <= q < |lapData| :: lapData[q].lap == x.v)
  {
    var xAxisData := XAxisOf(pilotCarData, Some(lapData), LapAxis);
    var plot := ChartPlot(id, xAxisData, pilotCarData);
    ChartXValues(id, xAxisData, pilotCarData);
    if plot.Some? {
      forall k | 0 <= k < |plot.value.xValues|
        ensures var x := plot.value.xValues[k];
          x.At? && (x.v == OutLap(lapData) || exists q | 0 <= q < |lapData| :: lapData[q].lap == x.v)
      {
        LapAxisLaps(pilotCarData, lapData, plot.value.xValues[k]);
      }
    }
  }

  /** On the time axis the x values of a drawn chart are `Utc` values of samples. */
  lemma PlottedTimeValues(pilotCarData: seq<Sample>, id: ChartId)
    ensures var plot := ChartPlot(id, TimeXs(pilotCarData), pilotCarData);
      plot.Some? ==> forall k | 0 <= k < |plot.value.xValues| ::
        exists j | 0 <= j < |pilotCarData| :: plot.value.xValues[k] == TimeX(pilotCarData[j].utc)
  {
    var xAxisData := TimeXs(pilotCarData);
    var plot := ChartPlot(id, xAxisData, pilotCarData);
    ChartXValues(id, xAxisData, pilotCarData);
    if plot.Some? {
      forall k | 0 <= k < |plot.value.xValues|
        ensures exists j | 0 <= j < |pilotCarData| :: plot.value.xValues[k] == TimeX(pilotCarData[j].utc)
      {
        var j :| 0 <= j < |xAxisData| && xAxisData[j] == plot.value.xValues[k];
      }
    }
  }

  /** The drawn outcome: the axis used, one x value per sample, the cache entry of every
      chart as `createOrUpdatePlot` leaves it, and as active charts exactly those with an
      entry. */
  lemma PlotsFields(pilotCarData: seq<Sample>, lapData: Option<seq<LapBoundary>>, selected: AxisMode, id: ChartId)
    ensures var o := Plots(pilotCarData, lapData, selected);
      o.Plotted? && o.pilotCarData == pilotCarData && o.used == UsedAxis(selected, lapData)
      && (o.xAxisWarning <==> selected == LapAxis && o.used == TimeAxis)
      && o.xAxisData == XAxisOf(pilotCarData, lapData, selected)
      && Cached(o.plotDataCache, id) == ChartPlot(id, o.xAxisData, pilotCarData)
      && (id in o.active <==> Cached(o.plotDataCache, id).Some?)
  {
    PlotCacheAt(XAxisOf(pilotCarData, lapData, selected), pilotCarData, id);
    assert id in ChartOrder;
  }

  /** On a drawn chart no x value is `undefined`: on the lap axis each is a recorded lap
      or the out-lap, on the time axis each is the `Utc` of a sample. */
  lemma PlottedXValues(pilotCarData: seq<Sample>, lapData: Option<seq<LapBoundary>>, selected: AxisMode, id: ChartId)
    ensures var plot := ChartPlot(id, XAxisOf(pilotCarData, lapData, selected), pilotCarData);
      plot.Some? ==>
        var xs := plot.value.xValues;
        |xs| > 0
        && (forall k | 0 <= k < |xs| :: xs[k] != Undefined)
        && (UsedAxis(selected, lapData) == LapAxis ==> lapData.Some? && |lapData.value| > 0 && forall k | 0 <= k < |xs| ::
              xs[k].At? && (xs[k].v == OutLap(lapData.value) || exists q | 0 <= q < |lapData.value| :: lapData.value[q].lap == xs[k].v))
        && (UsedAxis(selected, lapData) == TimeAxis ==> forall k | 0 <= k < |xs| ::
              exists j | 0 <= j < |pilotCarData| :: xs[k] == TimeX(pilotCarData[j].utc))
  {
    var xAxisData := XAxisOf(pilotCarData, lapData, selected);
    ChartXValues(id, xAxisData, pilotCarData);
    if UsedAxis(selected, lapData) == LapAxis {
      assert xAxisData == XAxisOf(pilotCarData, Some(lapData.value), LapAxis);
      PlottedLapValues(pilotCarData, lapData.value, id);
    } else {
      assert xAxisData == TimeXs(pilotCarData);
      PlottedTimeValues(pilotCarData, id);
    }
  }

  /** What is drawn depends on the texts only through `pilotCarData`. */
  lemma DisplayPlots(carDataText: string, parseRecord: RecordParser, driverTla: string, driverList: Option<seq<DriverEntry>>,
                     lapData: Option<seq<LapBoundary>>, selected: AxisMode)
    ensures var o := Display(carDataText, parseRecord, driverTla, driverList, lapData, selected);
      o.Plotted? ==> o.pilotCarData != [] && o == Plots(o.pilotCarData, lapData, selected)
  {
    if Trim(carDataText) != "" {
      var records := CarRecords(carDataText, parseRecord);
      if records != [] {
        var pilotCarData := SortBy(SelectedSamples(records, driverTla, driverList), UtcKey);
        if pilotCarData != [] {
          assert Display(carDataText, parseRecord, driverTla, driverList, lapData, selected) == Plots(pilotCarData, lapData, selected);
        }
      }
    }
  }

  /** A chart is drawn, and joins the synchronized charts, exactly when one of its traces
      has a point with a defined x and a reading that is present and not `null`. */
  lemma ActiveExactly(xAxisData: seq<XValue>, pilotCarData: seq<Sample>, id: ChartId)
    ensures var cache := PlotCache(xAxisData, pilotCarData);
      var traces := ChartTraces(id, xAxisData, pilotCarData);
      id in ActiveCharts(ChartOrder, cache) <==>
        exists i, j | 0 <= i < |traces| && 0 <= j < |traces[i].x| :: ValidPoint(traces[i].x, traces[i].y, j)
  {
    NoDataExactly(ChartTraces(id, xAxisData, pilotCarData));
    assert id in ChartOrder;
  }
}
