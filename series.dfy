/** The chart series builder of `displaySelectedData` (js/dashboard.js): the traces of
    the five charts, the per-trace point filter and "no data" rule of
    `createOrUpdatePlot`, and the gear and DRS y-ranges. */
module SeriesBuilder {

  import opened Wrappers
  import opened Types

  /** A trace `{ x, y, name, channelIdForHover }`; `y[i] == None` is `undefined`. */
  datatype Trace = Trace(name: string, channelId: string, x: seq<XValue>, y: seq<Option<Reading>>)

  /** What a hover needs of one plotted trace. `x` is the trace's own filtered x values,
      which the chart's cache entry does not keep for any trace but the first. */
  datatype CachedTrace = CachedTrace(name: string, channelId: string, x: seq<XValue>, y: seq<Option<Reading>>)

  /** `plotDataCache[dataKey]` of a plotted chart: the first trace's x values and every
      trace's y values. */
  datatype CacheEntry = CacheEntry(xValues: seq<XValue>, traces: seq<CachedTrace>)

  /** `xVal !== undefined && trace.y[i] !== undefined && trace.y[i] !== null`. */
  predicate ValidPoint(x: seq<XValue>, y: seq<Option<Reading>>, i: nat)
    requires i < |x|
  {
    x[i] != Undefined && i < |y| && y[i].Some? && y[i].value != Null
  }

  /** `validPoints`: the indices below `n` of the valid points, in order. */
  function ValidPoints(x: seq<XValue>, y: seq<Option<Reading>>, n: nat): (r: seq<nat>)
    requires n <= |x|
    ensures |r| <= n && forall k | 0 <= k < |r| :: r[k] < n
  {
    if n == 0 then []
    else ValidPoints(x, y, n - 1) + (if ValidPoint(x, y, n - 1) then [n - 1] else [])
  }

  /** One trace of `validDataTraces` before the empty ones are dropped. */
  function FilterTrace(t: Trace): Trace
  {
    var vp := ValidPoints(t.x, t.y, |t.x|);
    t.(x := seq(|vp|, k requires 0 <= k < |vp| => t.x[vp[k]]),
       y := seq(|vp|, k requires 0 <= k < |vp| => if vp[k] < |t.y| then t.y[vp[k]] else None))
  }

  /** `traces.map(filter).filter(trace => trace.x.length > 0)`. */
  function ValidDataTraces(traces: seq<Trace>): (r: seq<Trace>)
    ensures |r| <= |traces|
  {
    if traces == [] then []
    else
      var t := FilterTrace(traces[|traces| - 1]);
      ValidDataTraces(traces[..|traces| - 1]) + (if |t.x| > 0 then [t] else [])
  }

  /** `createOrUpdatePlot`'s effect on `plotDataCache[dataKey]`: `None` (`null`, and the
      "no data" message) when no trace has a valid point, else the first trace's x values
      and every trace's y values. */
  function CreateOrUpdatePlot(traces: seq<Trace>): Option<CacheEntry>
  {
    var valid := ValidDataTraces(traces);
    if |valid| == 0 || !(exists i | 0 <= i < |valid| :: |valid[i].y| > 0) then None
    else Some(CacheEntry(valid[0].x, seq(|valid|, i requires 0 <= i < |valid| =>
      CachedTrace(valid[i].name, valid[i].channelId, valid[i].x, valid[i].y))))
  }

  // ---------------------------------------------------------------------------------
  // The point filter.

  lemma {:induction false} ValidPointsExactly(x: seq<XValue>, y: seq<Option<Reading>>, n: nat, i: nat)
    requires n <= |x|
    ensures i in ValidPoints(x, y, n) <==> i < n && ValidPoint(x, y, i)
  {
    if n > 0 { ValidPointsExactly(x, y, n - 1, i); }
  }

  lemma {:induction false} ValidPointsIncreasing(x: seq<XValue>, y: seq<Option<Reading>>, n: nat)
    requires n <= |x|
    ensures forall a, b | 0 <= a < b < |ValidPoints(x, y, n)| :: ValidPoints(x, y, n)[a] < ValidPoints(x, y, n)[b]
  {
    if n > 0 { ValidPointsIncreasing(x, y, n - 1); }
  }

  lemma {:induction false} ValidPointsCount(x: seq<XValue>, y: seq<Option<Reading>>, n: nat)
    requires n <= |x|
    ensures |ValidPoints(x, y, n)| == |set i | 0 <= i < n && ValidPoint(x, y, i)|
  {
    if n > 0 {
      ValidPointsCount(x, y, n - 1);
      var before := set i | 0 <= i < n - 1 && ValidPoint(x, y, i);
      var all := set i | 0 <= i < n && ValidPoint(x, y, i);
      if ValidPoint(x, y, n - 1) { assert all == before + {n - 1}; } else { assert all == before; }
    }
  }

  /** The filtered trace is the subsequence of the valid points: `x` and `y` of equal
      length, taken at strictly increasing indices of the input that are exactly its
      valid points, so it has as many points as the input has valid ones, in order. */
  lemma FilteredTrace(t: Trace)
    ensures var f := FilterTrace(t); var vp := ValidPoints(t.x, t.y, |t.x|);
      |f.x| == |f.y| == |vp| == |set i | 0 <= i < |t.x| && ValidPoint(t.x, t.y, i)|
      && (forall k | 0 <= k < |vp| :: vp[k] < |t.x| && vp[k] < |t.y| && f.x[k] == t.x[vp[k]] && f.y[k] == t.y[vp[k]])
      && (forall a, b | 0 <= a < b < |vp| :: vp[a] < vp[b])
      && (forall i | 0 <= i < |t.x| :: ValidPoint(t.x, t.y, i) <==> i in vp)
    ensures var f := FilterTrace(t);
      forall k | 0 <= k < |f.x| :: f.x[k] != Undefined && f.y[k].Some? && f.y[k].value != Null
  {
    var vp := ValidPoints(t.x, t.y, |t.x|);
    ValidPointsCount(t.x, t.y, |t.x|);
    ValidPointsIncreasing(t.x, t.y, |t.x|);
    forall i | 0 <= i < |t.x| ensures ValidPoint(t.x, t.y, i) <==> i in vp {
      ValidPointsExactly(t.x, t.y, |t.x|, i);
    }
    forall k | 0 <= k < |vp| ensures ValidPoint(t.x, t.y, vp[k]) {
      ValidPointsExactly(t.x, t.y, |t.x|, vp[k]);
    }
  }

  /** A trace that survives has a valid point; the traces that survive are the filtered
      input traces with a point, in input order. */
  lemma {:induction false} ValidDataTracesExactly(traces: seq<Trace>, t: Trace)
    ensures t in ValidDataTraces(traces) <==> exists i | 0 <= i < |traces| :: t == FilterTrace(traces[i]) && |t.x| > 0
  {
    if traces != [] {
      var init, last := traces[..|traces| - 1], traces[|traces| - 1];
      var f := FilterTrace(last);
      ValidDataTracesExactly(init, t);
      assert ValidDataTraces(traces) == ValidDataTraces(init) + (if |f.x| > 0 then [f] else []);
      if t in ValidDataTraces(traces) {
        if t in ValidDataTraces(init) {
          var i :| 0 <= i < |init| && t == FilterTrace(init[i]) && |t.x| > 0;
          assert traces[i] == init[i];
        } else {
          assert t == FilterTrace(traces[|traces| - 1]) && |t.x| > 0;
        }
      }
      if exists i | 0 <= i < |traces| :: t == FilterTrace(traces[i]) && |t.x| > 0 {
        var i :| 0 <= i < |traces| && t == FilterTrace(traces[i]) && |t.x| > 0;
        if i < |init| {
          assert traces[i] == init[i];
        } else {
          assert t == f;
        }
      }
    }
  }

  /** A filtered trace keeps a point exactly when the trace has a valid one. */
  lemma FilteredTraceNonEmpty(t: Trace)
    ensures |FilterTrace(t).x| > 0 <==> exists j | 0 <= j < |t.x| :: ValidPoint(t.x, t.y, j)
    ensures |FilterTrace(t).y| == |FilterTrace(t).x|
  {
    var vp := ValidPoints(t.x, t.y, |t.x|);
    if exists j | 0 <= j < |t.x| :: ValidPoint(t.x, t.y, j) {
      var j :| 0 <= j < |t.x| && ValidPoint(t.x, t.y, j);
      ValidPointsExactly(t.x, t.y, |t.x|, j);
    }
    if |vp| > 0 {
      ValidPointsExactly(t.x, t.y, |t.x|, vp[0]);
      assert ValidPoint(t.x, t.y, vp[0]);
    }
  }

  lemma {:induction false} ValidDataTracesEmpty(traces: seq<Trace>)
    ensures ValidDataTraces(traces) == [] <==> forall i | 0 <= i < |traces| :: |FilterTrace(traces[i]).x| == 0
    ensures forall i | 0 <= i < |ValidDataTraces(traces)| :: |ValidDataTraces(traces)[i].y| == |ValidDataTraces(traces)[i].x| > 0
  {
    if traces != [] {
      var init := traces[..|traces| - 1];
      ValidDataTracesEmpty(init);
      FilteredTraceNonEmpty(traces[|traces| - 1]);
      assert forall i | 0 <= i < |init| :: init[i] == traces[i];
    }
  }

  /** A chart is "no data" exactly when none of its traces has a valid point; the
      second half of the guard, that some surviving trace has y values, never decides. */
  lemma NoDataExactly(traces: seq<Trace>)
    ensures CreateOrUpdatePlot(traces).None? <==>
      forall i, j | 0 <= i < |traces| && 0 <= j < |traces[i].x| :: !ValidPoint(traces[i].x, traces[i].y, j)
  {
    ValidDataTracesEmpty(traces);
    forall i | 0 <= i < |traces| ensures |FilterTrace(traces[i]).x| > 0 <==> exists j | 0 <= j < |traces[i].x| :: ValidPoint(traces[i].x, traces[i].y, j) {
      FilteredTraceNonEmpty(traces[i]);
    }
    var valid := ValidDataTraces(traces);
    if valid != [] {
      assert |valid[0].y| > 0;
    }
  }

  // ---------------------------------------------------------------------------------
  // The y-ranges of the gear and DRS charts.

  /** `values.filter(v => v !== undefined && v !== null && !isNaN(v))`, each kept value
      as the number `Math.min`/`Math.max` convert it to. */
  function ValidValues(values: seq<Option<Reading>>): (r: seq<real>)
    ensures |r| <= |values|
  {
    if values == [] then []
    else
      var v := values[|values| - 1];
      ValidValues(values[..|values| - 1])
      + (if v.Some? && AsNumber(v.value).Some? then [AsNumber(v.value).value] else [])
  }

  /** Some reading in `values` passes the filter and converts to `v`: a number `v`, or a
      value that `Number(...)` turns into `v`. */
  predicate HasValue(values: seq<Option<Reading>>, v: real)
  {
    Some(Number(v)) in values || Some(Coercible(v)) in values
  }

  /** `Math.min(0, ...vs)`. */
  function MinWithZero(vs: seq<real>): (r: real)
    ensures r <= 0.0 && forall i | 0 <= i < |vs| :: r <= vs[i]
    ensures r == 0.0 || exists i | 0 <= i < |vs| :: r == vs[i]
  {
    if vs == [] then 0.0
    else
      var m := MinWithZero(vs[..|vs| - 1]);
      assert forall i | 0 <= i < |vs| - 1 :: vs[..|vs| - 1][i] == vs[i];
      if vs[|vs| - 1] < m then vs[|vs| - 1] else m
  }

  /** `Math.max(0, ...vs)`. */
  function MaxWithZero(vs: seq<real>): (r: real)
    ensures r >= 0.0 && forall i | 0 <= i < |vs| :: r >= vs[i]
    ensures r == 0.0 || exists i | 0 <= i < |vs| :: r == vs[i]
  {
    if vs == [] then 0.0
    else
      var m := MaxWithZero(vs[..|vs| - 1]);
      assert forall i | 0 <= i < |vs| - 1 :: vs[..|vs| - 1][i] == vs[i];
      if vs[|vs| - 1] > m then vs[|vs| - 1] else m
  }

  /** The gear chart's `yaxis.range`, set only when there are valid values. */
  function GearRange(values: seq<Option<Reading>>): Option<(real, real)>
  {
    var vs := ValidValues(values);
    if |vs| > 0 then Some((MinWithZero(vs) - 0.5, MaxWithZero(vs) + 0.5)) else None
  }

  /** The DRS chart's `yaxis.range`, with the default `[-0.5, 2.5]` when there are no
      valid values. */
  function DrsRange(values: seq<Option<Reading>>): (real, real)
  {
    var vs := ValidValues(values);
    if |vs| > 0 then (-0.5, MaxWithZero(vs) + 0.5) else (-0.5, 2.5)
  }

  lemma {:induction false} ValidValuesExactly(values: seq<Option<Reading>>, v: real)
    ensures v in ValidValues(values) <==> HasValue(values, v)
  {
    if values != [] {
      ValidValuesExactly(values[..|values| - 1], v);
      assert values == values[..|values| - 1] + [values[|values| - 1]];
    }
  }

  /** The gear range: set exactly when some reading converts to a number; then it spans
      0 and every such reading with half a gear to spare on each side, and each end is that
      half gear beyond 0 or beyond a reading. */
  lemma GearRangeBounds(values: seq<Option<Reading>>)
    ensures GearRange(values).Some? <==> exists v :: HasValue(values, v)
    ensures GearRange(values).Some? ==>
      var (lo, hi) := GearRange(values).value;
      lo <= -0.5 && hi >= 0.5 && lo < hi
      && (forall v | HasValue(values, v) :: lo + 0.5 <= v <= hi - 0.5)
      && (lo == -0.5 || HasValue(values, lo + 0.5))
      && (hi == 0.5 || HasValue(values, hi - 0.5))
  {
    var vs := ValidValues(values);
    forall v ensures v in vs <==> HasValue(values, v) { ValidValuesExactly(values, v); }
    if |vs| > 0 {
      assert vs[0] in vs;
    }
  }

  /** The DRS range: from -0.5 to half a step above the largest reading that converts to
      a number (and at least 0.5), or `[-0.5, 2.5]` when no reading does. */
  lemma DrsRangeBounds(values: seq<Option<Reading>>)
    ensures DrsRange(values).0 == -0.5 && DrsRange(values).0 < DrsRange(values).1
    ensures (forall v :: !HasValue(values, v)) ==> DrsRange(values) == (-0.5, 2.5)
    ensures (exists v :: HasValue(values, v)) ==>
      var hi := DrsRange(values).1;
      hi >= 0.5 && (forall v | HasValue(values, v) :: v <= hi - 0.5)
      && (hi == 0.5 || HasValue(values, hi - 0.5))
  {
    var vs := ValidValues(values);
    forall v ensures v in vs <==> HasValue(values, v) { ValidValuesExactly(values, v); }
    if |vs| > 0 {
      assert vs[0] in vs;
    }
  }

  // ---------------------------------------------------------------------------------
  // The five charts (`plotConfigs` and the throttle/brake chart).

  datatype ChartId = Speed | Rpm | Gear | ThrottleBrake | Drs

  /** `plotDivsMap`'s order, which is also the order of the active charts. */
  const ChartOrder: seq<ChartId> := [Speed, Rpm, Gear, ThrottleBrake, Drs]

  /** `channelMapping[id].name`. */
  function ChannelName(id: string): string
  {
    match id
    case "0" => "RPM"
    case "2" => "Velocidad"
    case "3" => "Marcha"
    case "4" => "Acelerador"
    case "5" => "Freno"
    case "45" => "DRS"
    case _ => ""
  }

  /** `pilotCarData.map(d => d.Channels[chan])`. */
  function ChannelValues(pilotCarData: seq<Sample>, chan: string): (r: seq<Option<Reading>>)
    ensures |r| == |pilotCarData| && forall k | 0 <= k < |r| :: r[k] == ChannelValue(pilotCarData[k], chan)
  {
    seq(|pilotCarData|, k requires 0 <= k < |pilotCarData| => ChannelValue(pilotCarData[k], chan))
  }

  function ChannelTrace(xAxisData: seq<XValue>, pilotCarData: seq<Sample>, chan: string): Trace
  {
    Trace(ChannelName(chan), chan, xAxisData, ChannelValues(pilotCarData, chan))
  }

  predicate AnyDefined(values: seq<Option<Reading>>)
  {
    exists k | 0 <= k < |values| :: values[k].Some?
  }

  /** The traces handed to `createOrUpdatePlot` for one chart: one channel for speed
      ("2"), RPM ("0"), gear ("3") and DRS ("45"); throttle ("4") and brake ("5") each
      only when some sample has the channel at all. */
  function ChartTraces(id: ChartId, xAxisData: seq<XValue>, pilotCarData: seq<Sample>): seq<Trace>
  {
    match id
    case Speed => [ChannelTrace(xAxisData, pilotCarData, "2")]
    case Rpm => [ChannelTrace(xAxisData, pilotCarData, "0")]
    case Gear => [ChannelTrace(xAxisData, pilotCarData, "3")]
    case Drs => [ChannelTrace(xAxisData, pilotCarData, "45")]
    case ThrottleBrake =>
      (if AnyDefined(ChannelValues(pilotCarData, "4")) then [ChannelTrace(xAxisData, pilotCarData, "4")] else [])
      + (if AnyDefined(ChannelValues(pilotCarData, "5")) then [ChannelTrace(xAxisData, pilotCarData, "5")] else [])
  }

  /** The chart's `yaxis.range`: `None` where the layout sets `autorange` only. */
  function ChartYRange(id: ChartId, pilotCarData: seq<Sample>): Option<(real, real)>
  {
    match id
    case Speed => None
    case Rpm => None
    case Gear => GearRange(ChannelValues(pilotCarData, "3"))
    case Drs => Some(DrsRange(ChannelValues(pilotCarData, "45")))
    case ThrottleBrake => Some((-5.0, 105.0))
  }

  /** A sample gives a point to a chart's only trace exactly when its x is defined and
      its reading of the channel is present and not `null`: so a series of N samples
      whose channel is present in K of them, with all x defined, has K points. */
  lemma SingleChannelPoints(id: ChartId, xAxisData: seq<XValue>, pilotCarData: seq<Sample>)
    requires id != ThrottleBrake && |xAxisData| == |pilotCarData|
    requires forall k | 0 <= k < |xAxisData| :: xAxisData[k] != Undefined
    ensures var t := ChartTraces(id, xAxisData, pilotCarData)[0];
      |FilterTrace(t).x| == |set k | 0 <= k < |pilotCarData| && t.channelId in pilotCarData[k].channels
                                                               && pilotCarData[k].channels[t.channelId] != Null|
  {
    var t := ChartTraces(id, xAxisData, pilotCarData)[0];
    FilteredTrace(t);
    var a := set i | 0 <= i < |t.x| && ValidPoint(t.x, t.y, i);
    var b := set k | 0 <= k < |pilotCarData| && t.channelId in pilotCarData[k].channels && pilotCarData[k].channels[t.channelId] != Null;
    assert a == b;
  }
}
