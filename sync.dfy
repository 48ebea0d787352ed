/** The synchronization coordinator of `displaySelectedData` (js/dashboard.js): the
    `plotly_relayout` and `plotly_hover` handlers on every active chart. What each handler
    asks `Plotly.relayout` to do to a chart is a `Patch`; `SyncUpdate` maps an event to
    the patch of every chart, and `Dashboard` applies them chart by chart. */
module Sync {

  import opened Wrappers
  import opened Types
  import opened SeriesBuilder

  /** A layout shape; the handler adds and removes the one named "hover-line". */
  datatype Shape = Shape(name: string, x0: int, x1: int, y0: real, y1: real)

  /** A layout annotation; the handler adds and removes those named "hover-annotation".
      Its text (the formatted reading and x value) is not part of the model; the reading
      is always a number, since `toFixed` throws on anything else. */
  datatype Annotation = Annotation(name: string, x: int, y: real, ax: int, ay: int, traceName: string, channelId: string)

  /** The parts of `plotDiv.layout` the handlers read and write. `xRange` is
      `xaxis.range` as comparable numbers (laps, fractional once zoomed, or
      milliseconds), `None` when it is not a pair; `yRange` is `yaxis.range`. */
  datatype Layout = Layout(xRange: Option<(real, real)>, xAutorange: bool, yRange: Option<(real, real)>,
                           shapes: seq<Shape>, annotations: seq<Annotation>)

  /** An active chart: its key in `plotDivsMap`, its `plotDataCache` entry and its layout. */
  datatype Chart = Chart(id: ChartId, cache: Option<CacheEntry>, layout: Layout)

  /** The `eventData` of `plotly_relayout`: `xaxis.range[0]`, `xaxis.range[1]` and
      whether `xaxis.autorange` is truthy. */
  datatype RelayoutData = RelayoutData(range0: Option<real>, range1: Option<real>, autorange: bool)

  /** One `Plotly.relayout` call: `{ 'xaxis.range': [r0, r1] }`, `{ 'xaxis.autorange': true }`
      or `{ shapes, annotations }`. */
  datatype Patch = SetRange(r0: real, r1: real) | SetAutorange | SetOverlay(shapes: seq<Shape>, annotations: seq<Annotation>)

  /** A chart event: a range change on the chart with index `master`, a hover whose
      `points` are given by their x values (as comparable numbers), or an unhover. */
  datatype Event = Relayout(master: nat, data: RelayoutData) | Hover(points: seq<int>) | Unhover

  const HoverLine := "hover-line"
  const HoverAnnotation := "hover-annotation"

  // ---------------------------------------------------------------------------------
  // The nearest-index scan.

  /** `minDiff` (`None` is `Infinity`) and `closestIndex`. */
  datatype ScanState = ScanState(minDiff: Option<nat>, closestIndex: int)

  function Dist(v: int, h: int): nat { if v >= h then v - h else h - v }

  /** One `forEach` step at index `idx`. An `undefined` value is skipped; an Invalid Date
      gives a NaN difference, which compares false both ways and changes nothing. */
  function ScanStep(st: ScanState, val: XValue, idx: int, h: int, mode: AxisMode): ScanState
  {
    match val
    case Undefined => st
    case InvalidDate => st
    case At(v) =>
      var diff := Dist(v, h);
      if st.minDiff.None? || diff < st.minDiff.value then ScanState(Some(diff), idx)
      else if Some(diff) == st.minDiff && mode == LapAxis && v == h then ScanState(st.minDiff, idx)
      else st
  }

  /** The scan state after the first `n` values. */
  function ScanPrefix(xValues: seq<XValue>, h: int, mode: AxisMode, n: nat): ScanState
    requires n <= |xValues|
  {
    if n == 0 then ScanState(None, -1)
    else ScanStep(ScanPrefix(xValues, h, mode, n - 1), xValues[n - 1], n - 1, h, mode)
  }

  function ClosestIndex(xValues: seq<XValue>, h: int, mode: AxisMode): int
  {
    ScanPrefix(xValues, h, mode, |xValues|).closestIndex
  }

  /** Whether the scan's differences can be numbers. The scan follows the SELECTED axis
      type; with the lap axis selected but the time axis in use (no lap data) every
      `val - xHoverValue` subtracts a date string from a `Date`, which is NaN. */
  predicate Comparable(selected: AxisMode, used: AxisMode)
  {
    !(selected == LapAxis && used == TimeAxis)
  }

  /** The `closestIndex` the scan leaves, for the selected and the used axis. */
  function HoverIndex(xValues: seq<XValue>, h: int, selected: AxisMode, used: AxisMode): int
  {
    if Comparable(selected, used) then ClosestIndex(xValues, h, selected) else -1
  }

  /** What the scan state after `n` values means. */
  ghost predicate ScanMeaning(xValues: seq<XValue>, h: int, mode: AxisMode, n: nat, st: ScanState)
    requires n <= |xValues|
  {
    var ci := st.closestIndex;
    (ci == -1 <==> forall i | 0 <= i < n :: !xValues[i].At?)
    && (ci == -1 <==> st.minDiff.None?)
    && (ci != -1 ==>
         0 <= ci < n && xValues[ci].At? && st.minDiff == Some(Dist(xValues[ci].v, h))
         && (forall i | 0 <= i < n && xValues[i].At? :: Dist(xValues[i].v, h) >= st.minDiff.value)
         && ((mode == TimeAxis || forall i | 0 <= i < n :: xValues[i] != At(h)) ==>
               forall i | 0 <= i < ci && xValues[i].At? :: Dist(xValues[i].v, h) > st.minDiff.value)
         && ((mode == LapAxis && exists i | 0 <= i < n :: xValues[i] == At(h)) ==>
               xValues[ci] == At(h) && forall i | ci < i < n :: xValues[i] != At(h)))
  }

  lemma {:induction false} ScanPrefixMeaning(xValues: seq<XValue>, h: int, mode: AxisMode, n: nat)
    requires n <= |xValues|
    ensures ScanMeaning(xValues, h, mode, n, ScanPrefix(xValues, h, mode, n))
  {
    if n > 0 {
      ScanPrefixMeaning(xValues, h, mode, n - 1);
      var val := xValues[n - 1];
      if val.At? && mode == LapAxis && val.v == h {
        assert exists i | 0 <= i < n :: xValues[i] == At(h) by { assert xValues[n - 1] == At(h); }
      }
    }
  }

  /** The scan's result: -1 exactly when no value is a number; otherwise an index of a
      number nearest to the hover value; on the time axis the first such index; on the
      lap axis the last index holding the hover value itself when some index does, and
      otherwise the first nearest one. */
  lemma NearestIndexMeaning(xValues: seq<XValue>, h: int, mode: AxisMode)
    ensures var ci := ClosestIndex(xValues, h, mode);
      (ci == -1 <==> forall i | 0 <= i < |xValues| :: !xValues[i].At?)
      && (ci != -1 ==> (0 <= ci < |xValues| && xValues[ci].At?
          && forall i | 0 <= i < |xValues| && xValues[i].At? :: Dist(xValues[i].v, h) >= Dist(xValues[ci].v, h)))
      && (ci != -1 && (mode == TimeAxis || forall i | 0 <= i < |xValues| :: xValues[i] != At(h)) ==>
          forall i | 0 <= i < ci && xValues[i].At? :: Dist(xValues[i].v, h) > Dist(xValues[ci].v, h))
      && (mode == LapAxis && (exists i | 0 <= i < |xValues| :: xValues[i] == At(h)) ==>
          0 <= ci < |xValues| && xValues[ci] == At(h) && forall i | ci < i < |xValues| :: xValues[i] != At(h))
  {
    ScanPrefixMeaning(xValues, h, mode, |xValues|);
  }

  /** The `forEach` over `dataForPlot.xValues` that updates `minDiff` and `closestIndex`. */
  method NearestIndex(xValues: seq<XValue>, xHoverValue: int, selected: AxisMode, used: AxisMode) returns (closestIndex: int)
    ensures closestIndex == HoverIndex(xValues, xHoverValue, selected, used)
    ensures closestIndex == -1 <==> !Comparable(selected, used) || forall i | 0 <= i < |xValues| :: !xValues[i].At?
    ensures closestIndex != -1 ==> 0 <= closestIndex < |xValues| && xValues[closestIndex].At?
  {
    closestIndex := -1;
    var minDiff: Option<nat> := None;
    for idx := 0 to |xValues|
      invariant ScanState(minDiff, closestIndex) ==
        if Comparable(selected, used) then ScanPrefix(xValues, xHoverValue, selected, idx) else ScanState(None, -1)
    {
      var val := xValues[idx];
      if val.Undefined? { continue; }
      // An Invalid Date, and every `Date` when the lap axis is selected, gives NaN.
      if val.At? && Comparable(selected, used) {
        var diff := Dist(val.v, xHoverValue);
        if minDiff.None? || diff < minDiff.value {
          minDiff := Some(diff);
          closestIndex := idx;
        } else if Some(diff) == minDiff && selected == LapAxis && val.v == xHoverValue {
          closestIndex := idx;
        }
      }
    }
    NearestIndexMeaning(xValues, xHoverValue, selected);
  }

  // ---------------------------------------------------------------------------------
  // The annotation side.

  /** `ax`: 40 (annotation to the right of its arrow) when the hover point lies past 75 %
      of a range of positive width, otherwise -40. */
  function AnnotationAx(xHover: int, xRange: Option<(real, real)>): int
  {
    if xRange.Some? && xRange.value.1 - xRange.value.0 > 0.0
       && (xHover as real - xRange.value.0) / (xRange.value.1 - xRange.value.0) > 0.75
    then 40 else -40
  }

  /** Without division: the side flips exactly when `4 * (x - r0) > 3 * (r1 - r0)` for a
      range with `r0 < r1`. */
  lemma AnnotationAxRule(xHover: int, xRange: Option<(real, real)>)
    ensures AnnotationAx(xHover, xRange) == 40 || AnnotationAx(xHover, xRange) == -40
    ensures AnnotationAx(xHover, xRange) == 40 <==>
      xRange.Some? && xRange.value.0 < xRange.value.1
      && 4.0 * (xHover as real - xRange.value.0) > 3.0 * (xRange.value.1 - xRange.value.0)
  {
    if xRange.Some? && xRange.value.1 - xRange.value.0 > 0.0 {
      var r0, r1 := xRange.value.0, xRange.value.1;
      RatioAbove(xHover as real - r0, r1 - r0);
    }
  }

  /** A quotient exceeds 0.75 exactly when four times the numerator exceeds three times
      the (positive) denominator. */
  lemma RatioAbove(num: real, den: real)
    requires den > 0.0
    ensures num / den > 0.75 <==> 4.0 * num > 3.0 * den
  {
    var q := num / den;
    assert q * den == num;
    PositiveFactor(q - 0.75, den);
    assert (q - 0.75) * den == num - 0.75 * den;
  }

  lemma PositiveFactor(a: real, d: real)
    requires d > 0.0
    ensures a > 0.0 <==> a * d > 0.0
  {
    if a > 0.0 { assert a * d > 0.0 * d; }
    if a <= 0.0 { assert a * d <= 0.0 * d; }
  }

  // ---------------------------------------------------------------------------------
  // The hover overlay.

  function Without<T>(items: seq<T>, name: T -> string, n: string): (r: seq<T>)
    ensures |r| <= |items|
    ensures forall i | 0 <= i < |r| :: name(r[i]) != n
  {
    if items == [] then []
    else Without(items[..|items| - 1], name, n) + (if name(items[|items| - 1]) != n then [items[|items| - 1]] else [])
  }

  function ShapeName(s: Shape): string { s.name }
  function AnnotationName(a: Annotation): string { a.name }

  /** The new "hover-line": a vertical line at the hover value spanning `yaxis.range`, or
      0 to 1 when the layout has no range. */
  function HoverShape(layout: Layout, xHover: int): Shape
  {
    Shape(HoverLine, xHover, xHover,
          if layout.yRange.Some? then layout.yRange.value.0 else 0.0,
          if layout.yRange.Some? then layout.yRange.value.1 else 1.0)
  }

  /** `trace.y[idx]` is a number, so an annotation is pushed for it. */
  predicate Annotated(t: CachedTrace, idx: int)
  {
    0 <= idx < |t.y| && t.y[idx].Some? && t.y[idx].value.Number?
  }

  /** `trace.y[idx]` is neither `undefined`, `null` nor a number: `yValue.toFixed`
      throws a TypeError. */
  predicate Unformattable(t: CachedTrace, idx: int)
  {
    0 <= idx < |t.y| && t.y[idx].Some? && t.y[idx].value != Null && !t.y[idx].value.Number?
  }

  /** The annotation pushed for one trace read at `idx`. */
  function ReadingAnnotation(t: CachedTrace, idx: int, xHover: int, ax: int): seq<Annotation>
  {
    if Annotated(t, idx) then [Annotation(HoverAnnotation, xHover, t.y[idx].value.value, ax, -30, t.name, t.channelId)]
    else []
  }

  /** The annotations pushed for `traces`, trace `i` read at index `idx[i]`. */
  function TraceIndexAnnotations(traces: seq<CachedTrace>, idx: seq<int>, xHover: int, ax: int): seq<Annotation>
    requires |idx| == |traces|
  {
    if traces == [] then []
    else TraceIndexAnnotations(traces[..|traces| - 1], idx[..|idx| - 1], xHover, ax)
         + ReadingAnnotation(traces[|traces| - 1], idx[|idx| - 1], xHover, ax)
  }

  /** The positions of the traces that get an annotation, in trace order. */
  function AnnotatedTraces(traces: seq<CachedTrace>, idx: seq<int>): seq<nat>
    requires |idx| == |traces|
  {
    if traces == [] then []
    else AnnotatedTraces(traces[..|traces| - 1], idx[..|idx| - 1])
         + (if Annotated(traces[|traces| - 1], idx[|idx| - 1]) then [|traces| - 1] else [])
  }

  /** `dataForPlot.traces` when the chart has a cache entry with non-empty `xValues`;
      otherwise the handler walks no trace. */
  function HoverTraces(c: Chart): seq<CachedTrace>
  {
    if c.cache.Some? && |c.cache.value.xValues| > 0 then c.cache.value.traces else []
  }

  /** As written: the index the scan finds in the chart's `xValues` (the first surviving
      trace's x values), or -1 when it finds none or that x is `undefined`. */
  function AsWrittenIndex(c: Chart, h: int, selected: AxisMode, used: AxisMode): int
  {
    if c.cache.None? || |c.cache.value.xValues| == 0 then -1
    else
      var xValues := c.cache.value.xValues;
      var ci := HoverIndex(xValues, h, selected, used);
      if ci == -1 || !(0 <= ci < |xValues|) || xValues[ci] == Undefined then -1 else ci
  }

  /** `n` copies of `v`. */
  function Repeat(v: int, n: nat): (r: seq<int>)
    ensures |r| == n && forall i | 0 <= i < n :: r[i] == v
  {
    seq(n, i => v)
  }

  /** As written, every trace is read at that one index. */
  function AsWrittenIndices(c: Chart, h: int, selected: AxisMode, used: AxisMode): (idx: seq<int>)
    ensures |idx| == |HoverTraces(c)|
    ensures forall i | 0 <= i < |idx| :: idx[i] == AsWrittenIndex(c, h, selected, used)
  {
    Repeat(AsWrittenIndex(c, h, selected, used), |HoverTraces(c)|)
  }

  /** Corrected: every trace is read at the nearest index of its own x values. */
  function OwnIndices(c: Chart, h: int, selected: AxisMode, used: AxisMode): (idx: seq<int>)
    ensures |idx| == |HoverTraces(c)|
  {
    seq(|HoverTraces(c)|, i requires 0 <= i < |HoverTraces(c)| => HoverIndex(HoverTraces(c)[i].x, h, selected, used))
  }

  function HoverAnnotationsWith(c: Chart, h: int, idx: seq<int>): seq<Annotation>
    requires |idx| == |HoverTraces(c)|
  {
    TraceIndexAnnotations(HoverTraces(c), idx, h, AnnotationAx(h, c.layout.xRange))
  }

  /** Some trace's reading at its index is no number, so `toFixed` throws. */
  predicate ThrowsWith(c: Chart, idx: seq<int>)
    requires |idx| == |HoverTraces(c)|
  {
    exists i | 0 <= i < |idx| :: Unformattable(HoverTraces(c)[i], idx[i])
  }

  /** The `{ shapes, annotations }` relayout of one chart: the old hover line and hover
      annotations replaced by the new ones. */
  function OverlayWith(c: Chart, h: int, idx: seq<int>): Patch
    requires |idx| == |HoverTraces(c)|
  {
    SetOverlay(Without(c.layout.shapes, ShapeName, HoverLine) + [HoverShape(c.layout, h)],
               Without(c.layout.annotations, AnnotationName, HoverAnnotation) + HoverAnnotationsWith(c, h, idx))
  }

  /** One chart's turn in the hover handler: its patch, or `None` when `toFixed` throws
      before `Plotly.relayout` is reached. */
  function HoverResultWith(c: Chart, h: int, idx: seq<int>): Option<Patch>
    requires |idx| == |HoverTraces(c)|
  {
    if ThrowsWith(c, idx) then None else Some(OverlayWith(c, h, idx))
  }

  function HoverAnnotationsAsWritten(c: Chart, h: int, selected: AxisMode, used: AxisMode): seq<Annotation>
  {
    HoverAnnotationsWith(c, h, AsWrittenIndices(c, h, selected, used))
  }

  function HoverResultAsWritten(c: Chart, h: int, selected: AxisMode, used: AxisMode): Option<Patch>
  {
    HoverResultWith(c, h, AsWrittenIndices(c, h, selected, used))
  }

  function HoverAnnotations(c: Chart, h: int, selected: AxisMode, used: AxisMode): seq<Annotation>
  {
    HoverAnnotationsWith(c, h, OwnIndices(c, h, selected, used))
  }

  function HoverResult(c: Chart, h: int, selected: AxisMode, used: AxisMode): Option<Patch>
  {
    HoverResultWith(c, h, OwnIndices(c, h, selected, used))
  }

  // ---------------------------------------------------------------------------------
  // Events to patches.

  /** `newXRange`: a range when both ends are given, else autorange when it is truthy. */
  function RangeUpdate(data: RelayoutData): Option<Patch>
  {
    if data.range0.Some? && data.range1.Some? then Some(SetRange(data.range0.value, data.range1.value))
    else if data.autorange then Some(SetAutorange)
    else None
  }

  /** The charts' patches when their turns yield `results` in order: an exception
      (`None`) ends the handler, so that chart and every later one are not relayouted. */
  function UntilThrow(results: seq<Option<Patch>>): (patches: seq<Option<Patch>>)
    ensures |patches| == |results|
  {
    if results == [] then []
    else if results[0].None? then seq(|results|, j => None)
    else [results[0]] + UntilThrow(results[1..])
  }

  /** Every chart's turn in the hover handler, when none is cut short. */
  function HoverTurns(charts: seq<Chart>, h: int, selected: AxisMode, used: AxisMode): (results: seq<Option<Patch>>)
    ensures |results| == |charts|
  {
    seq(|charts|, j requires 0 <= j < |charts| => HoverResultAsWritten(charts[j], h, selected, used))
  }

  /** The patch of every chart for an event; `None` where nothing is relayouted. The
      unhover handler's body is empty, so an unhover patches nothing. */
  function SyncUpdate(charts: seq<Chart>, selected: AxisMode, used: AxisMode, ev: Event): (patches: seq<Option<Patch>>)
    ensures |patches| == |charts|
  {
    match ev
    case Relayout(master, data) =>
      seq(|charts|, j requires 0 <= j < |charts| => if j == master then None else RangeUpdate(data))
    case Hover(points) =>
      if points == [] then seq(|charts|, j => None)
      else UntilThrow(HoverTurns(charts, points[0], selected, used))
    case Unhover => seq(|charts|, j => None)
  }

  /** What `Plotly.relayout` does to the layout. After an autorange Plotly recomputes the
      range itself, which is not part of the model. */
  function ApplyPatch(layout: Layout, p: Patch): Layout
  {
    match p
    case SetRange(r0, r1) => layout.(xRange := Some((r0, r1)), xAutorange := false)
    case SetAutorange => layout.(xAutorange := true)
    case SetOverlay(shapes, annotations) => layout.(shapes := shapes, annotations := annotations)
  }

  function Patched(c: Chart, p: Option<Patch>): Chart
  {
    if p.Some? then c.(layout := ApplyPatch(c.layout, p.value)) else c
  }

  function ApplyAll(charts: seq<Chart>, patches: seq<Option<Patch>>): (r: seq<Chart>)
    requires |patches| == |charts|
    ensures |r| == |charts|
  {
    seq(|charts|, j requires 0 <= j < |charts| => Patched(charts[j], patches[j]))
  }

  // ---------------------------------------------------------------------------------
  // Properties.

  /** Range propagation: a range gives every chart but the master that exact range; an
      autorange gives them autorange; any other relayout patches nothing; the master is
      never patched. */
  lemma RelayoutPropagation(charts: seq<Chart>, selected: AxisMode, used: AxisMode, master: nat, data: RelayoutData)
    requires master < |charts|
    ensures var after := ApplyAll(charts, SyncUpdate(charts, selected, used, Relayout(master, data)));
      after[master] == charts[master]
      && (forall j | 0 <= j < |charts| :: after[j].id == charts[j].id && after[j].cache == charts[j].cache
            && after[j].layout.shapes == charts[j].layout.shapes && after[j].layout.annotations == charts[j].layout.annotations)
      && (data.range0.Some? && data.range1.Some? ==> forall j | 0 <= j < |charts| && j != master ::
            after[j].layout.xRange == Some((data.range0.value, data.range1.value)) && !after[j].layout.xAutorange)
      && (!(data.range0.Some? && data.range1.Some?) && data.autorange ==> forall j | 0 <= j < |charts| && j != master ::
            after[j].layout.xAutorange && after[j].layout.xRange == charts[j].layout.xRange)
      && (!(data.range0.Some? && data.range1.Some?) && !data.autorange ==> after == charts)
  {
    var patches := SyncUpdate(charts, selected, used, Relayout(master, data));
    var after := ApplyAll(charts, patches);
    assert forall j | 0 <= j < |charts| :: patches[j] == (if j == master then None else RangeUpdate(data));
    assert forall j | 0 <= j < |charts| :: after[j] == Patched(charts[j], patches[j]);
  }

  /** A chart's turn is relayouted exactly when no turn up to it threw. */
  lemma {:induction false} UntilThrowMeaning(results: seq<Option<Patch>>, j: nat)
    requires j < |results|
    ensures UntilThrow(results)[j] == if forall i | 0 <= i <= j :: results[i].Some? then results[j] else None
  {
    if results[0].Some? && j > 0 {
      UntilThrowMeaning(results[1..], j - 1);
      assert UntilThrow(results)[j] == UntilThrow(results[1..])[j - 1];
      if forall i | 0 <= i <= j - 1 :: results[1..][i].Some? {
        forall i | 0 <= i <= j ensures results[i].Some? {
          if i > 0 { assert results[i] == results[1..][i - 1]; }
        }
      } else {
        var i :| 0 <= i <= j - 1 && results[1..][i].None?;
        assert results[i + 1].None?;
      }
    }
  }

  /** When the turn at `stop` is the first to throw (or none does, `stop` being the
      number of charts), the charts before it are patched and no other. */
  lemma UntilThrowStop(results: seq<Option<Patch>>, stop: nat)
    requires stop <= |results| && (forall i | 0 <= i < stop :: results[i].Some?)
    requires stop < |results| ==> results[stop].None?
    ensures forall i | 0 <= i < |results| :: UntilThrow(results)[i] == if i < stop then results[i] else None
  {
    forall i | 0 <= i < |results| ensures UntilThrow(results)[i] == if i < stop then results[i] else None {
      UntilThrowMeaning(results, i);
      if i >= stop {
        assert !(forall k | 0 <= k <= i :: results[k].Some?) by { assert results[stop].None?; }
      }
    }
  }

  /** Charts whose turns before `stop` were applied, and no other, are the charts with
      `UntilThrow` of their turns applied. */
  lemma PatchedUntilThrow(before: seq<Chart>, after: seq<Chart>, results: seq<Option<Patch>>, stop: nat)
    requires |after| == |before| == |results| && stop <= |results|
    requires forall i | 0 <= i < stop :: results[i].Some?
    requires stop < |results| ==> results[stop].None?
    requires forall i | 0 <= i < stop :: after[i] == Patched(before[i], results[i])
    requires forall i | stop <= i < |after| :: after[i] == before[i]
    ensures after == ApplyAll(before, UntilThrow(results))
  {
    UntilThrowStop(results, stop);
  }

  lemma {:induction false} WithoutExactly<T>(items: seq<T>, name: T -> string, n: string, x: T)
    ensures x in Without(items, name, n) <==> x in items && name(x) != n
  {
    if items != [] {
      WithoutExactly(items[..|items| - 1], name, n, x);
      assert items == items[..|items| - 1] + [items[|items| - 1]];
    }
  }

  /** The annotated positions are in increasing order, below the number of traces. */
  lemma {:induction false} AnnotatedTracesOrdered(traces: seq<CachedTrace>, idx: seq<int>)
    requires |idx| == |traces|
    ensures forall k | 0 <= k < |AnnotatedTraces(traces, idx)| ::
              AnnotatedTraces(traces, idx)[k] < |traces|
              && Annotated(traces[AnnotatedTraces(traces, idx)[k]], idx[AnnotatedTraces(traces, idx)[k]])
    ensures forall a, b | 0 <= a < b < |AnnotatedTraces(traces, idx)| :: AnnotatedTraces(traces, idx)[a] < AnnotatedTraces(traces, idx)[b]
  {
    if traces != [] {
      var n := |traces| - 1;
      var ts, ix := traces[..n], idx[..n];
      AnnotatedTracesOrdered(ts, ix);
      var srcInit := AnnotatedTraces(ts, ix);
      var src := AnnotatedTraces(traces, idx);
      assert src == srcInit + (if Annotated(traces[n], idx[n]) then [n] else []);
      forall k | 0 <= k < |srcInit| ensures src[k] == srcInit[k] && src[k] < n && Annotated(traces[src[k]], idx[src[k]]) {
        assert ts[srcInit[k]] == traces[srcInit[k]] && ix[srcInit[k]] == idx[srcInit[k]];
      }
    }
  }

  /** The annotated positions are exactly the traces whose reading at their index is a
      number. */
  lemma {:induction false} AnnotatedTracesExactly(traces: seq<CachedTrace>, idx: seq<int>)
    requires |idx| == |traces|
    ensures forall i | 0 <= i < |traces| :: i in AnnotatedTraces(traces, idx) <==> Annotated(traces[i], idx[i])
  {
    if traces != [] {
      var n := |traces| - 1;
      var ts, ix := traces[..n], idx[..n];
      AnnotatedTracesExactly(ts, ix);
      AnnotatedTracesOrdered(ts, ix);
      var srcInit := AnnotatedTraces(ts, ix);
      var last: seq<nat> := if Annotated(traces[n], idx[n]) then [n] else [];
      assert AnnotatedTraces(traces, idx) == srcInit + last;
      assert n !in srcInit;
      forall i | 0 <= i < n ensures i in srcInit <==> Annotated(traces[i], idx[i]) {
        assert ts[i] == traces[i] && ix[i] == idx[i];
      }
    }
  }

  /** The `k`-th annotation pushed is that of the `k`-th annotated trace. */
  lemma {:induction false} AnnotationsFromTraces(traces: seq<CachedTrace>, idx: seq<int>, xHover: int, ax: int)
    requires |idx| == |traces|
    ensures var r := TraceIndexAnnotations(traces, idx, xHover, ax);
      var src := AnnotatedTraces(traces, idx);
      |r| == |src|
      && forall k | 0 <= k < |src| :: src[k] < |traces|
           && [r[k]] == ReadingAnnotation(traces[src[k]], idx[src[k]], xHover, ax)
  {
    if traces != [] {
      var n := |traces| - 1;
      var ts, ix := traces[..n], idx[..n];
      AnnotationsFromTraces(ts, ix, xHover, ax);
      assert forall i | 0 <= i < n :: ts[i] == traces[i] && ix[i] == idx[i];
    }
  }

  /** The annotations pushed for the traces are exactly one per trace whose reading at its
      index is a number, in trace order, each showing that reading with the trace's name
      and channel at the hover value. */
  lemma AnnotationsExactly(traces: seq<CachedTrace>, idx: seq<int>, xHover: int, ax: int)
    requires |idx| == |traces|
    ensures var r := TraceIndexAnnotations(traces, idx, xHover, ax);
      var src := AnnotatedTraces(traces, idx);
      |r| == |src|
      && (forall k | 0 <= k < |src| :: src[k] < |traces| && Annotated(traces[src[k]], idx[src[k]])
            && r[k] == Annotation(HoverAnnotation, xHover, traces[src[k]].y[idx[src[k]]].value.value, ax, -30,
                                  traces[src[k]].name, traces[src[k]].channelId))
      && (forall a, b | 0 <= a < b < |src| :: src[a] < src[b])
      && (forall i | 0 <= i < |traces| :: i in src <==> Annotated(traces[i], idx[i]))
  {
    AnnotatedTracesOrdered(traces, idx);
    AnnotatedTracesExactly(traces, idx);
    AnnotationsFromTraces(traces, idx, xHover, ax);
  }

  /** With no index to read at, no trace is annotated. */
  lemma {:induction false} NoIndexNoAnnotations(traces: seq<CachedTrace>, idx: seq<int>, xHover: int, ax: int)
    requires |idx| == |traces| && forall i | 0 <= i < |idx| :: idx[i] < 0
    ensures TraceIndexAnnotations(traces, idx, xHover, ax) == []
  {
    if traces != [] {
      NoIndexNoAnnotations(traces[..|traces| - 1], idx[..|idx| - 1], xHover, ax);
    }
  }

  /** The chart-level meaning of one turn, for any choice of indices: it throws exactly
      when some trace's reading at its index is no number; otherwise the old hover line
      and hover annotations give way to exactly one "hover-line" at the hover value,
      every other shape and annotation staying in its order, followed by the annotations
      `AnnotationsExactly` describes, on the side `AnnotationAx` picks. */
  lemma OverlayMeaning(c: Chart, h: int, idx: seq<int>)
    requires |idx| == |HoverTraces(c)|
    ensures HoverResultWith(c, h, idx).None? <==>
      exists i | 0 <= i < |HoverTraces(c)| :: Unformattable(HoverTraces(c)[i], idx[i])
    ensures var p := OverlayWith(c, h, idx);
      p.SetOverlay?
      && |p.shapes| > 0 && p.shapes[|p.shapes| - 1] == HoverShape(c.layout, h)
      && p.shapes[..|p.shapes| - 1] == Without(c.layout.shapes, ShapeName, HoverLine)
      && (forall i | 0 <= i < |p.shapes| - 1 :: p.shapes[i].name != HoverLine)
      && (forall s | s in c.layout.shapes && s.name != HoverLine :: s in p.shapes)
    ensures var p := OverlayWith(c, h, idx);
      var kept := Without(c.layout.annotations, AnnotationName, HoverAnnotation);
      |kept| <= |p.annotations| && p.annotations[..|kept|] == kept
      && p.annotations[|kept|..] == TraceIndexAnnotations(HoverTraces(c), idx, h, AnnotationAx(h, c.layout.xRange))
      && (forall a | a in c.layout.annotations && a.name != HoverAnnotation :: a in p.annotations)
  {
    var p := OverlayWith(c, h, idx);
    var keptS := Without(c.layout.shapes, ShapeName, HoverLine);
    assert p.shapes == keptS + [HoverShape(c.layout, h)];
    forall s | s in c.layout.shapes && s.name != HoverLine ensures s in p.shapes {
      WithoutExactly(c.layout.shapes, ShapeName, HoverLine, s);
    }
    forall a | a in c.layout.annotations && a.name != HoverAnnotation ensures a in p.annotations {
      WithoutExactly(c.layout.annotations, AnnotationName, HoverAnnotation, a);
    }
    var kept := Without(c.layout.annotations, AnnotationName, HoverAnnotation);
    assert p.annotations == kept + HoverAnnotationsWith(c, h, idx);
  }

  /** As written, one turn reads every trace at the chart's single index `ci`: -1, or
      the nearest numeric index of the chart's `xValues`. The turn throws exactly when
      some trace's reading at `ci` is no number; otherwise it annotates exactly the
      traces whose reading at `ci` is a number, in trace order, with that reading. */
  lemma HoverAsWrittenMeaning(c: Chart, h: int, selected: AxisMode, used: AxisMode)
    ensures var ci := AsWrittenIndex(c, h, selected, used);
      ci == -1 || (c.cache.Some? && 0 <= ci < |c.cache.value.xValues| && c.cache.value.xValues[ci].At?
                   && ci == HoverIndex(c.cache.value.xValues, h, selected, used))
    ensures var ci := AsWrittenIndex(c, h, selected, used);
      var traces := HoverTraces(c);
      HoverResultAsWritten(c, h, selected, used).None? <==> exists i | 0 <= i < |traces| :: Unformattable(traces[i], ci)
    ensures var ci := AsWrittenIndex(c, h, selected, used);
      var traces := HoverTraces(c);
      var added := HoverAnnotationsAsWritten(c, h, selected, used);
      var src := AnnotatedTraces(traces, AsWrittenIndices(c, h, selected, used));
      |added| == |src|
      && (forall k | 0 <= k < |src| :: src[k] < |traces| && Annotated(traces[src[k]], ci)
            && added[k] == Annotation(HoverAnnotation, h, traces[src[k]].y[ci].value.value, AnnotationAx(h, c.layout.xRange), -30,
                                      traces[src[k]].name, traces[src[k]].channelId))
      && (forall a, b | 0 <= a < b < |src| :: src[a] < src[b])
      && (forall i | 0 <= i < |traces| :: i in src <==> Annotated(traces[i], ci))
  {
    var idx := AsWrittenIndices(c, h, selected, used);
    if c.cache.Some? && |c.cache.value.xValues| > 0 && Comparable(selected, used) {
      NearestIndexMeaning(c.cache.value.xValues, h, selected);
    }
    OverlayMeaning(c, h, idx);
    AnnotationsExactly(HoverTraces(c), idx, h, AnnotationAx(h, c.layout.xRange));
  }

  /** Corrected, one turn reads every trace at the nearest index of its own x values;
      it throws exactly when one of those readings is no number, and otherwise annotates
      exactly the traces whose own reading is a number, in trace order, with that
      reading, after the chart's other annotations and below one new hover line. */
  lemma HoverOverlayMeaning(c: Chart, h: int, selected: AxisMode, used: AxisMode)
    ensures var traces := HoverTraces(c);
      HoverResult(c, h, selected, used).None? <==>
        exists i | 0 <= i < |traces| :: Unformattable(traces[i], HoverIndex(traces[i].x, h, selected, used))
    ensures var r := HoverResult(c, h, selected, used);
      r.Some? ==> (r.value.SetOverlay?
        && r.value.shapes == Without(c.layout.shapes, ShapeName, HoverLine) + [HoverShape(c.layout, h)]
        && r.value.annotations == Without(c.layout.annotations, AnnotationName, HoverAnnotation) + HoverAnnotations(c, h, selected, used))
    ensures var traces := HoverTraces(c);
      var added := HoverAnnotations(c, h, selected, used);
      var src := AnnotatedTraces(traces, OwnIndices(c, h, selected, used));
      |added| == |src|
      && (forall k | 0 <= k < |src| :: src[k] < |traces|
            && Annotated(traces[src[k]], HoverIndex(traces[src[k]].x, h, selected, used))
            && added[k] == Annotation(HoverAnnotation, h, traces[src[k]].y[HoverIndex(traces[src[k]].x, h, selected, used)].value.value,
                                      AnnotationAx(h, c.layout.xRange), -30, traces[src[k]].name, traces[src[k]].channelId))
      && (forall a, b | 0 <= a < b < |src| :: src[a] < src[b])
      && (forall i | 0 <= i < |traces| :: i in src <==> Annotated(traces[i], HoverIndex(traces[i].x, h, selected, used)))
  {
    var idx := OwnIndices(c, h, selected, used);
    OverlayMeaning(c, h, idx);
    AnnotationsExactly(HoverTraces(c), idx, h, AnnotationAx(h, c.layout.xRange));
  }

  /** With the lap axis selected but time in use, the scan finds nothing, so a hover
      draws the line but no annotation and never throws, as written or corrected. */
  lemma MixedAxesNoAnnotations(c: Chart, h: int)
    ensures HoverAnnotationsAsWritten(c, h, LapAxis, TimeAxis) == [] && HoverResultAsWritten(c, h, LapAxis, TimeAxis).Some?
    ensures HoverAnnotations(c, h, LapAxis, TimeAxis) == [] && HoverResult(c, h, LapAxis, TimeAxis).Some?
  {
    var ax := AnnotationAx(h, c.layout.xRange);
    NoIndexNoAnnotations(HoverTraces(c), AsWrittenIndices(c, h, LapAxis, TimeAxis), h, ax);
    NoIndexNoAnnotations(HoverTraces(c), OwnIndices(c, h, LapAxis, TimeAxis), h, ax);
  }

  /** A hover patches chart `j` with its own turn's result exactly when no turn up to it
      threw, and not at all otherwise. */
  lemma HoverPatchAt(charts: seq<Chart>, selected: AxisMode, used: AxisMode, points: seq<int>, j: nat)
    requires points != [] && j < |charts|
    ensures var results := HoverTurns(charts, points[0], selected, used);
      SyncUpdate(charts, selected, used, Hover(points))[j] ==
      if forall i | 0 <= i <= j :: results[i].Some? then results[j] else None
  {
    UntilThrowMeaning(HoverTurns(charts, points[0], selected, used), j);
  }

  /** After a hover a chart whose turn came before any exception has exactly one hover
      line, at the hover value; any other chart is unchanged; nothing but shapes and
      annotations ever changes. */
  lemma HoverReplacesMarkers(charts: seq<Chart>, selected: AxisMode, used: AxisMode, points: seq<int>, j: nat)
    requires points != [] && j < |charts|
    ensures var after := ApplyAll(charts, SyncUpdate(charts, selected, used, Hover(points)))[j];
      after.id == charts[j].id && after.cache == charts[j].cache
      && after.layout.xRange == charts[j].layout.xRange && after.layout.yRange == charts[j].layout.yRange
      && after.layout.xAutorange == charts[j].layout.xAutorange
    ensures var after := ApplyAll(charts, SyncUpdate(charts, selected, used, Hover(points)))[j];
      (forall i | 0 <= i <= j :: HoverTurns(charts, points[0], selected, used)[i].Some?) ==>
        |after.layout.shapes| > 0
        && after.layout.shapes[|after.layout.shapes| - 1] == Shape(HoverLine, points[0], points[0],
             if charts[j].layout.yRange.Some? then charts[j].layout.yRange.value.0 else 0.0,
             if charts[j].layout.yRange.Some? then charts[j].layout.yRange.value.1 else 1.0)
        && forall i | 0 <= i < |after.layout.shapes| - 1 :: after.layout.shapes[i].name != HoverLine
    ensures var after := ApplyAll(charts, SyncUpdate(charts, selected, used, Hover(points)))[j];
      !(forall i | 0 <= i <= j :: HoverTurns(charts, points[0], selected, used)[i].Some?) ==> after == charts[j]
  {
    HoverPatchAt(charts, selected, used, points, j);
    OverlayMeaning(charts[j], points[0], AsWrittenIndices(charts[j], points[0], selected, used));
  }

  /** An empty hover and an unhover change nothing. */
  lemma QuietEvents(charts: seq<Chart>, selected: AxisMode, used: AxisMode)
    ensures ApplyAll(charts, SyncUpdate(charts, selected, used, Hover([]))) == charts
    ensures ApplyAll(charts, SyncUpdate(charts, selected, used, Unhover)) == charts
  {
  }

  /** Where each trace's x values are the chart's `xValues` (a chart with one trace, or
      traces valid at the same samples), the corrected turn is the code's. */
  lemma CorrectedAgreesOnAlignedTraces(c: Chart, h: int, selected: AxisMode, used: AxisMode)
    requires c.cache.Some? && forall i | 0 <= i < |c.cache.value.traces| :: c.cache.value.traces[i].x == c.cache.value.xValues
    ensures HoverResult(c, h, selected, used) == HoverResultAsWritten(c, h, selected, used)
    ensures HoverAnnotations(c, h, selected, used) == HoverAnnotationsAsWritten(c, h, selected, used)
  {
    if |c.cache.value.xValues| > 0 && Comparable(selected, used) {
      NearestIndexMeaning(c.cache.value.xValues, h, selected);
    }
    assert OwnIndices(c, h, selected, used) == AsWrittenIndices(c, h, selected, used);
  }

  /** The finding, on a concrete throttle/brake chart: throttle is valid at samples 0 to
      3, brake only at 1 and 3 (readings 7 and 9). At a hover on sample 1 the code
      annotates brake with 9, its reading at sample 3; brake's reading at sample 1 is 7,
      which the corrected turn shows. */
  lemma BrakeAnnotationMisaligned()
    ensures var throttle := CachedTrace("Acelerador", "4", [At(0), At(1), At(2), At(3)],
                                        [Some(Number(10.0)), Some(Number(20.0)), Some(Number(30.0)), Some(Number(40.0))]);
      var brake := CachedTrace("Freno", "5", [At(1), At(3)], [Some(Number(7.0)), Some(Number(9.0))]);
      var c := Chart(ThrottleBrake, Some(CacheEntry(throttle.x, [throttle, brake])), Layout(None, true, None, [], []));
      var asWritten := HoverAnnotationsAsWritten(c, 1, TimeAxis, TimeAxis);
      var corrected := HoverAnnotations(c, 1, TimeAxis, TimeAxis);
      asWritten == [Annotation(HoverAnnotation, 1, 20.0, -40, -30, "Acelerador", "4"), Annotation(HoverAnnotation, 1, 9.0, -40, -30, "Freno", "5")]
      && corrected == [Annotation(HoverAnnotation, 1, 20.0, -40, -30, "Acelerador", "4"), Annotation(HoverAnnotation, 1, 7.0, -40, -30, "Freno", "5")]
      && brake.x[0] == At(1) && brake.y[0] == Some(Number(7.0))
      && asWritten != corrected
  {
    var throttle := CachedTrace("Acelerador", "4", [At(0), At(1), At(2), At(3)],
                                [Some(Number(10.0)), Some(Number(20.0)), Some(Number(30.0)), Some(Number(40.0))]);
    var brake := CachedTrace("Freno", "5", [At(1), At(3)], [Some(Number(7.0)), Some(Number(9.0))]);
    var c := Chart(ThrottleBrake, Some(CacheEntry(throttle.x, [throttle, brake])), Layout(None, true, None, [], []));
    assert ScanPrefix(throttle.x, 1, TimeAxis, 1) == ScanState(Some(1), 0);
    assert ScanPrefix(throttle.x, 1, TimeAxis, 2) == ScanState(Some(0), 1);
    assert ScanPrefix(throttle.x, 1, TimeAxis, 3) == ScanState(Some(0), 1);
    assert ScanPrefix(throttle.x, 1, TimeAxis, 4) == ScanState(Some(0), 1);
    assert ScanPrefix(brake.x, 1, TimeAxis, 1) == ScanState(Some(0), 0);
    assert ScanPrefix(brake.x, 1, TimeAxis, 2) == ScanState(Some(0), 0);
    var traces := [throttle, brake];
    assert HoverTraces(c) == traces;
    var ax := AnnotationAx(1, None);
    assert ax == -40;
    var w := AsWrittenIndices(c, 1, TimeAxis, TimeAxis);
    assert w == [1, 1];
    var o := OwnIndices(c, 1, TimeAxis, TimeAxis);
    assert o == [1, 0];
    assert traces[..1] == [throttle] && [throttle][..0] == [];
    assert w[..1] == [1] && [1][..0] == [];
    assert o[..1] == [1];
    assert TraceIndexAnnotations([throttle], [1], 1, ax) == ReadingAnnotation(throttle, 1, 1, ax);
    assert TraceIndexAnnotations(traces, w, 1, ax) == ReadingAnnotation(throttle, 1, 1, ax) + ReadingAnnotation(brake, 1, 1, ax);
    assert TraceIndexAnnotations(traces, o, 1, ax) == ReadingAnnotation(throttle, 1, 1, ax) + ReadingAnnotation(brake, 0, 1, ax);
  }

  /** A value that is no number but converts to one (a numeric string, say) is a valid
      point of its trace and counts in the gear and DRS ranges, yet a hover on it throws,
      since it has no `toFixed`. */
  lemma CoercibleReadingDrawnButThrows(t: CachedTrace, i: nat, v: real)
    requires i < |t.x| && t.x[i] != Undefined && i < |t.y| && t.y[i] == Some(Coercible(v))
    ensures ValidPoint(t.x, t.y, i)
    ensures v in ValidValues(t.y)
    ensures Unformattable(t, i) && !Annotated(t, i)
  {
    assert t.y[i] in t.y;
    ValidValuesExactly(t.y, v);
  }

  // ---------------------------------------------------------------------------------
  // The handlers, chart by chart.

  /** The prefix of the traces walked so far grows by one trace's annotation. */
  lemma TraceIndexPrefix(traces: seq<CachedTrace>, idx: seq<int>, xHover: int, ax: int, t: nat)
    requires |idx| == |traces| && t < |traces|
    ensures TraceIndexAnnotations(traces[..t + 1], idx[..t + 1], xHover, ax)
         == TraceIndexAnnotations(traces[..t], idx[..t], xHover, ax) + ReadingAnnotation(traces[t], idx[t], xHover, ax)
  {
    assert traces[..t + 1][..t] == traces[..t];
    assert idx[..t + 1][..t] == idx[..t];
  }

  /** The callback of `traces.forEach` for one trace: its reading at `closestIndex` as
      an annotation when it is a number, nothing when it is `undefined` or `null`, and
      the TypeError of `toFixed` (`None`) on any other value. */
  method TraceAnnotation(trace: CachedTrace, closestIndex: int, xHoverValue: int, axVal: int) returns (r: Option<seq<Annotation>>)
    ensures r.None? <==> Unformattable(trace, closestIndex)
    ensures r.Some? ==> r.value == ReadingAnnotation(trace, closestIndex, xHoverValue, axVal)
  {
    var yValue := if 0 <= closestIndex < |trace.y| then trace.y[closestIndex] else None;
    if yValue.Some? && yValue.value != Null {
      if !yValue.value.Number? {
        return None;
      }
      return Some([Annotation(HoverAnnotation, xHoverValue, yValue.value.value, axVal, -30, trace.name, trace.channelId)]);
    }
    return Some([]);
  }

  /** The `traces.forEach` of the hover handler: every trace is read at `closestIndex`
      and its annotation pushed after `kept`, until `toFixed` throws (`None`). */
  method AnnotateTraces(traces: seq<CachedTrace>, closestIndex: int, xHoverValue: int, axVal: int, kept: seq<Annotation>)
    returns (r: Option<seq<Annotation>>)
    ensures r.None? <==> exists i | 0 <= i < |traces| :: Unformattable(traces[i], closestIndex)
    ensures r.Some? ==> r.value == kept + TraceIndexAnnotations(traces, Repeat(closestIndex, |traces|), xHoverValue, axVal)
  {
    ghost var idx := Repeat(closestIndex, |traces|);
    var newAnnotations := kept;
    for t := 0 to |traces|
      invariant newAnnotations == kept + TraceIndexAnnotations(traces[..t], idx[..t], xHoverValue, axVal)
      invariant forall i | 0 <= i < t :: !Unformattable(traces[i], closestIndex)
    {
      TraceIndexPrefix(traces, idx, xHoverValue, axVal, t);
      var pushed := TraceAnnotation(traces[t], closestIndex, xHoverValue, axVal);
      if pushed.None? {
        return None;
      }
      newAnnotations := newAnnotations + pushed.value;
    }
    assert traces[..|traces|] == traces && idx[..|idx|] == idx;
    r := Some(newAnnotations);
  }

  /** The body of the hover handler's `forEach` for one chart: filter the old markers
      out, push the new line, scan the chart's `xValues` once, then walk the traces and
      push an annotation for each reading found at that index. `None` is the TypeError
      `toFixed` throws on a reading that is no number. */
  method HoverChart(c: Chart, xHoverValue: int, selected: AxisMode, used: AxisMode) returns (r: Option<Patch>)
    ensures r == HoverResultAsWritten(c, xHoverValue, selected, used)
  {
    var newShapes := Without(c.layout.shapes, ShapeName, HoverLine);
    var newAnnotations := Without(c.layout.annotations, AnnotationName, HoverAnnotation);
    ghost var idx := AsWrittenIndices(c, xHoverValue, selected, used);
    newShapes := newShapes + [HoverShape(c.layout, xHoverValue)];
    if c.cache.Some? && |c.cache.value.xValues| > 0 {
      var dataForPlot := c.cache.value;
      var closestIndex := NearestIndex(dataForPlot.xValues, xHoverValue, selected, used);
      if closestIndex != -1 && dataForPlot.xValues[closestIndex] != Undefined {
        assert idx == Repeat(closestIndex, |dataForPlot.traces|);
        var axVal := AnnotationAx(xHoverValue, c.layout.xRange);
        var annotated := AnnotateTraces(dataForPlot.traces, closestIndex, xHoverValue, axVal, newAnnotations);
        if annotated.None? {
          var i :| 0 <= i < |dataForPlot.traces| && Unformattable(dataForPlot.traces[i], closestIndex);
          assert Unformattable(HoverTraces(c)[i], idx[i]);
          return None;
        }
        assert !ThrowsWith(c, idx);
        newAnnotations := annotated.value;
      } else {
        assert idx == Repeat(-1, |dataForPlot.traces|);
        NoIndexNoAnnotations(dataForPlot.traces, idx, xHoverValue, AnnotationAx(xHoverValue, c.layout.xRange));
        assert !ThrowsWith(c, idx);
      }
    }
    assert newAnnotations == Without(c.layout.annotations, AnnotationName, HoverAnnotation) + HoverAnnotationsWith(c, xHoverValue, idx);
    r := Some(SetOverlay(newShapes, newAnnotations));
  }

  /** The active charts of the page, whose layouts the handlers relayout, with the axis
      type selected when they were drawn and the one actually used. */
  class Dashboard {
    var charts: seq<Chart>
    const selected: AxisMode
    const used: AxisMode

    constructor (charts: seq<Chart>, selected: AxisMode, used: AxisMode)
      ensures this.charts == charts && this.selected == selected && this.used == used
    {
      this.charts := charts;
      this.selected := selected;
      this.used := used;
    }

    /** `plotly_relayout` on the chart with index `master`. */
    method OnRelayout(master: nat, eventData: RelayoutData)
      requires master < |charts|
      modifies this
      ensures charts == ApplyAll(old(charts), SyncUpdate(old(charts), selected, used, Relayout(master, eventData)))
    {
      ghost var before := charts;
      ghost var patches := SyncUpdate(before, selected, used, Relayout(master, eventData));
      var newXRange := RangeUpdate(eventData);
      if newXRange.Some? {
        for j := 0 to |charts|
          invariant |charts| == |before|
          invariant forall i | 0 <= i < |charts| :: charts[i] == if i < j then Patched(before[i], patches[i]) else before[i]
        {
          if j != master {
            charts := charts[j := charts[j].(layout := ApplyPatch(charts[j].layout, newXRange.value))];
          }
        }
      }
      assert forall i | 0 <= i < |charts| :: charts[i] == Patched(before[i], patches[i]);
    }

    /** One chart's turn in the hover handler: chart `j` gets its new overlay, unless the
      turn throws (`r` is `None`), when nothing changes. */
    method HoverTurn(j: nat, xHoverValue: int) returns (r: Option<Patch>)
      requires j < |charts|
      modifies this
      ensures r == HoverResultAsWritten(old(charts)[j], xHoverValue, selected, used)
      ensures charts == old(charts)[j := Patched(old(charts)[j], r)]
    {
      r := HoverChart(charts[j], xHoverValue, selected, used);
      if r.Some? {
        charts := charts[j := charts[j].(layout := ApplyPatch(charts[j].layout, r.value))];
      }
    }

    /** The `activePlotDivs.forEach` of the hover handler: every chart in turn, the
      master included, gets its new overlay, until a turn throws. */
    method HoverAll(xHoverValue: int)
      modifies this
      ensures charts == ApplyAll(old(charts), UntilThrow(HoverTurns(old(charts), xHoverValue, selected, used)))
    {
      ghost var before := charts;
      ghost var results := HoverTurns(before, xHoverValue, selected, used);
      ghost var stop := |before|;
      var j := 0;
      while j < |charts|
        invariant 0 <= j <= |charts| == |before| && stop == |before|
        invariant forall i | 0 <= i < j :: results[i].Some?
        invariant forall i | 0 <= i < j :: charts[i] == Patched(before[i], results[i])
        invariant forall i | j <= i < |charts| :: charts[i] == before[i]
      {
        var r := HoverTurn(j, xHoverValue);
        assert r == results[j];
        if r.None? {
          stop := j;
          break;
        }
        j := j + 1;
      }
      PatchedUntilThrow(before, charts, results, stop);
    }

    /** `plotly_hover`: nothing without points, otherwise every chart's turn at the
      first point's x value. */
    method OnHover(points: seq<int>)
      modifies this
      ensures charts == ApplyAll(old(charts), SyncUpdate(old(charts), selected, used, Hover(points)))
    {
      if points == [] {
        QuietEvents(charts, selected, used);
        return;
      }
      var xHoverValue := points[0];
      HoverAll(xHoverValue);
    }

    /** `plotly_unhover`: the handler's body is empty. */
    method OnUnhover()
      ensures ApplyAll(charts, SyncUpdate(charts, selected, used, Unhover)) == charts
    {
      QuietEvents(charts, selected, used);
    }
  }
}
