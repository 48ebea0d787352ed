/** The x-axis mapper of `displaySelectedData` (js/dashboard.js): one x value per
    sample, its `Utc` on the time axis, or the lap it falls in on the lap axis. Times are
    compared as plain numbers, exactly as the code compares its `Date` objects. */
module AxisMapper {

  import opened Wrappers
  import opened Types

  /** The lap for a sample at time `t` that the inner `for` loop assigns when it is
      entered at index `i`: `None` when it runs off the end without a `break`. */
  function ScanFrom(lapData: seq<LapBoundary>, t: int, i: nat): Option<int>
    decreases |lapData| - i
  {
    if i >= |lapData| then None
    else if t >= lapData[i].timestamp then
      if i + 1 >= |lapData| || t < lapData[i + 1].timestamp then Some(lapData[i].lap)
      else ScanFrom(lapData, t, i + 1)
    else Some(if lapData[0].lap > 0 then lapData[0].lap - 1 else 0)
  }

  /** The `assignedLap` pushed for a valid sample time: the loop's result, or the last
      known lap when the loop assigned nothing. */
  function AssignedLap(lapData: seq<LapBoundary>, t: int): int
    requires |lapData| > 0
  {
    match ScanFrom(lapData, t, 0)
    case Some(lap) => lap
    case None => lapData[|lapData| - 1].lap
  }

  /** The x value of one sample on the lap axis. */
  function LapX(lapData: seq<LapBoundary>, utc: Instant): XValue
    requires |lapData| > 0
  {
    if utc.Invalid? then Undefined else At(AssignedLap(lapData, utc.ms))
  }

  /** The x value of one sample on the time axis: its `Utc` itself. */
  function TimeX(utc: Instant): XValue
  {
    if utc.Invalid? then InvalidDate else At(utc.ms)
  }

  /** The axis actually used: the lap axis only when it was selected and `lapData` is
      non-empty. */
  function UsedAxis(selected: AxisMode, lapData: Option<seq<LapBoundary>>): AxisMode
  {
    if selected == LapAxis && lapData.Some? && |lapData.value| > 0 then LapAxis else TimeAxis
  }

  /** `xAxisData` and the axis it is on. The lap-axis branch keeps the code's
      length-mismatch revert to time; `xAxisWarning` is the orange "no lap data" notice
      shown when the lap axis was selected but there is no `lapData`. */
  method MapXAxis(pilotCarData: seq<Sample>, lapData: Option<seq<LapBoundary>>, selected: AxisMode)
    returns (xAxisData: seq<XValue>, used: AxisMode, xAxisWarning: bool)
    ensures |xAxisData| == |pilotCarData|
    ensures used == UsedAxis(selected, lapData)
    ensures xAxisWarning <==> selected == LapAxis && used == TimeAxis
    ensures used == TimeAxis ==> forall k | 0 <= k < |pilotCarData| :: xAxisData[k] == TimeX(pilotCarData[k].utc)
    ensures used == LapAxis ==> forall k | 0 <= k < |pilotCarData| :: xAxisData[k] == LapX(lapData.value, pilotCarData[k].utc)
  {
    xAxisWarning := false;
    if selected == LapAxis && lapData.Some? && |lapData.value| > 0 {
      var laps := lapData.value;
      used := LapAxis;
      xAxisData := [];
      for k := 0 to |pilotCarData|
        invariant |xAxisData| == k
        invariant forall q | 0 <= q < k :: xAxisData[q] == LapX(laps, pilotCarData[q].utc)
      {
        var carEntry := pilotCarData[k];
        if carEntry.utc.Invalid? {
          xAxisData := xAxisData + [Undefined];
        } else {
          var t := carEntry.utc.ms;
          var assignedLap: Option<int> := None;
          var i := 0;
          while i < |laps|
            invariant 0 <= i <= |laps|
            invariant ScanFrom(laps, t, 0) == if assignedLap.Some? then assignedLap else ScanFrom(laps, t, i)
          {
            var lapStartTimestamp := laps[i].timestamp;
            var nextLapStartTimestamp: Option<int> := if i + 1 < |laps| then Some(laps[i + 1].timestamp) else None;
            if t >= lapStartTimestamp {
              if nextLapStartTimestamp.None? || t < nextLapStartTimestamp.value {
                assignedLap := Some(laps[i].lap);
                break;
              }
            } else {
              assignedLap := Some(if laps[0].lap > 0 then laps[0].lap - 1 else 0);
              break;
            }
            i := i + 1;
          }
          if assignedLap.None? {
            assignedLap := Some(laps[|laps| - 1].lap);
          }
          xAxisData := xAxisData + [At(assignedLap.value)];
        }
      }
      if |xAxisData| != |pilotCarData| {
        xAxisData := TimeXs(pilotCarData);
        used := TimeAxis;
      }
    } else {
      xAxisData := TimeXs(pilotCarData);
      used := TimeAxis;
      xAxisWarning := selected == LapAxis;
    }
  }

  /** `pilotCarData.map(d => d.Utc)`. */
  function TimeXs(pilotCarData: seq<Sample>): (r: seq<XValue>)
    ensures |r| == |pilotCarData| && forall k | 0 <= k < |r| :: r[k] == TimeX(pilotCarData[k].utc)
  {
    seq(|pilotCarData|, k requires 0 <= k < |pilotCarData| => TimeX(pilotCarData[k].utc))
  }

  // ---------------------------------------------------------------------------------
  // What the lap assignment means.

  /** The out-lap rule for a time before the first boundary: one lap before the first
      recorded lap, but never below 0. */
  function OutLap(lapData: seq<LapBoundary>): (r: int)
    requires |lapData| > 0
    ensures r >= 0 && (lapData[0].lap > 0 ==> r == lapData[0].lap - 1)
  {
    if lapData[0].lap > 0 then lapData[0].lap - 1 else 0
  }

  /** The index of the last boundary at or before `t`, given that the first one is. */
  function LastStartAtOrBefore(lapData: seq<LapBoundary>, t: int): (k: nat)
    requires |lapData| > 0 && lapData[0].timestamp <= t
    ensures k < |lapData| && lapData[k].timestamp <= t
    ensures forall j | k < j < |lapData| :: lapData[j].timestamp > t
  {
    if lapData[|lapData| - 1].timestamp <= t then |lapData| - 1
    else LastStartAtOrBefore(lapData[..|lapData| - 1], t)
  }

  /** A scan that reaches index `i` always ends with a `break`: the loop reaches `i` only
      after `t >= lapData[i].timestamp` was seen, and the last index breaks on it. */
  lemma {:induction false} ScanAssigns(lapData: seq<LapBoundary>, t: int, i: nat)
    requires i < |lapData|
    requires i > 0 ==> t >= lapData[i].timestamp
    ensures ScanFrom(lapData, t, i).Some?
    ensures t >= lapData[i].timestamp ==> ScanFrom(lapData, t, i) == Some(ScanFromAbove(lapData, t, i))
    decreases |lapData| - i
  {
    if t >= lapData[i].timestamp && i + 1 < |lapData| && t >= lapData[i + 1].timestamp {
      ScanAssigns(lapData, t, i + 1);
    }
  }

  /** The scan from `i` on when `t` is at or after `lapData[i]`: the first interval
      `[lapData[j], lapData[j + 1])` from there on that holds `t`, the last one being open. */
  function ScanFromAbove(lapData: seq<LapBoundary>, t: int, i: nat): int
    requires i < |lapData|
    decreases |lapData| - i
  {
    if i + 1 >= |lapData| || t < lapData[i + 1].timestamp then lapData[i].lap
    else ScanFromAbove(lapData, t, i + 1)
  }

  /** The last-lap fallback is dead code: for any non-empty `lapData`, sorted or not,
      the loop always assigns a lap. */
  lemma FallbackUnreachable(lapData: seq<LapBoundary>, t: int)
    requires |lapData| > 0
    ensures ScanFrom(lapData, t, 0).Some?
  {
    ScanAssigns(lapData, t, 0);
  }

  /** On sorted boundaries the scan finds the last boundary at or before `t`: with equal
      timestamps the later entry wins. */
  lemma {:induction false} ScanFindsLastStart(lapData: seq<LapBoundary>, t: int, i: nat)
    requires SortedByTimestamp(lapData)
    requires i < |lapData| && lapData[i].timestamp <= t
    ensures lapData[0].timestamp <= t
    ensures ScanFromAbove(lapData, t, i) == lapData[LastStartAtOrBefore(lapData, t)].lap
    decreases |lapData| - i
  {
    var k := LastStartAtOrBefore(lapData, t);
    if i + 1 < |lapData| && t >= lapData[i + 1].timestamp {
      ScanFindsLastStart(lapData, t, i + 1);
    } else {
      assert k == i;
    }
  }

  /** The lap assigned to a valid sample time on sorted, non-empty boundaries: the
      out-lap rule before the first boundary, else the lap of the last boundary at or
      before the time. */
  lemma AssignedLapMeaning(lapData: seq<LapBoundary>, t: int)
    requires |lapData| > 0 && SortedByTimestamp(lapData)
    ensures t < lapData[0].timestamp ==> AssignedLap(lapData, t) == OutLap(lapData)
    ensures t >= lapData[0].timestamp ==> AssignedLap(lapData, t) == lapData[LastStartAtOrBefore(lapData, t)].lap
  {
    ScanAssigns(lapData, t, 0);
    if t >= lapData[0].timestamp {
      ScanFindsLastStart(lapData, t, 0);
    }
  }

  /** On sorted boundaries the assigned lap is that of the one interval
      `[lapData[i].timestamp, lapData[i + 1].timestamp)` holding `t`, the last interval
      being unbounded. */
  lemma AssignedLapInInterval(lapData: seq<LapBoundary>, t: int, i: nat)
    requires |lapData| > 0 && SortedByTimestamp(lapData)
    requires i < |lapData| && lapData[i].timestamp <= t
    requires i + 1 == |lapData| || t < lapData[i + 1].timestamp
    ensures AssignedLap(lapData, t) == lapData[i].lap
  {
    AssignedLapMeaning(lapData, t);
    var k := LastStartAtOrBefore(lapData, t);
    assert i == k;
  }

  /** Mapping is deterministic and uses one x domain for every sample: on the lap axis
      each x is `undefined` or a lap number and `undefined` only for an Invalid Date; on
      the time axis each x is the sample's own `Utc`. */
  lemma LapAxisValues(lapData: seq<LapBoundary>, utc: Instant)
    requires |lapData| > 0
    ensures LapX(lapData, utc) != InvalidDate
    ensures LapX(lapData, utc) == Undefined <==> utc.Invalid?
  {
  }
}
