/** Values shared by every stage of the telemetry pipeline. */
module Types {

  import opened Wrappers

  /** The result of `new Date(...)`: a valid instant, as milliseconds since the epoch,
      or an Invalid Date, whose `getTime()` is NaN. */
  datatype Instant = Valid(ms: int) | Invalid

  /** One telemetry reading as found in a sample's `Channels` object. A channel that is
      absent from the object reads as `undefined` and is not a `Reading`.
      - `Number(value)`: a JSON number.
      - `Coercible(value)`: a value that is no number but that `Number(...)` converts to
        `value` (a numeric string such as "3" or "", a boolean, an array such as `[]` or
        `[5]`); `isNaN` is false for it, yet it has no `toFixed`.
      - `NotANumber`: any other non-null value (a non-numeric string, an object), for
        which `isNaN` holds and which has no `toFixed` either.
      - `Null`: JSON `null`. */
  datatype Reading = Number(value: real) | Coercible(value: real) | NotANumber | Null

  /** `!isNaN(r)`: the number `r` converts to, when it converts to one. */
  function AsNumber(r: Reading): (n: Option<real>)
    ensures n.Some? <==> r.Number? || r.Coercible?
    ensures n.Some? ==> n.value == r.value
  {
    match r
    case Number(v) => Some(v)
    case Coercible(v) => Some(v)
    case NotANumber => None
    case Null => None
  }

  /** An entry of the x-axis data: `undefined`, an Invalid Date (time axis), or a number
      (milliseconds on the time axis, a lap number on the lap axis). */
  datatype XValue = Undefined | InvalidDate | At(v: int)

  /** The x-axis type the user selected (`xAxisType` radio buttons). */
  datatype AxisMode = TimeAxis | LapAxis

  /** A channel object: channel id (a string such as "2" or "45") to reading. */
  type Channels = map<string, Reading>

  /** One `pilotCarData` element: `{ Utc, Channels }`. */
  datatype Sample = Sample(utc: Instant, channels: Channels)

  /** One element of `lapData`: `{ timestamp, lap }`, with the timestamp given as
      `getTime()` of a time of day built on epoch day 0. */
  datatype LapBoundary = LapBoundary(timestamp: int, lap: int)

  /** Boundaries in non-decreasing timestamp order, as the lap extraction leaves them. */
  predicate SortedByTimestamp(lapData: seq<LapBoundary>)
  {
    forall i, j | 0 <= i < j < |lapData| :: lapData[i].timestamp <= lapData[j].timestamp
  }

  /** `d.Channels[id]`: `None` stands for `undefined`. */
  function ChannelValue(s: Sample, id: string): (r: Option<Reading>)
    ensures r.Some? <==> id in s.channels
    ensures r.Some? ==> r.value == s.channels[id]
  {
    if id in s.channels then Some(s.channels[id]) else None
  }
}
