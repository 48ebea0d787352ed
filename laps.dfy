/** The lap-boundary extractor of `displaySelectedData` (js/dashboard.js): each line of
    `LapCount.jsonStream` is `<time of day><json object>`; the lines that carry a
    `CurrentLap` and a well-formed time become `{ timestamp, lap }`, sorted by time. */
module LapBoundaries {

  import opened Wrappers
  import opened Types
  import opened Text
  import opened TimeOfDay
  import opened StableSort

  /** What the extractor reads from `JSON.parse(jsonStr)`. The parser itself is not part
      of the model: it is a parameter returning `None` when it throws or yields a falsy
      value, and otherwise the `CurrentLap` field (`None` when it is `undefined`), with
      `parseInt` already applied. */
  datatype LapPayload = LapPayload(currentLap: Option<int>)

  type JsonParser = string -> Option<LapPayload>

  /** One line of the `map` callback: `null` (here `None`) or a boundary. */
  function ParseLapLine(line: string, parseJson: JsonParser): Option<LapBoundary>
  {
    if Trim(line) == "" then None
    else
      var firstBraceIndex := IndexOf(line, '{');
      if firstBraceIndex == -1 then None
      else ParseAtBrace(line[..firstBraceIndex], line[firstBraceIndex..], parseJson)
  }

  /** The `try` block: the payload must parse and carry `CurrentLap`, and the time of
      day before it must parse. */
  function ParseAtBrace(timestampStr: string, jsonStr: string, parseJson: JsonParser): (r: Option<LapBoundary>)
    ensures r.Some? <==> parseJson(jsonStr).Some? && parseJson(jsonStr).value.currentLap.Some?
                         && TimeStringToMillis(timestampStr).Some?
    ensures r.Some? ==> r.value == LapBoundary(TimeStringToMillis(timestampStr).value, parseJson(jsonStr).value.currentLap.value)
  {
    match parseJson(jsonStr)
    case None => None
    case Some(jsonData) =>
      if jsonData.currentLap.None? then None
      else
        match TimeStringToMillis(timestampStr)
        case None => None
        case Some(ts) => Some(LapBoundary(ts, jsonData.currentLap.value))
  }

  /** `rawLapEntries.map(...)`: one result per line. */
  function ParsedLines(lines: seq<string>, parseJson: JsonParser): seq<Option<LapBoundary>>
  {
    seq(|lines|, i requires 0 <= i < |lines| => ParseLapLine(lines[i], parseJson))
  }

  /** `.map(...).filter(Boolean)`: the boundaries of the lines that yield one, in line
      order. */
  function Survivors(lines: seq<string>, parseJson: JsonParser): seq<LapBoundary>
  {
    Somes(ParsedLines(lines, parseJson))
  }

  /** The sort key, `a.timestamp.getTime()`. */
  function TimeKey(b: LapBoundary): Instant { Valid(b.timestamp) }

  /** The `lapData` built from the text of a fetched `LapCount.jsonStream`: `None` (it
      stays `null`) when the trimmed text is empty, otherwise the surviving boundaries of
      its lines sorted by timestamp. */
  function ExtractLapData(lapCountText: string, parseJson: JsonParser): Option<seq<LapBoundary>>
  {
    var trimmed := Trim(lapCountText);
    if trimmed == "" then None
    else Some(SortBy(Survivors(Split(trimmed, '\n'), parseJson), TimeKey))
  }

  // ---------------------------------------------------------------------------------
  // Properties.

  /** A line without `{`, and so every blank line, yields no boundary. */
  lemma NoBraceNoBoundary(line: string, parseJson: JsonParser)
    requires forall i | 0 <= i < |line| :: line[i] != '{'
    ensures ParseLapLine(line, parseJson) == None
  {
    assert IndexOf(line, '{') == -1;
  }

  lemma BlankLineNoBoundary(line: string, parseJson: JsonParser)
    requires forall i | 0 <= i < |line| :: IsWhitespace(line[i])
    ensures ParseLapLine(line, parseJson) == None
  {
    assert Trim(line) == "";
  }

  /** A boundary comes from a line whose prefix before its first `{` is a time of day
      and whose payload from that `{` on carries `CurrentLap`, and has their values. */
  lemma {:induction false} BoundaryOrigin(line: string, parseJson: JsonParser, b: LapBoundary)
    requires ParseLapLine(line, parseJson) == Some(b)
    ensures '{' in line
    ensures var i := IndexOf(line, '{');
      0 <= i && line[i] == '{' && '{' !in line[..i]
      && TimeStringToMillis(line[..i]) == Some(b.timestamp)
      && parseJson(line[i..]) == Some(LapPayload(Some(b.lap)))
  {
    var i := IndexOf(line, '{');
    assert i != -1;
    assert ParseAtBrace(line[..i], line[i..], parseJson) == Some(b);
    assert forall k | 0 <= k < i :: line[..i][k] == line[k];
  }

  /** Conversely, a line built from a time of day and a payload that carries
      `CurrentLap` yields that boundary. */
  lemma {:induction false} WellFormedLine(clock: Clock, jsonStr: string, lap: int, parseJson: JsonParser)
    requires clock.Valid()
    requires |jsonStr| > 0 && jsonStr[0] == '{'
    requires parseJson(jsonStr) == Some(LapPayload(Some(lap)))
    ensures ParseLapLine(Format(clock) + jsonStr, parseJson) == Some(LapBoundary(clock.Millis(), lap))
  {
    var ts := Format(clock);
    var line := ts + jsonStr;
    FormatThenParse(clock);
    FormatHasNoBrace(clock);
    assert forall k | 0 <= k < |ts| :: line[k] == ts[k];
    assert line[|ts|] == '{';
    var i := IndexOf(line, '{');
    assert i == |ts|;
    assert line[..i] == ts && line[i..] == jsonStr;
    assert IsDigit(line[0]);
    assert Trim(line) != "";
  }

  /** The boundaries that survive are exactly those of the lines that yield one. */
  lemma SurvivorsExactly(lines: seq<string>, parseJson: JsonParser, b: LapBoundary)
    ensures b in Survivors(lines, parseJson) <==> exists i | 0 <= i < |lines| :: ParseLapLine(lines[i], parseJson) == Some(b)
  {
    var parsed := ParsedLines(lines, parseJson);
    assert |parsed| == |lines| && forall i | 0 <= i < |lines| :: parsed[i] == ParseLapLine(lines[i], parseJson);
    SomesExactly(parsed, b);
    if Some(b) in parsed {
      var i :| 0 <= i < |parsed| && parsed[i] == Some(b);
      assert ParseLapLine(lines[i], parseJson) == Some(b);
    }
  }

  /** `lapData` is `null` exactly when the text is blank. */
  lemma LapDataNullIffBlank(lapCountText: string, parseJson: JsonParser)
    ensures ExtractLapData(lapCountText, parseJson).None? <==> forall i | 0 <= i < |lapCountText| :: IsWhitespace(lapCountText[i])
  {
  }

  /** Sorting boundaries by timestamp orders them non-decreasing, permutes them, and
      keeps boundaries of equal timestamp in their order. */
  lemma SortedBoundaries(survivors: seq<LapBoundary>)
    ensures var lapData := SortBy(survivors, TimeKey);
      SortedByTimestamp(lapData)
      && multiset(lapData) == multiset(survivors)
      && forall t :: WithKey(lapData, TimeKey, Valid(t)) == WithKey(survivors, TimeKey, Valid(t))
  {
    var lapData := SortBy(survivors, TimeKey);
    SortSorts(survivors, TimeKey);
    SortPermutes(survivors, TimeKey);
    forall t ensures WithKey(lapData, TimeKey, Valid(t)) == WithKey(survivors, TimeKey, Valid(t)) {
      SortStable(survivors, TimeKey, Valid(t));
    }
    assert forall i, j | 0 <= i < j < |lapData| :: TimeKey(lapData[i]).ms <= TimeKey(lapData[j]).ms;
  }

  /** Otherwise it is sorted non-decreasing by timestamp, is a permutation of the
      surviving boundaries of the text's lines, and keeps boundaries of equal timestamp
      in line order. */
  lemma LapDataSortedPermutation(lapCountText: string, parseJson: JsonParser)
    requires ExtractLapData(lapCountText, parseJson).Some?
    ensures var lapData := ExtractLapData(lapCountText, parseJson).value;
      var survivors := Survivors(Split(Trim(lapCountText), '\n'), parseJson);
      SortedByTimestamp(lapData)
      && multiset(lapData) == multiset(survivors)
      && forall t :: WithKey(lapData, TimeKey, Valid(t)) == WithKey(survivors, TimeKey, Valid(t))
  {
    SortedBoundaries(Survivors(Split(Trim(lapCountText), '\n'), parseJson));
  }
}
