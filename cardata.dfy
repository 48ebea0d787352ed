/** The driver-sample selection of `displaySelectedData` (js/dashboard.js): the samples
    of one car, collected from the parsed `CarData.jsonl` records and sorted by `Utc`. */
module CarData {

  import opened Wrappers
  import opened Types
  import opened StableSort

  /** `e.Cars[racingNumber]`: its `Channels` object, `None` when absent or falsy. */
  datatype Car = Car(channels: Option<Channels>)

  /** One element of `entry.data.Entries`. `utc` is already `new Date(e.Utc)`: parsing
      the date text is not part of the model. `cars` is `None` when `e.Cars` is falsy. */
  datatype TelemetryEntry = TelemetryEntry(utc: Instant, cars: Option<map<string, Car>>)

  /** `entry.data`, whose `Entries` is `None` when falsy. */
  datatype RecordData = RecordData(entries: Option<seq<TelemetryEntry>>)

  /** One parsed line of `CarData.jsonl`; `data` is `None` when `entry.data` is falsy. */
  datatype CarRecord = CarRecord(data: Option<RecordData>)

  /** One value of the driver list object: `{ Tla, RacingNumber, ... }`. */
  datatype DriverEntry = DriverEntry(tla: string, racingNumber: string)

  /** `Object.values(driverList).find(d => d.Tla === driverTla).RacingNumber`, with the
      values in the object's property order. */
  function FindRacingNumber(roster: seq<DriverEntry>, tla: string): (r: Option<string>)
    ensures r.None? <==> forall i | 0 <= i < |roster| :: roster[i].tla != tla
    ensures r.Some? ==> exists i | 0 <= i < |roster| ::
      roster[i].tla == tla && r.value == roster[i].racingNumber && forall j | 0 <= j < i :: roster[j].tla != tla
  {
    if roster == [] then None
    else if roster[0].tla == tla then Some(roster[0].racingNumber)
    else
      var r := FindRacingNumber(roster[1..], tla);
      assert r.Some? ==> exists i | 1 <= i < |roster| ::
        roster[i].tla == tla && r.value == roster[i].racingNumber && forall j | 0 <= j < i :: roster[j].tla != tla by {
        if r.Some? {
          var i :| 0 <= i < |roster[1..]| && roster[1..][i].tla == tla && r.value == roster[1..][i].racingNumber
            && forall j | 0 <= j < i :: roster[1..][j].tla != tla;
          assert forall j | 1 <= j < i + 1 :: roster[j] == roster[1..][j - 1];
        }
      }
      r
  }

  /** `e.Cars && e.Cars[racingNumber] && e.Cars[racingNumber].Channels`. */
  predicate CarMatches(e: TelemetryEntry, racingNumber: string)
  {
    e.cars.Some? && racingNumber in e.cars.value && e.cars.value[racingNumber].channels.Some?
  }

  /** The pushed `{ Utc: new Date(e.Utc), Channels: e.Cars[racingNumber].Channels }`. */
  function SampleOf(e: TelemetryEntry, racingNumber: string): Sample
    requires CarMatches(e, racingNumber)
  {
    Sample(e.utc, e.cars.value[racingNumber].channels.value)
  }

  /** `entry.data.Entries`, or nothing when `entry.data` or its `Entries` is falsy. */
  function EntriesOf(r: CarRecord): seq<TelemetryEntry>
  {
    if r.data.Some? && r.data.value.entries.Some? then r.data.value.entries.value else []
  }

  /** The samples of the entries that carry the car, in entry order. */
  function EntrySamples(entries: seq<TelemetryEntry>, racingNumber: string): seq<Sample>
  {
    if entries == [] then []
    else
      var last := entries[|entries| - 1];
      EntrySamples(entries[..|entries| - 1], racingNumber)
      + (if CarMatches(last, racingNumber) then [SampleOf(last, racingNumber)] else [])
  }

  /** The samples of the car in all records, in record order and entry order within. */
  function DriverSamples(records: seq<CarRecord>, racingNumber: string): seq<Sample>
  {
    if records == [] then []
    else DriverSamples(records[..|records| - 1], racingNumber) + EntrySamples(EntriesOf(records[|records| - 1]), racingNumber)
  }

  /** The nested `forEach` loops that push onto `pilotCarData`. */
  method CollectDriverSamples(records: seq<CarRecord>, racingNumber: string) returns (pilotCarData: seq<Sample>)
    ensures pilotCarData == DriverSamples(records, racingNumber)
  {
    pilotCarData := [];
    var r := 0;
    while r < |records|
      invariant 0 <= r <= |records|
      invariant pilotCarData == DriverSamples(records[..r], racingNumber)
    {
      var entry := records[r];
      if entry.data.Some? && entry.data.value.entries.Some? {
        var entries := entry.data.value.entries.value;
        var k := 0;
        while k < |entries|
          invariant 0 <= k <= |entries|
          invariant pilotCarData == DriverSamples(records[..r], racingNumber) + EntrySamples(entries[..k], racingNumber)
        {
          var e := entries[k];
          if e.cars.Some? && racingNumber in e.cars.value && e.cars.value[racingNumber].channels.Some? {
            pilotCarData := pilotCarData + [Sample(e.utc, e.cars.value[racingNumber].channels.value)];
          }
          assert entries[..k + 1][..k] == entries[..k];
          k := k + 1;
        }
        assert entries[..k] == entries;
      }
      assert records[..r + 1][..r] == records[..r];
      r := r + 1;
    }
    assert records[..r] == records;
  }

  /** The sort key `Utc`; the comparator `a.Utc - b.Utc` is NaN for an Invalid Date. */
  function UtcKey(s: Sample): Instant { s.utc }

  /** `pilotCarData`: the car's samples when a driver is selected, the driver list is
      loaded and lists the driver, and otherwise none; then sorted in place by `Utc`. */
  method SelectPilotCarData(allCarDataEntries: seq<CarRecord>, driverTla: string, driverList: Option<seq<DriverEntry>>)
    returns (pilotCarData: array<Sample>)
    ensures fresh(pilotCarData)
    ensures pilotCarData[..] == SortBy(SelectedSamples(allCarDataEntries, driverTla, driverList), UtcKey)
  {
    var collected: seq<Sample> := [];
    if driverTla != "" && driverList.Some? {
      var racingNumber := FindRacingNumber(driverList.value, driverTla);
      if racingNumber.Some? {
        collected := CollectDriverSamples(allCarDataEntries, racingNumber.value);
      }
    }
    pilotCarData := new Sample[|collected|](i requires 0 <= i < |collected| => collected[i]);
    assert pilotCarData[..] == collected;
    SortInPlace(pilotCarData, UtcKey);
  }

  /** The samples selected before the sort. */
  function SelectedSamples(allCarDataEntries: seq<CarRecord>, driverTla: string, driverList: Option<seq<DriverEntry>>): seq<Sample>
  {
    if driverTla != "" && driverList.Some? && FindRacingNumber(driverList.value, driverTla).Some?
    then DriverSamples(allCarDataEntries, FindRacingNumber(driverList.value, driverTla).value)
    else []
  }

  // ---------------------------------------------------------------------------------
  // Properties.

  lemma {:induction false} EntrySamplesExactly(entries: seq<TelemetryEntry>, racingNumber: string, s: Sample)
    ensures s in EntrySamples(entries, racingNumber) <==>
      exists j | 0 <= j < |entries| :: CarMatches(entries[j], racingNumber) && SampleOf(entries[j], racingNumber) == s
  {
    if entries != [] {
      var init := entries[..|entries| - 1];
      EntrySamplesExactly(init, racingNumber, s);
      assert forall j | 0 <= j < |init| :: init[j] == entries[j];
    }
  }

  /** A sample is collected exactly when some entry of some record carries the car's
      channels, and it is that entry's `Utc` and `Channels`. */
  lemma {:induction false} DriverSamplesExactly(records: seq<CarRecord>, racingNumber: string, s: Sample)
    ensures s in DriverSamples(records, racingNumber) <==>
      exists i, j | 0 <= i < |records| && 0 <= j < |EntriesOf(records[i])| ::
        CarMatches(EntriesOf(records[i])[j], racingNumber) && SampleOf(EntriesOf(records[i])[j], racingNumber) == s
  {
    if records != [] {
      var init, last := records[..|records| - 1], records[|records| - 1];
      DriverSamplesExactly(init, racingNumber, s);
      EntrySamplesExactly(EntriesOf(last), racingNumber, s);
      assert forall i | 0 <= i < |init| :: init[i] == records[i];
    }
  }

  /** The number of collected samples is the number of entries that carry the car. */
  lemma {:induction false} EntrySamplesCount(entries: seq<TelemetryEntry>, racingNumber: string)
    ensures |EntrySamples(entries, racingNumber)| == |set j | 0 <= j < |entries| && CarMatches(entries[j], racingNumber)|
  {
    if entries != [] {
      var n := |entries| - 1;
      EntrySamplesCount(entries[..n], racingNumber);
      var before := set j | 0 <= j < n && CarMatches(entries[..n][j], racingNumber);
      var all := set j | 0 <= j < |entries| && CarMatches(entries[j], racingNumber);
      assert before == set j | 0 <= j < n && CarMatches(entries[j], racingNumber);
      if CarMatches(entries[n], racingNumber) {
        assert all == before + {n};
      } else {
        assert all == before;
      }
    }
  }

  /** The sorted `pilotCarData` holds exactly the selected samples, and when every `Utc`
      is a valid date it is in non-decreasing `Utc` order, samples with equal `Utc`
      staying in collection order. */
  lemma PilotCarDataSorted(selected: seq<Sample>)
    ensures multiset(SortBy(selected, UtcKey)) == multiset(selected)
    ensures (forall i | 0 <= i < |selected| :: selected[i].utc.Valid?) ==>
      var sorted := SortBy(selected, UtcKey);
      (forall i | 0 <= i < |sorted| :: sorted[i].utc.Valid?)
      && (forall i, j | 0 <= i < j < |sorted| :: sorted[i].utc.ms <= sorted[j].utc.ms)
    ensures forall t: Instant :: WithKey(SortBy(selected, UtcKey), UtcKey, t) == WithKey(selected, UtcKey, t)
  {
    SortPermutes(selected, UtcKey);
    if forall i | 0 <= i < |selected| :: selected[i].utc.Valid? {
      assert AllValid(selected, UtcKey);
      SortSorts(selected, UtcKey);
      var sorted := SortBy(selected, UtcKey);
      assert forall i, j | 0 <= i < j < |sorted| :: UtcKey(sorted[i]).ms <= UtcKey(sorted[j]).ms;
    }
    forall t: Instant ensures WithKey(SortBy(selected, UtcKey), UtcKey, t) == WithKey(selected, UtcKey, t) {
      SortStable(selected, UtcKey, t);
    }
  }
}
