/** The usage backfill stage (`fetchMissingUsage`, app_api/jobs/catchup.js:113-124):
    the units are fetched one after the other and the first unit that ends in
    an error ends the stage with that error. */
module UsageStage {
  import opened Basics
  import opened TimeRanges
  import opened Usage
  import opened Stores
  import opened Pagination

  /** What the stage did: the upserts in order, the requests in order, how many
      units were started, and how it ended. */
  datatype SeriesRun = SeriesRun(
    writes: seq<(UsageKey, UsageValue)>,
    requests: seq<Request>,
    attempted: nat,
    outcome: Outcome)

  /** `async.mapSeries(missingTimes, getDailyUsage)`. */
  function UsageSeries(api: Service, decode: string -> string, sub: string,
                       units: seq<TimeRange>, fuel: nat): (r: SeriesRun)
    ensures r.attempted <= |units|
    ensures r.outcome.Done? ==> r.attempted == |units|
    ensures !r.outcome.Done? ==> r.attempted >= 1
    decreases |units|
  {
    if |units| == 0 then SeriesRun([], [], 0, Done)
    else
      var u := FetchUnit(api, decode, sub, units[0], fuel);
      if !u.outcome.Done? then SeriesRun(u.writes, u.requests, 1, u.outcome)
      else
        var rest := UsageSeries(api, decode, sub, units[1..], fuel);
        SeriesRun(u.writes + rest.writes, u.requests + rest.requests, 1 + rest.attempted, rest.outcome)
  }

  /** The usage store after the stage. */
  function UsageStageStore(store: UsageStore, api: Service, decode: string -> string, sub: string,
                           units: seq<TimeRange>, fuel: nat): UsageStore
  {
    UpsertAll(store, UsageSeries(api, decode, sub, units, fuel).writes)
  }

  // ---------------------------------------------------------------------------
  // Reference definition: the units run independently, then concatenated

  function UnitRuns(api: Service, decode: string -> string, sub: string,
                    units: seq<TimeRange>, fuel: nat): seq<UnitRun>
  {
    seq(|units|, k requires 0 <= k < |units| => FetchUnit(api, decode, sub, units[k], fuel))
  }

  function AllRequests(runs: seq<UnitRun>): seq<Request> {
    if |runs| == 0 then [] else runs[0].requests + AllRequests(runs[1..])
  }

  function AllWrites(runs: seq<UnitRun>): seq<(UsageKey, UsageValue)> {
    if |runs| == 0 then [] else runs[0].writes + AllWrites(runs[1..])
  }

  /** The stage is the concatenation of the units it started, each run on its
      own. */
  lemma {:induction false} SeriesIsPrefixOfUnits(api: Service, decode: string -> string, sub: string,
                                                 units: seq<TimeRange>, fuel: nat)
    ensures var r := UsageSeries(api, decode, sub, units, fuel);
      var runs := UnitRuns(api, decode, sub, units, fuel);
      && r.requests == AllRequests(runs[..r.attempted])
      && r.writes == AllWrites(runs[..r.attempted])
    decreases |units|
  {
    var r := UsageSeries(api, decode, sub, units, fuel);
    var runs := UnitRuns(api, decode, sub, units, fuel);
    if |units| > 0 {
      var u := FetchUnit(api, decode, sub, units[0], fuel);
      if !u.outcome.Done? {
        assert runs[..1][1..] == [];
      } else {
        SeriesIsPrefixOfUnits(api, decode, sub, units[1..], fuel);
        var rest := UsageSeries(api, decode, sub, units[1..], fuel);
        var runs' := UnitRuns(api, decode, sub, units[1..], fuel);
        assert runs[1..] == runs';
        assert runs[..r.attempted][1..] == runs'[..rest.attempted];
      }
    }
  }

  /** The stage starts a unit only when every earlier one ended normally; it
      ends normally exactly when every unit does, and otherwise with the outcome
      of the last unit it started. */
  lemma {:induction false} SeriesStopsAtFirstFailure(api: Service, decode: string -> string, sub: string,
                                                     units: seq<TimeRange>, fuel: nat)
    ensures var r := UsageSeries(api, decode, sub, units, fuel);
      && (forall k :: 0 <= k < r.attempted - 1 ==> FetchUnit(api, decode, sub, units[k], fuel).outcome.Done?)
      && (!r.outcome.Done? ==> FetchUnit(api, decode, sub, units[r.attempted - 1], fuel).outcome == r.outcome)
      && (r.outcome.Done? <==> forall k :: 0 <= k < |units| ==> FetchUnit(api, decode, sub, units[k], fuel).outcome.Done?)
    decreases |units|
  {
    if |units| > 0 {
      var u := FetchUnit(api, decode, sub, units[0], fuel);
      if u.outcome.Done? {
        SeriesStopsAtFirstFailure(api, decode, sub, units[1..], fuel);
        forall k | 1 <= k < |units|
          ensures units[1..][k - 1] == units[k]
        {
        }
      }
    }
  }


  /** Request `q` is for one of the first `n` units. */
  predicate ForStartedUnit(q: Request, units: seq<TimeRange>, n: int) {
    exists k :: 0 <= k < n && k < |units| && q.reportedStartTime == units[k].start && q.reportedEndTime == units[k].end
  }

  lemma UnitRequests(api: Service, decode: string -> string, sub: string, unit: TimeRange, fuel: nat)
    ensures forall q :: q in FetchUnit(api, decode, sub, unit, fuel).requests ==>
      q.reportedStartTime == unit.start && q.reportedEndTime == unit.end
  {
    var reqs := FetchUnit(api, decode, sub, unit, fuel).requests;
    RequestsCarryUnit(api, decode, sub, unit, "", 0, fuel);
    forall q | q in reqs
      ensures q.reportedStartTime == unit.start && q.reportedEndTime == unit.end
    {
      var i :| 0 <= i < |reqs| && reqs[i] == q;
      assert CarriesUnit(reqs, i, unit);
    }
  }

  /** Every request of the stage is for a unit it started. */
  lemma {:induction false} SeriesRequests(api: Service, decode: string -> string, sub: string,
                                          units: seq<TimeRange>, fuel: nat)
    ensures forall q :: q in UsageSeries(api, decode, sub, units, fuel).requests ==>
      ForStartedUnit(q, units, UsageSeries(api, decode, sub, units, fuel).attempted)
    decreases |units|
  {
    if |units| > 0 {
      var r := UsageSeries(api, decode, sub, units, fuel);
      var u := FetchUnit(api, decode, sub, units[0], fuel);
      UnitRequests(api, decode, sub, units[0], fuel);
      forall q | q in u.requests
        ensures ForStartedUnit(q, units, r.attempted)
      {
      }
      if u.outcome.Done? {
        SeriesRequests(api, decode, sub, units[1..], fuel);
        var rest := UsageSeries(api, decode, sub, units[1..], fuel);
        forall q | q in rest.requests
          ensures ForStartedUnit(q, units, r.attempted)
        {
          var k :| 0 <= k < rest.attempted && k < |units[1..]| && q.reportedStartTime == units[1..][k].start
                                           && q.reportedEndTime == units[1..][k].end;
          assert units[1..][k] == units[k + 1];
        }
      }
    }
  }

  /** A failed unit stops the stage: with ascending units, no request is ever
      made for a unit after it. */
  lemma LaterUnitsNotRequested(api: Service, decode: string -> string, sub: string,
                               units: seq<TimeRange>, fuel: nat, j: int)
    requires Chain(units)
    requires UsageSeries(api, decode, sub, units, fuel).attempted <= j < |units|
    ensures forall q :: q in UsageSeries(api, decode, sub, units, fuel).requests ==>
      q.reportedStartTime != units[j].start
  {
    var r := UsageSeries(api, decode, sub, units, fuel);
    SeriesRequests(api, decode, sub, units, fuel);
    forall q | q in r.requests
      ensures q.reportedStartTime != units[j].start
    {
      var k :| 0 <= k < r.attempted && k < |units| && q.reportedStartTime == units[k].start
                                    && q.reportedEndTime == units[k].end;
      assert units[k].end <= units[j].start;
    }
  }

  /** Running the stage a second time with the same service answers leaves the
      usage store as the first run left it. */
  lemma UsageStageIdempotent(store: UsageStore, api: Service, decode: string -> string, sub: string,
                             units: seq<TimeRange>, fuel: nat)
    ensures var once := UsageStageStore(store, api, decode, sub, units, fuel);
      UsageStageStore(once, api, decode, sub, units, fuel) == once
  {
    UpsertAllIdempotent(store, UsageSeries(api, decode, sub, units, fuel).writes);
  }
}
