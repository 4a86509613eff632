/** The catch-up job (`catchUp`, app_api/jobs/catchup.js:15-33): six stages run
    in a fixed order, and the first stage that reports an error ends the job
    with that error. The two readers of existing windows are inputs; the
    clock, read once by each gap stage, is a parameter. */
module CatchUp {
  import opened Basics
  import opened TimeRanges
  import opened IntervalSet
  import opened Usage
  import opened Stores
  import opened Pagination
  import opened Costs
  import UsageStage
  import CostStage
  import Reorder

  datatype Stage =
    | FetchExistingTimes
    | FindMissingTimes
    | FetchMissingUsage
    | FetchExistingCosts
    | FindMissingCosts
    | CalcMissingCosts

  /** The order of `async.series` (catchup.js:17-24). */
  const StageOrder: seq<Stage> :=
    [FetchExistingTimes, FindMissingTimes, FetchMissingUsage, FetchExistingCosts, FindMissingCosts, CalcMissingCosts]

  /** Everything the job reads besides the two stores and the clock: the usage
      windows already stored, the usage service and the token decoder, the
      subscription, a bound on the pages per unit, the cost windows already
      stored, the rate cards, and which day windows' aggregation cursor fails. */
  datatype Env = Env(
    existingTimes: Result<seq<TimeRange>>,
    api: Service,
    decode: string -> string,
    sub: string,
    pageFuel: nat,
    existingCosts: Result<seq<TimeRange>>,
    cards: seq<RateCard>,
    costCursorError: int -> Option<string>)

  /** The stores after the job, the stages that ran, the cost windows computed,
      and how the job ended. */
  datatype JobRun = JobRun(
    usage: UsageStore,
    cost: CostStore,
    stages: seq<Stage>,
    costDays: seq<int>,
    outcome: Outcome)

  /** The clock as each gap stage reads it: `findMissingTimes` and
      `findMissingCosts` each ask for the current time. */
  datatype Clock = Clock(usageNow: int, costNow: int)

  /** Midnight (UTC) of the day of `now`: the end of a backfill window. */
  function Today(now: int): int {
    StartOfDay(now)
  }

  /** The one-day units a gap stage finds, from the stored windows and its
      reading of the clock. */
  function StageUnits(ex: seq<TimeRange>, now: int): seq<TimeRange> {
    MissingUnits(ex, DEFAULT_START, Today(now))
  }

  ghost function Job(env: Env, usage: UsageStore, cost: CostStore, clock: Clock): (r: JobRun)
    ensures 1 <= |r.stages| <= |StageOrder| && r.stages == StageOrder[..|r.stages|]
    ensures r.outcome.Done? ==> r.stages == StageOrder
    ensures CalcMissingCosts !in r.stages ==> r.cost == cost && r.costDays == []
  {
    match env.existingTimes
    case Err(e) => JobRun(usage, cost, StageOrder[..1], [], Failed(e))
    case Ok(ex) =>
      var series := UsageStage.UsageSeries(env.api, env.decode, env.sub, StageUnits(ex, clock.usageNow), env.pageFuel);
      var usage' := UpsertAll(usage, series.writes);
      if !series.outcome.Done? then JobRun(usage', cost, StageOrder[..3], [], series.outcome)
      else
        match env.existingCosts
        case Err(e) => JobRun(usage', cost, StageOrder[..4], [], Failed(e))
        case Ok(exc) =>
          var run := CostStage.CalcMissingCosts(env.costCursorError, StageUnits(exc, clock.costNow));
          var cost' := CostStage.CostAfter(cost, usage', env.cards, env.sub, CostStage.CompletedDays(run));
          JobRun(usage', cost', StageOrder, run.windows, run.outcome)
  }

  /** With every stored boundary at a UTC midnight, every unit a gap stage
      finds starts and ends at a UTC midnight. */
  lemma StageUnitsAtMidnight(ex: seq<TimeRange>, now: int)
    requires forall i :: 0 <= i < |ex| ==> ex[i].start % DAY == 0 && ex[i].end % DAY == 0
    ensures forall i :: 0 <= i < |StageUnits(ex, now)| ==>
      StageUnits(ex, now)[i].start % DAY == 0 && StageUnits(ex, now)[i].end % DAY == 0
  {
    DefaultStartIsMidnight();
    assert AlignedTo(ex, DEFAULT_START, Today(now)) by {
      forall i | 0 <= i < |ex|
        ensures OnDayGrid(ex[i].start, DEFAULT_START) && OnDayGrid(ex[i].end, DEFAULT_START)
      {
        MidnightsAligned(ex[i].start);
        MidnightsAligned(ex[i].end);
      }
      MidnightsAligned(Today(now));
    }
    var us := StageUnits(ex, now);
    MissingUnitsAligned(ex, DEFAULT_START, Today(now));
    forall i | 0 <= i < |us|
      ensures us[i].start % DAY == 0 && us[i].end % DAY == 0
    {
      AlignedMidnight(us[i].start);
      AlignedMidnight(us[i].end);
    }
  }

  lemma MidnightsAligned(t: int)
    requires t % DAY == 0
    ensures OnDayGrid(t, DEFAULT_START)
  {
    DefaultStartIsMidnight();
    assert t - DEFAULT_START == (t / DAY - DEFAULT_START / DAY) * DAY;
  }

  lemma AlignedMidnight(t: int)
    requires OnDayGrid(t, DEFAULT_START)
    ensures t % DAY == 0
  {
    DefaultStartIsMidnight();
    assert t == ((t - DEFAULT_START) / DAY + DEFAULT_START / DAY) * DAY;
  }

  // ---------------------------------------------------------------------------
  // Stopping at the first error

  /** A failing read of the usage windows ends the job with its error before
      anything is fetched or written. */
  lemma ExistingTimesFailure(env: Env, usage: UsageStore, cost: CostStore, clock: Clock)
    requires env.existingTimes.Err?
    ensures Job(env, usage, cost, clock)
         == JobRun(usage, cost, [FetchExistingTimes], [], Failed(env.existingTimes.error))
  {
  }

  /** A usage unit that fails ends the job with that unit's error: the cost
      stages never run and the cost store is untouched; the usage written by
      the units before it stays. */
  lemma UsageFailureStopsJob(env: Env, usage: UsageStore, cost: CostStore, clock: Clock)
    requires env.existingTimes.Ok?
    requires !UsageStage.UsageSeries(env.api, env.decode, env.sub, StageUnits(env.existingTimes.value, clock.usageNow),
                                     env.pageFuel).outcome.Done?
    ensures var r := Job(env, usage, cost, clock);
      var series := UsageStage.UsageSeries(env.api, env.decode, env.sub, StageUnits(env.existingTimes.value, clock.usageNow),
                                           env.pageFuel);
      && r.outcome == series.outcome
      && r.stages == [FetchExistingTimes, FindMissingTimes, FetchMissingUsage]
      && r.cost == cost
      && r.usage == UpsertAll(usage, series.writes)
  {
  }

  /** A failing read of the cost windows ends the job with its error after all
      usage is fetched; the cost store is untouched. */
  lemma ExistingCostsFailure(env: Env, usage: UsageStore, cost: CostStore, clock: Clock)
    requires env.existingTimes.Ok? && env.existingCosts.Err?
    requires UsageStage.UsageSeries(env.api, env.decode, env.sub, StageUnits(env.existingTimes.value, clock.usageNow),
                                    env.pageFuel).outcome.Done?
    ensures Job(env, usage, cost, clock).outcome == Failed(env.existingCosts.error)
    ensures Job(env, usage, cost, clock).stages == StageOrder[..4]
    ensures Job(env, usage, cost, clock).cost == cost
  {
  }

  /** The job ends normally exactly when both reads succeed, every usage unit
      ends normally and the cost stage does. */
  lemma JobDoneIff(env: Env, usage: UsageStore, cost: CostStore, clock: Clock)
    ensures Job(env, usage, cost, clock).outcome.Done? <==>
      && env.existingTimes.Ok?
      && (forall k :: 0 <= k < |StageUnits(env.existingTimes.value, clock.usageNow)| ==>
            FetchUnit(env.api, env.decode, env.sub, StageUnits(env.existingTimes.value, clock.usageNow)[k], env.pageFuel)
              .outcome.Done?)
      && env.existingCosts.Ok?
      && CostStage.CalcMissingCosts(env.costCursorError, StageUnits(env.existingCosts.value, clock.costNow)).outcome.Done?
  {
    if env.existingTimes.Ok? {
      UsageStage.SeriesStopsAtFirstFailure(env.api, env.decode, env.sub, StageUnits(env.existingTimes.value, clock.usageNow),
                                       env.pageFuel);
    }
  }

  // ---------------------------------------------------------------------------
  // The cost stage's error

  /** When the cost stage fails, the job fails with the aggregation cursor's
      error of the last window visited; every earlier window completed. */
  lemma CostFailureIsCursorError(env: Env, usage: UsageStore, cost: CostStore, clock: Clock)
    requires env.existingTimes.Ok? && env.existingCosts.Ok?
    requires UsageStage.UsageSeries(env.api, env.decode, env.sub, StageUnits(env.existingTimes.value, clock.usageNow),
                                    env.pageFuel).outcome.Done?
    requires CostStage.CalcMissingCosts(env.costCursorError, StageUnits(env.existingCosts.value, clock.costNow))
               .outcome.Failed?
    ensures var r := Job(env, usage, cost, clock);
      && r.outcome.Failed?
      && |r.costDays| >= 1
      && env.costCursorError(r.costDays[|r.costDays| - 1]) == Some(r.outcome.error)
      && (forall i :: 0 <= i < |r.costDays| - 1 ==> env.costCursorError(r.costDays[i]).None?)
  {
    var units := StageUnits(env.existingCosts.value, clock.costNow);
    CostStageRan(env, usage, cost, clock);
    CostStage.CalcMissingCostsStopsAtFirstError(env.costCursorError, units);
  }

  // ---------------------------------------------------------------------------
  // Re-running

  /** Running the job again over the stores it produced, with the same readers,
      answers and clock, ends the same way and changes neither store. */
  lemma RerunChangesNothing(env: Env, usage: UsageStore, cost: CostStore, clock: Clock)
    ensures var once := Job(env, usage, cost, clock);
      Job(env, once.usage, once.cost, clock) == once
  {
    var once := Job(env, usage, cost, clock);
    if env.existingTimes.Ok? {
      var series := UsageStage.UsageSeries(env.api, env.decode, env.sub, StageUnits(env.existingTimes.value, clock.usageNow),
                                           env.pageFuel);
      UpsertAllIdempotent(usage, series.writes);
      if series.outcome.Done? && env.existingCosts.Ok? {
        var run := CostStage.CalcMissingCosts(env.costCursorError, StageUnits(env.existingCosts.value, clock.costNow));
        CostStage.CostAfterIdempotent(cost, once.usage, env.cards, env.sub, CostStage.CompletedDays(run));
      }
    }
  }

  // ---------------------------------------------------------------------------
  // Which cost days are computed

  /** With no aggregation errors, the cost days computed are those of the
      aliased order: the newer half of the missing days newest first, then, for
      each unit of the older half whose slot holds a second reference to a
      newer unit, the day after that newer unit. */
  lemma CostDaysAsWritten(env: Env, usage: UsageStore, cost: CostStore, clock: Clock)
    requires env.existingTimes.Ok? && env.existingCosts.Ok?
    requires UsageStage.UsageSeries(env.api, env.decode, env.sub, StageUnits(env.existingTimes.value, clock.usageNow),
                                    env.pageFuel).outcome.Done?
    requires CostStage.NoCursorErrors(env.costCursorError)
    ensures var units := StageUnits(env.existingCosts.value, clock.costNow);
      var r := Job(env, usage, cost, clock);
      && r.outcome == Done
      && |r.costDays| == |units|
      && (forall i :: 0 <= i < |units| ==> r.costDays[i] == CostStage.AsWrittenDay(units, i))
  {
    var units := StageUnits(env.existingCosts.value, clock.costNow);
    MissingUnitsOneDay(env.existingCosts.value, DEFAULT_START, Today(clock.costNow));
    CostStage.AsWrittenWindows(env.costCursorError, units);
  }

  /** A store that already holds every cost day but the last two: as written,
      only the newer of the two missing days gets its cost, and the day after
      it is computed instead of the older one. */
  lemma TwoMissingCostDays(env: Env, usage: UsageStore, cost: CostStore, clock: Clock)
    requires env.existingTimes.Ok? && CostStage.NoCursorErrors(env.costCursorError)
    requires UsageStage.UsageSeries(env.api, env.decode, env.sub, StageUnits(env.existingTimes.value, clock.usageNow),
                                    env.pageFuel).outcome.Done?
    requires Today(clock.costNow) > DEFAULT_START + 2 * DAY
    requires env.existingCosts == Ok([TimeRange(DEFAULT_START, Today(clock.costNow) - 2 * DAY)])
    ensures Job(env, usage, cost, clock).costDays == [Today(clock.costNow) - DAY, Today(clock.costNow)]
  {
    var today := Today(clock.costNow);
    var run := CostStage.CalcMissingCosts(env.costCursorError, StageUnits(env.existingCosts.value, clock.costNow));
    assert Job(env, usage, cost, clock).costDays == run.windows by {
      CostStageRan(env, usage, cost, clock);
    }
    assert run.windows == [today - DAY, today] by {
      TwoMissingCostWindows(env.costCursorError, clock.costNow);
    }
  }

  /** The cost stage alone on that store. */
  lemma TwoMissingCostWindows(errs: CostStage.CursorErrors, now: int)
    requires CostStage.NoCursorErrors(errs) && Today(now) > DEFAULT_START + 2 * DAY
    ensures CostStage.CalcMissingCosts(errs, StageUnits([TimeRange(DEFAULT_START, Today(now) - 2 * DAY)], now)).windows
         == [Today(now) - DAY, Today(now)]
  {
    var d := Today(now) - 2 * DAY;
    TwoMissingDays(now);
    CostStage.TwoUnitCounterexample(errs, d);
  }

  /** Once usage is fetched and both reads succeed, the cost days and the
      outcome are those of the cost stage. */
  lemma CostStageRan(env: Env, usage: UsageStore, cost: CostStore, clock: Clock)
    requires env.existingTimes.Ok? && env.existingCosts.Ok?
    requires UsageStage.UsageSeries(env.api, env.decode, env.sub, StageUnits(env.existingTimes.value, clock.usageNow),
                                    env.pageFuel).outcome.Done?
    ensures var run := CostStage.CalcMissingCosts(env.costCursorError, StageUnits(env.existingCosts.value, clock.costNow));
      Job(env, usage, cost, clock).costDays == run.windows && Job(env, usage, cost, clock).outcome == run.outcome
  {
  }

  /** The two units of that store. */
  lemma TwoMissingDays(now: int)
    requires Today(now) > DEFAULT_START + 2 * DAY
    ensures StageUnits([TimeRange(DEFAULT_START, Today(now) - 2 * DAY)], now)
         == [TimeRange(Today(now) - 2 * DAY, Today(now) - DAY), TimeRange(Today(now) - DAY, Today(now))]
  {
    var today := Today(now);
    var ex := [TimeRange(DEFAULT_START, today - 2 * DAY)];
    assert FindGaps(ex, DEFAULT_START, today) == [TimeRange(today - 2 * DAY, today)];
    var g := TimeRange(today - 2 * DAY, today);
    assert [g][1..] == [];
    assert StageUnits(ex, now) == DayUnits(g.start, g.end) + ExpandAll([]);
    assert |DayUnits(g.start, g.end)| == 2;
  }
}
