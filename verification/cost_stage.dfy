/** The cost backfill stage (`calcMissingCosts` and the day cursor of
    `getDailyCosts`, app_api/jobs/catchup.js:356-463).

    The units are objects: `getDailyCosts` binds its day cursor to the unit's
    own start object and advances it in place, so a unit object visited a
    second time starts from where the first visit left it. After the aliased
    reorder (module Reorder) half of the objects are visited twice, so the
    model keeps a table of each object's current start.

    Which windows are visited depends only on the units and on which
    aggregation cursors fail; each window reads only the usage store, which
    this stage does not change. So the model first computes the course of the
    stage (`CostSeries`) and then folds the one-day upserts of the windows that
    completed over the cost store (`CostAfter`). */
module CostStage {
  import opened Basics
  import opened TimeRanges
  import opened Usage
  import opened Costs
  import opened Reorder
  import opened Stores

  /** Which day windows' aggregation cursor reports an error, and which. */
  type CursorErrors = int -> Option<string>

  /** One unit's day loop: where the cursor ended, the window starts visited,
      and how it ended. */
  datatype DayLoopRun = DayLoopRun(cursor: int, windows: seq<int>, outcome: Outcome)

  /** The day cursor (catchup.js:383-452): the helper computes the window
      [cursor, cursor+DAY), advancing the cursor first, and the loop repeats
      while the cursor is strictly before the unit end. A do-while, so one
      window is computed even when the cursor already is at or past the end.
      The first window whose cursor fails ends the unit with that error. */
  function DayLoop(errs: CursorErrors, cursor: int, end: int): (r: DayLoopRun)
    ensures |r.windows| >= 1
    ensures forall i :: 0 <= i < |r.windows| ==> r.windows[i] == cursor + i * DAY
    ensures r.cursor == cursor + |r.windows| * DAY
    ensures r.outcome.Done? ==> end <= r.cursor && (|r.windows| == 1 || r.cursor < end + DAY)
    ensures !r.outcome.Stalled?
    decreases if cursor < end then end - cursor else 0
  {
    var next := cursor + DAY;
    match errs(cursor)
    case Some(e) => DayLoopRun(next, [cursor], Failed(e))
    case None =>
      if next < end then
        var rest := DayLoop(errs, next, end);
        DayLoopRun(rest.cursor, [cursor] + rest.windows, rest.outcome)
      else DayLoopRun(next, [cursor], Done)
  }

  /** The whole stage run over a list of object references: each object's start
      afterwards, the windows visited in order, and how it ended. */
  datatype CostRun = CostRun(starts: seq<int>, windows: seq<int>, outcome: Outcome)

  predicate ValidRefs(refs: seq<nat>, n: nat) {
    forall i :: 0 <= i < |refs| ==> refs[i] < n
  }

  /** `async.mapSeries` of `getDailyCosts` over `refs`: the first failing unit
      stops the series. `starts` is each unit object's current start. Every
      unit started computes at least one window. */
  function CostSeries(errs: CursorErrors, ends: seq<int>, starts: seq<int>, refs: seq<nat>): (r: CostRun)
    requires |starts| == |ends| && ValidRefs(refs, |ends|)
    ensures |r.starts| == |ends|
    ensures !r.outcome.Stalled?
    ensures r.outcome.Done? ==> |r.windows| >= |refs|
    ensures |refs| > 0 ==> |r.windows| >= 1
    decreases |refs|
  {
    if |refs| == 0 then CostRun(starts, [], Done)
    else
      var o := refs[0];
      var u := DayLoop(errs, starts[o], ends[o]);
      var starts' := starts[o := u.cursor];
      if !u.outcome.Done? then CostRun(starts', u.windows, u.outcome)
      else
        var rest := CostSeries(errs, ends, starts', refs[1..]);
        CostRun(rest.starts, u.windows + rest.windows, rest.outcome)
  }

  /** A unit object's start only moves forward, and an object no reference
      names keeps its start. */
  lemma {:induction false} SeriesStartsForward(errs: CursorErrors, ends: seq<int>, starts: seq<int>, refs: seq<nat>, o: nat)
    requires |starts| == |ends| && ValidRefs(refs, |ends|) && o < |ends|
    ensures CostSeries(errs, ends, starts, refs).starts[o] >= starts[o]
    ensures o !in refs ==> CostSeries(errs, ends, starts, refs).starts[o] == starts[o]
    decreases |refs|
  {
    if |refs| > 0 {
      var u := DayLoop(errs, starts[refs[0]], ends[refs[0]]);
      if u.outcome.Done? {
        assert ValidRefs(refs[1..], |ends|);
        assert o !in refs ==> o !in refs[1..];
        SeriesStartsForward(errs, ends, starts[refs[0] := u.cursor], refs[1..], o);
      }
    }
  }

  /** The windows whose rows were upserted: all visited ones but a failing last. */
  function CompletedDays(r: CostRun): seq<int> {
    if r.outcome.Failed? && |r.windows| > 0 then r.windows[..|r.windows| - 1] else r.windows
  }

  /** A unit stops at the first window whose cursor fails, with that error;
      every window before it, and every window of a unit that ends normally,
      had no cursor error. */
  lemma {:induction false} DayLoopStopsAtFirstError(errs: CursorErrors, cursor: int, end: int)
    ensures var r := DayLoop(errs, cursor, end);
      && (r.outcome.Failed? ==> errs(r.windows[|r.windows| - 1]) == Some(r.outcome.error))
      && (forall i :: 0 <= i < |r.windows| && (i < |r.windows| - 1 || r.outcome.Done?) ==>
            errs(r.windows[i]).None?)
    decreases if cursor < end then end - cursor else 0
  {
    if errs(cursor).None? && cursor + DAY < end {
      DayLoopStopsAtFirstError(errs, cursor + DAY, end);
      var rest := DayLoop(errs, cursor + DAY, end);
      var r := DayLoop(errs, cursor, end);
      assert r.windows == [cursor] + rest.windows;
      forall i | 1 <= i < |r.windows|
        ensures r.windows[i] == rest.windows[i - 1]
      {
      }
    }
  }

  /** The same for the whole series: it stops at the first window whose cursor
      fails, and reports that error. */
  lemma {:induction false} SeriesStopsAtFirstError(errs: CursorErrors, ends: seq<int>, starts: seq<int>, refs: seq<nat>)
    requires |starts| == |ends| && ValidRefs(refs, |ends|)
    ensures var r := CostSeries(errs, ends, starts, refs);
      && (r.outcome.Failed? ==> |r.windows| >= 1 && errs(r.windows[|r.windows| - 1]) == Some(r.outcome.error))
      && (forall i :: 0 <= i < |r.windows| && (i < |r.windows| - 1 || r.outcome.Done?) ==>
            errs(r.windows[i]).None?)
    decreases |refs|
  {
    if |refs| > 0 {
      var o := refs[0];
      DayLoopStopsAtFirstError(errs, starts[o], ends[o]);
      var u := DayLoop(errs, starts[o], ends[o]);
      if u.outcome.Done? {
        var starts' := starts[o := u.cursor];
        SeriesStopsAtFirstError(errs, ends, starts', refs[1..]);
        var rest := CostSeries(errs, ends, starts', refs[1..]);
        var r := CostSeries(errs, ends, starts, refs);
        assert r.windows == u.windows + rest.windows;
        forall i | |u.windows| <= i < |r.windows|
          ensures r.windows[i] == rest.windows[i - |u.windows|]
        {
        }
      }
    }
  }

  /** The cost store after the one-day upserts of `days`, in order. */
  ghost function CostAfter(cost: CostStore, usage: UsageStore, cards: seq<RateCard>, sub: string, days: seq<int>): CostStore
    decreases |days|
  {
    if |days| == 0 then cost
    else CostAfter(CostDay(cost, usage, cards, sub, days[0]), usage, cards, sub, days[1..])
  }

  function Indices(n: nat): (r: seq<nat>)
    ensures |r| == n && forall i :: 0 <= i < n ==> r[i] == i
  {
    seq(n, i requires 0 <= i < n => i)
  }

  function Starts(units: seq<TimeRange>): seq<int> {
    seq(|units|, i requires 0 <= i < |units| => units[i].start)
  }

  function Ends(units: seq<TimeRange>): seq<int> {
    seq(|units|, i requires 0 <= i < |units| => units[i].end)
  }

  lemma AliasedRefsValid(n: nat)
    ensures ValidRefs(AliasedReverse(Indices(n)), n)
    ensures ValidRefs(Reverse(Indices(n)), n)
  {
  }

  /** `calcMissingCosts` as written: the aliased reorder of the unit objects,
      then the series. */
  function CalcMissingCosts(errs: CursorErrors, units: seq<TimeRange>): CostRun
  {
    AliasedRefsValid(|units|);
    CostSeries(errs, Ends(units), Starts(units), AliasedReverse(Indices(|units|)))
  }

  /** The stage as written fails only on a cursor error, that of the last
      window it visits; every window before that had none. */
  lemma CalcMissingCostsStopsAtFirstError(errs: CursorErrors, units: seq<TimeRange>)
    ensures var r := CalcMissingCosts(errs, units);
      && (r.outcome.Failed? ==> |r.windows| >= 1 && errs(r.windows[|r.windows| - 1]) == Some(r.outcome.error))
      && (forall i :: 0 <= i < |r.windows| - 1 ==> errs(r.windows[i]).None?)
  {
    AliasedRefsValid(|units|);
    SeriesStopsAtFirstError(errs, Ends(units), Starts(units), AliasedReverse(Indices(|units|)));
  }

  /** The evidently intended stage: a true newest-first order. */
  function CalcMissingCostsNewestFirst(errs: CursorErrors, units: seq<TimeRange>): CostRun
  {
    AliasedRefsValid(|units|);
    CostSeries(errs, Ends(units), Starts(units), Reverse(Indices(|units|)))
  }

  // ---------------------------------------------------------------------------
  // Visits

  /** How often `x` occurs in `s`. */
  function Occurrences(s: seq<nat>, x: nat): nat
  {
    if |s| == 0 then 0 else Occurrences(s[..|s| - 1], x) + (if s[|s| - 1] == x then 1 else 0)
  }

  lemma {:induction false} OccurrencesCons(a: nat, t: seq<nat>, x: nat)
    ensures Occurrences([a] + t, x) == (if a == x then 1 else 0) + Occurrences(t, x)
    decreases |t|
  {
    if |t| > 0 {
      assert ([a] + t)[..|[a] + t| - 1] == [a] + t[..|t| - 1];
      OccurrencesCons(a, t[..|t| - 1], x);
    } else {
      assert ([a] + t)[..0] == [];
    }
  }

  /** No occurrence of x among the first i elements. */
  lemma {:induction false} OccurrencesNone(s: seq<nat>, i: nat, x: nat)
    requires i <= |s|
    requires forall k :: 0 <= k < i ==> s[k] != x
    ensures Occurrences(s[..i], x) == 0
  {
    if i > 0 {
      assert s[..i][..i - 1] == s[..i - 1];
      OccurrencesNone(s, i - 1, x);
    }
  }

  /** Exactly one occurrence of x, at k0, among the first i elements. */
  lemma {:induction false} OccurrencesOne(s: seq<nat>, i: nat, x: nat, k0: nat)
    requires k0 < i <= |s| && s[k0] == x
    requires forall k :: 0 <= k < i && k != k0 ==> s[k] != x
    ensures Occurrences(s[..i], x) == 1
  {
    assert s[..i][..i - 1] == s[..i - 1];
    if k0 == i - 1 {
      OccurrencesNone(s, i - 1, x);
    } else {
      OccurrencesOne(s, i - 1, x, k0);
    }
  }

  /** Each unit object spans at most one day from its current start, so a visit
      computes exactly one window. */
  predicate OneWindowEach(starts: seq<int>, ends: seq<int>) {
    |starts| == |ends| && forall o :: 0 <= o < |ends| ==> ends[o] - DAY <= starts[o]
  }

  ghost predicate NoCursorErrors(errs: CursorErrors) {
    forall c :: errs(c).None?
  }

  lemma DayLoopSingle(errs: CursorErrors, cursor: int, end: int)
    requires NoCursorErrors(errs) && end - DAY <= cursor
    ensures DayLoop(errs, cursor, end) == DayLoopRun(cursor + DAY, [cursor], Done)
  {
    assert errs(cursor).None?;
  }

  /** With one window per visit and no cursor errors, the i-th window computed
      starts at its object's initial start plus one day for every earlier visit
      of the same object. */
  lemma {:induction false} WindowsByVisits(errs: CursorErrors, ends: seq<int>, starts: seq<int>, refs: seq<nat>)
    requires OneWindowEach(starts, ends) && ValidRefs(refs, |ends|) && NoCursorErrors(errs)
    ensures CostSeries(errs, ends, starts, refs).outcome == Done
    ensures |CostSeries(errs, ends, starts, refs).windows| == |refs|
    ensures forall i :: 0 <= i < |refs| ==>
      CostSeries(errs, ends, starts, refs).windows[i] == starts[refs[i]] + Occurrences(refs[..i], refs[i]) * DAY
    decreases |refs|
  {
    if |refs| > 0 {
      var o := refs[0];
      DayLoopSingle(errs, starts[o], ends[o]);
      var starts' := starts[o := starts[o] + DAY];
      WindowsByVisits(errs, ends, starts', refs[1..]);
      var rest := CostSeries(errs, ends, starts', refs[1..]);
      var run := CostSeries(errs, ends, starts, refs);
      assert run.windows == [starts[o]] + rest.windows;
      forall i | 0 <= i < |refs|
        ensures run.windows[i] == starts[refs[i]] + Occurrences(refs[..i], refs[i]) * DAY
      {
        if i == 0 {
          assert refs[..0] == [];
        } else {
          assert run.windows[i] == rest.windows[i - 1];
          assert refs[1..][i - 1] == refs[i];
          assert refs[..i] == [o] + refs[1..][..i - 1];
          OccurrencesCons(o, refs[1..][..i - 1], refs[i]);
        }
      }
    }
  }

  /** Units of exactly one day each. */
  predicate OneDayUnits(units: seq<TimeRange>) {
    forall i :: 0 <= i < |units| ==> units[i].end == units[i].start + DAY
  }

  /** The window start computed at position i of the as-written order (see
      AsWrittenWindows). */
  function AsWrittenDay(units: seq<TimeRange>, i: int): int
    requires 0 <= i < |units|
  {
    if i <= |units| - 1 - i then units[|units| - 1 - i].start else units[i].end
  }

  /** As written, for one-day units and no cursor errors: position i of the
      first half computes the day of unit n-1-i (newest first); position i of
      the second half revisits unit i, whose start object now holds its end, and
      computes the day AFTER that unit. */
  lemma AsWrittenWindows(errs: CursorErrors, units: seq<TimeRange>)
    requires OneDayUnits(units) && NoCursorErrors(errs)
    ensures CalcMissingCosts(errs, units).outcome == Done
    ensures |CalcMissingCosts(errs, units).windows| == |units|
    ensures forall i :: 0 <= i < |units| ==> CalcMissingCosts(errs, units).windows[i] == AsWrittenDay(units, i)
  {
    AliasedRefsValid(|units|);
    WindowsByVisits(errs, Ends(units), Starts(units), AliasedReverse(Indices(|units|)));
    forall i | 0 <= i < |units|
      ensures CalcMissingCosts(errs, units).windows[i] == AsWrittenDay(units, i)
    {
      AsWrittenWindow(errs, units, i);
    }
  }

  lemma AsWrittenWindow(errs: CursorErrors, units: seq<TimeRange>, i: int)
    requires OneDayUnits(units) && NoCursorErrors(errs) && 0 <= i < |units|
    ensures |CalcMissingCosts(errs, units).windows| == |units|
    ensures CalcMissingCosts(errs, units).windows[i] == AsWrittenDay(units, i)
  {
    var n := |units|;
    var refs := AliasedReverse(Indices(n));
    AliasedRefsValid(n);
    var ws := CostSeries(errs, Ends(units), Starts(units), refs).windows;
    assert |ws| == n && ws[i] == Starts(units)[refs[i]] + Occurrences(refs[..i], refs[i]) * DAY by {
      WindowsByVisits(errs, Ends(units), Starts(units), refs);
    }
    assert refs[i] == (if i <= n - 1 - i then n - 1 - i else i)
        && Occurrences(refs[..i], refs[i]) == (if i <= n - 1 - i then 0 else 1) by {
      AliasedVisits(n, i);
    }
    assert CalcMissingCosts(errs, units).windows == ws;
  }


  /** In the aliased order of n unit objects, position i refers to object n-1-i
      on its first visit in the first half, and to object i on its second visit
      in the second half. */
  lemma AliasedVisits(n: nat, i: nat)
    requires i < n
    ensures AliasedReverse(Indices(n))[i] == if i <= n - 1 - i then n - 1 - i else i
    ensures Occurrences(AliasedReverse(Indices(n))[..i], AliasedReverse(Indices(n))[i])
         == if i <= n - 1 - i then 0 else 1
  {
    var refs := AliasedReverse(Indices(n));
    if i <= n - 1 - i {
      OccurrencesNone(refs, i, refs[i]);
    } else {
      OccurrencesOne(refs, i, refs[i], n - 1 - i);
    }
  }

  /** As written, on ascending one-day units, the day of none of the oldest
      floor(n/2) units is ever computed. */
  lemma AsWrittenSkipsOldestHalf(errs: CursorErrors, units: seq<TimeRange>, k: int)
    requires OneDayUnits(units) && NoCursorErrors(errs) && Chain(units)
    requires 0 <= k < |units| / 2
    ensures units[k].start !in CalcMissingCosts(errs, units).windows
  {
    var n := |units|;
    var ws := CalcMissingCosts(errs, units).windows;
    AsWrittenWindows(errs, units);
    forall i | 0 <= i < n
      ensures ws[i] != units[k].start
    {
      if i <= n - 1 - i {
        assert k < n - 1 - i;
        assert units[k].end <= units[n - 1 - i].start;
      } else {
        assert k < i;
        assert units[k].end <= units[i].start;
      }
    }
  }

  /** The intended order computes every unit's own day exactly once, newest first. */
  lemma NewestFirstWindows(errs: CursorErrors, units: seq<TimeRange>)
    requires OneDayUnits(units) && NoCursorErrors(errs)
    ensures CalcMissingCostsNewestFirst(errs, units).outcome == Done
    ensures |CalcMissingCostsNewestFirst(errs, units).windows| == |units|
    ensures forall i :: 0 <= i < |units| ==>
      CalcMissingCostsNewestFirst(errs, units).windows[i] == units[|units| - 1 - i].start
  {
    AliasedRefsValid(|units|);
    WindowsByVisits(errs, Ends(units), Starts(units), Reverse(Indices(|units|)));
    forall i | 0 <= i < |units|
      ensures CalcMissingCostsNewestFirst(errs, units).windows[i] == units[|units| - 1 - i].start
    {
      NewestFirstWindow(errs, units, i);
    }
  }

  lemma NewestFirstWindow(errs: CursorErrors, units: seq<TimeRange>, i: int)
    requires OneDayUnits(units) && NoCursorErrors(errs) && 0 <= i < |units|
    ensures |CalcMissingCostsNewestFirst(errs, units).windows| == |units|
    ensures CalcMissingCostsNewestFirst(errs, units).windows[i] == units[|units| - 1 - i].start
  {
    var refs := Reverse(Indices(|units|));
    NewestFirstVisits(|units|, i);
    AliasedRefsValid(|units|);
    WindowsByVisits(errs, Ends(units), Starts(units), refs);
    assert CalcMissingCostsNewestFirst(errs, units).windows[i]
        == Starts(units)[refs[i]] + Occurrences(refs[..i], refs[i]) * DAY;
  }

  /** In the newest-first order every object is visited once. */
  lemma NewestFirstVisits(n: nat, i: nat)
    requires i < n
    ensures Reverse(Indices(n))[i] == n - 1 - i
    ensures Occurrences(Reverse(Indices(n))[..i], Reverse(Indices(n))[i]) == 0
  {
    var refs := Reverse(Indices(n));
    assert forall k :: 0 <= k < n ==> refs[k] == n - 1 - k;
    OccurrencesNone(refs, i, refs[i]);
  }

  /** Two one-day units: as written the newer day is computed and then the day
      after it; the older day never. */
  lemma TwoUnitCounterexample(errs: CursorErrors, d: int)
    requires NoCursorErrors(errs)
    ensures CalcMissingCosts(errs, [TimeRange(d, d + DAY), TimeRange(d + DAY, d + 2 * DAY)]).windows
         == [d + DAY, d + 2 * DAY]
    ensures CalcMissingCostsNewestFirst(errs, [TimeRange(d, d + DAY), TimeRange(d + DAY, d + 2 * DAY)]).windows
         == [d + DAY, d]
  {
    var units := [TimeRange(d, d + DAY), TimeRange(d + DAY, d + 2 * DAY)];
    AsWrittenWindows(errs, units);
    NewestFirstWindows(errs, units);
  }

  // ---------------------------------------------------------------------------
  // The cost store

  /** The stage's effect on the cost store is an overlay that does not depend
      on the store. */
  lemma {:induction false} CostAfterOverlay(cost: CostStore, usage: UsageStore, cards: seq<RateCard>, sub: string, days: seq<int>)
    ensures CostAfter(cost, usage, cards, sub, days)
         == cost + CostAfter(map[], usage, cards, sub, days)
    decreases |days|
  {
    if |days| == 0 {
      assert cost + map[] == cost;
    } else {
      var w := CostDay(map[], usage, cards, sub, days[0]);
      CostDayOverlay(cost, usage, cards, sub, days[0]);
      CostAfterOverlay(cost + w, usage, cards, sub, days[1..]);
      CostAfterOverlay(w, usage, cards, sub, days[1..]);
      OverlayAssoc(cost, w, CostAfter(map[], usage, cards, sub, days[1..]));
    }
  }

  lemma CostDayOverlay(cost: CostStore, usage: UsageStore, cards: seq<RateCard>, sub: string, day: int)
    ensures CostDay(cost, usage, cards, sub, day)
         == cost + CostDay(map[], usage, cards, sub, day)
  {
    var totals := DayTotals(usage, cards, day);
    var rows := set g | g in totals :: RowKey(sub, g, day);
    var w := map ck | ck in rows :: totals[GroupOfCost(ck)];
    assert map[] + w == w;
  }

  /** Upserting the same days again over unchanged usage changes nothing. */
  lemma CostAfterIdempotent(cost: CostStore, usage: UsageStore, cards: seq<RateCard>, sub: string, days: seq<int>)
    ensures var once := CostAfter(cost, usage, cards, sub, days);
      CostAfter(once, usage, cards, sub, days) == once
  {
    var once := CostAfter(cost, usage, cards, sub, days);
    var w := CostAfter(map[], usage, cards, sub, days);
    CostAfterOverlay(cost, usage, cards, sub, days);
    CostAfterOverlay(once, usage, cards, sub, days);
    assert (cost + w) + w == cost + w;
  }

  /** A cost row keeps its value, or stays absent, when it lies outside the
      windows upserted or belongs to another subscription. */
  lemma {:induction false} CostAfterUntouched(cost: CostStore, usage: UsageStore, cards: seq<RateCard>, sub: string, days: seq<int>, k: CostKey)
    requires k.usageStartTime !in days || k.subscriptionId != sub
    ensures k in CostAfter(cost, usage, cards, sub, days) <==> k in cost
    ensures k in cost ==> CostAfter(cost, usage, cards, sub, days)[k] == cost[k]
    decreases |days|
  {
    if |days| > 0 {
      var g := GroupOfCost(k);
      CostDaySpec(cost, usage, cards, sub, days[0], g, k);
      assert k.usageStartTime !in days[1..] || k.subscriptionId != sub;
      CostAfterUntouched(CostDay(cost, usage, cards, sub, days[0]), usage, cards, sub,
                         days[1..], k);
    }
  }
}
