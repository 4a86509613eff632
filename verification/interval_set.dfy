/** Gap detection and one-day expansion (app_api/jobs/catchup.js:73-112).
    The source writes this twice, once for usage windows and once for cost
    windows (catchup.js:314-354); both stages use `MissingUnits` here. */
module IntervalSet {
  import opened TimeRanges

  /** The pair (j-1, j) of existing windows leaves a hole between them. */
  predicate HoleAt(ex: seq<TimeRange>, j: int) {
    1 <= j < |ex| && ex[j - 1].end < ex[j].start
  }

  function HoleOf(ex: seq<TimeRange>, j: int): TimeRange
    requires 1 <= j < |ex|
  {
    TimeRange(ex[j - 1].end, ex[j].start)
  }

  /** Holes between consecutive windows, scanning pairs (j-1, j) for j >= i. */
  function Holes(ex: seq<TimeRange>, i: nat): (r: seq<TimeRange>)
    requires 1 <= i
    decreases |ex| - i
  {
    if i >= |ex| then []
    else (if ex[i - 1].end < ex[i].start then [HoleOf(ex, i)] else []) + Holes(ex, i + 1)
  }

  /** Leading, inner and trailing gaps of the reference window [d, now) against
      windows that already exist. The equality tests are strict: touching or
      overlapping windows leave no gap. */
  function FindGaps(ex: seq<TimeRange>, d: int, now: int): (r: seq<TimeRange>)
    requires |ex| > 0
    ensures forall g :: g in r ==> g.start < g.end
  {
    HolesNonEmpty(ex, 1);
    (if d < ex[0].start then [TimeRange(d, ex[0].start)] else [])
    + Holes(ex, 1)
    + (if ex[|ex| - 1].end < now then [TimeRange(ex[|ex| - 1].end, now)] else [])
  }

  /** One-day units starting at `s`, emitted while the unit start is strictly
      before `e`: the inner loop of catchup.js:103-107 and the whole of
      catchup.js:79-83. */
  function DayUnits(s: int, e: int): (r: seq<TimeRange>)
    ensures |r| == if s < e then (e - s + DAY - 1) / DAY else 0
    ensures forall i :: 0 <= i < |r| ==> r[i] == TimeRange(s + i * DAY, s + i * DAY + DAY)
    ensures forall i :: 0 <= i < |r| ==> r[i].start < e
    decreases e - s
  {
    if s < e then [TimeRange(s, s + DAY)] + DayUnits(s + DAY, e) else []
  }

  /** Every gap, in order, expanded into one-day units (catchup.js:101-108). */
  function ExpandAll(gs: seq<TimeRange>): seq<TimeRange>
  {
    if |gs| == 0 then [] else DayUnits(gs[0].start, gs[0].end) + ExpandAll(gs[1..])
  }

  /** The backfill units of one stage: with no existing windows the whole of
      [d, now) is expanded directly, otherwise the gaps are. */
  function MissingUnits(ex: seq<TimeRange>, d: int, now: int): seq<TimeRange>
  {
    if |ex| == 0 then DayUnits(d, now) else ExpandAll(FindGaps(ex, d, now))
  }

  // ---------------------------------------------------------------------------
  // Holes

  lemma {:induction false} HolesNonEmpty(ex: seq<TimeRange>, i: nat)
    requires 1 <= i
    ensures forall g :: g in Holes(ex, i) ==> g.start < g.end
    decreases |ex| - i
  {
    if i < |ex| {
      HolesNonEmpty(ex, i + 1);
    }
  }

  /** A window is a hole found from pair i onwards exactly when some pair j >= i
      has its earlier end strictly before its later start. */
  lemma {:induction false} HolesMembership(ex: seq<TimeRange>, i: nat, g: TimeRange)
    requires 1 <= i
    ensures g in Holes(ex, i) <==> exists j :: i <= j && HoleAt(ex, j) && g == HoleOf(ex, j)
    decreases |ex| - i
  {
    if i < |ex| {
      HolesMembership(ex, i + 1, g);
      if g in Holes(ex, i + 1) {
        var j :| i + 1 <= j && HoleAt(ex, j) && g == HoleOf(ex, j);
        assert i <= j;
      }
      if exists j :: i <= j && HoleAt(ex, j) && g == HoleOf(ex, j) {
        var j :| i <= j && HoleAt(ex, j) && g == HoleOf(ex, j);
        if j == i {
          assert g in Holes(ex, i);
        } else {
          assert g in Holes(ex, i + 1);
        }
      }
    }
  }

  /** On non-overlapping input, the holes from pair i onwards form a chain that
      lies between the end of window i-1 and the start of the last window. */
  lemma {:induction false} HolesChain(ex: seq<TimeRange>, i: nat)
    requires 1 <= i <= |ex|
    requires Chain(ex)
    ensures Chain(Holes(ex, i))
    ensures forall g :: g in Holes(ex, i) ==> ex[i - 1].end <= g.start && g.end <= ex[|ex| - 1].start
    decreases |ex| - i
  {
    if i < |ex| {
      HolesChain(ex, i + 1);
      var head := if ex[i - 1].end < ex[i].start then [HoleOf(ex, i)] else [];
      assert Chain(head);
      forall x, y | x in head && y in Holes(ex, i + 1)
        ensures x.end <= y.start
      {
        assert x.end == ex[i].start;
      }
      ChainAppend(head, Holes(ex, i + 1));
      forall g | g in Holes(ex, i)
        ensures ex[i - 1].end <= g.start && g.end <= ex[|ex| - 1].start
      {
        if g in Holes(ex, i + 1) {
          assert ex[i - 1].end <= ex[i].start;
        }
      }
    }
  }

  // ---------------------------------------------------------------------------
  // Gaps

  /** Exactly three kinds of window are emitted: the leading gap iff `d` is
      strictly before the first start, a hole iff an end is strictly before the
      next start, the trailing gap iff the last end is strictly before `now`. */
  lemma GapMembership(ex: seq<TimeRange>, d: int, now: int, g: TimeRange)
    requires |ex| > 0
    ensures g in FindGaps(ex, d, now) <==>
      || (d < ex[0].start && g == TimeRange(d, ex[0].start))
      || (exists j :: HoleAt(ex, j) && g == HoleOf(ex, j))
      || (ex[|ex| - 1].end < now && g == TimeRange(ex[|ex| - 1].end, now))
  {
    HolesMembership(ex, 1, g);
  }

  /** The leading gap comes first and the trailing gap last. */
  lemma GapOrder(ex: seq<TimeRange>, d: int, now: int)
    requires |ex| > 0
    ensures d < ex[0].start ==> FindGaps(ex, d, now)[0] == TimeRange(d, ex[0].start)
    ensures ex[|ex| - 1].end < now ==>
      var r := FindGaps(ex, d, now); r[|r| - 1] == TimeRange(ex[|ex| - 1].end, now)
  {
  }

  /** Every instant of [d, now) that no existing window covers lies in some gap.
      No ordering of the input is needed for this. */
  lemma GapsCoverUncovered(ex: seq<TimeRange>, d: int, now: int, t: int)
    requires |ex| > 0
    requires d <= t < now && !Covers(ex, t)
    ensures Covers(FindGaps(ex, d, now), t)
  {
    var last := |ex| - 1;
    if t < ex[0].start {
      CoversOfMember(FindGaps(ex, d, now), TimeRange(d, ex[0].start), t);
      return;
    }
    // Walk forward while the next window still starts at or before t.
    var k := 0;
    while k < last && ex[k + 1].start <= t
      invariant 0 <= k <= last
      invariant ex[k].start <= t
    {
      k := k + 1;
    }
    assert !Contains(ex[k], t);
    if k == last {
      CoversOfMember(FindGaps(ex, d, now), TimeRange(ex[last].end, now), t);
    } else {
      assert HoleAt(ex, k + 1);
      HolesMembership(ex, 1, HoleOf(ex, k + 1));
      CoversOfMember(FindGaps(ex, d, now), HoleOf(ex, k + 1), t);
    }
  }

  lemma ChainMonotone(ex: seq<TimeRange>, i: int, j: int)
    requires Chain(ex) && 0 <= i <= j < |ex|
    ensures ex[i].start <= ex[j].start && ex[i].end <= ex[j].end
  {
    if i < j {
      assert ex[i].end <= ex[j].start;
    }
  }

  /** For non-overlapping input the gaps are ascending and pairwise disjoint. */
  lemma GapsAscending(ex: seq<TimeRange>, d: int, now: int)
    requires |ex| > 0 && Chain(ex)
    ensures Chain(FindGaps(ex, d, now))
  {
    var last := |ex| - 1;
    var lead := if d < ex[0].start then [TimeRange(d, ex[0].start)] else [];
    var trail := if ex[last].end < now then [TimeRange(ex[last].end, now)] else [];
    LeadAndHolesChain(ex, d);
    LeadAndHolesBeforeTrail(ex, d, now);
    ChainAppend(lead + Holes(ex, 1), trail);
    assert FindGaps(ex, d, now) == lead + Holes(ex, 1) + trail;
  }

  lemma LeadAndHolesChain(ex: seq<TimeRange>, d: int)
    requires |ex| > 0 && Chain(ex)
    ensures Chain((if d < ex[0].start then [TimeRange(d, ex[0].start)] else []) + Holes(ex, 1))
    ensures forall x :: x in (if d < ex[0].start then [TimeRange(d, ex[0].start)] else []) + Holes(ex, 1) ==>
      x.end <= ex[|ex| - 1].start
  {
    var lead := if d < ex[0].start then [TimeRange(d, ex[0].start)] else [];
    HolesChain(ex, 1);
    ChainMonotone(ex, 0, |ex| - 1);
    assert ex[0].start < ex[0].end;
    forall x, y | x in lead && y in Holes(ex, 1)
      ensures x.end <= y.start
    {
      assert x.end == ex[0].start;
    }
    ChainAppend(lead, Holes(ex, 1));
  }

  lemma LeadAndHolesBeforeTrail(ex: seq<TimeRange>, d: int, now: int)
    requires |ex| > 0 && Chain(ex)
    ensures forall x, y ::
      && x in (if d < ex[0].start then [TimeRange(d, ex[0].start)] else []) + Holes(ex, 1)
      && y in (if ex[|ex| - 1].end < now then [TimeRange(ex[|ex| - 1].end, now)] else [])
      ==> x.end <= y.start
  {
    LeadAndHolesChain(ex, d);
    assert ex[|ex| - 1].start < ex[|ex| - 1].end;
  }



  /** A single emitted gap meets no existing window, for non-overlapping input. */
  lemma GapMissesExisting(ex: seq<TimeRange>, d: int, now: int, g: TimeRange, t: int)
    requires |ex| > 0 && Chain(ex)
    requires g in FindGaps(ex, d, now) && Contains(g, t)
    ensures !Covers(ex, t)
  {
    var last := |ex| - 1;
    GapMembership(ex, d, now, g);
    forall m | 0 <= m < |ex|
      ensures !Contains(ex[m], t)
    {
      if d < ex[0].start && g == TimeRange(d, ex[0].start) {
        ChainMonotone(ex, 0, m);
      } else if exists j :: HoleAt(ex, j) && g == HoleOf(ex, j) {
        var j :| HoleAt(ex, j) && g == HoleOf(ex, j);
        if m < j {
          ChainMonotone(ex, m, j - 1);
        } else {
          ChainMonotone(ex, j, m);
        }
      } else {
        ChainMonotone(ex, m, last);
      }
    }
  }

  /** No instant lies both in a gap and in an existing window. */
  lemma GapsDisjointFromExisting(ex: seq<TimeRange>, d: int, now: int, t: int)
    requires |ex| > 0 && Chain(ex)
    ensures Covers(FindGaps(ex, d, now), t) ==> !Covers(ex, t)
  {
    if Covers(FindGaps(ex, d, now), t) {
      var gs := FindGaps(ex, d, now);
      var i :| 0 <= i < |gs| && Contains(gs[i], t);
      GapMissesExisting(ex, d, now, gs[i], t);
    }
  }

  /** When the existing windows are non-overlapping and lie inside [d, now),
      the gaps and the existing windows together cover exactly [d, now). */
  lemma GapsPartitionWindow(ex: seq<TimeRange>, d: int, now: int, t: int)
    requires |ex| > 0 && Chain(ex)
    requires d <= ex[0].start && ex[|ex| - 1].end <= now
    ensures Covers(FindGaps(ex, d, now), t) || Covers(ex, t) <==> d <= t < now
    ensures !(Covers(FindGaps(ex, d, now), t) && Covers(ex, t))
  {
    var last := |ex| - 1;
    GapsDisjointFromExisting(ex, d, now, t);
    if d <= t < now && !Covers(ex, t) {
      GapsCoverUncovered(ex, d, now, t);
    }
    if Covers(ex, t) {
      var m :| 0 <= m < |ex| && Contains(ex[m], t);
      ChainMonotone(ex, 0, m);
      ChainMonotone(ex, m, last);
    }
    if Covers(FindGaps(ex, d, now), t) {
      var gs := FindGaps(ex, d, now);
      var i :| 0 <= i < |gs| && Contains(gs[i], t);
      GapMembership(ex, d, now, gs[i]);
      ChainMonotone(ex, 0, last);
      if exists j :: HoleAt(ex, j) && gs[i] == HoleOf(ex, j) {
        var j :| HoleAt(ex, j) && gs[i] == HoleOf(ex, j);
        ChainMonotone(ex, 0, j - 1);
        ChainMonotone(ex, j, last);
      }
    }
  }

  // ---------------------------------------------------------------------------
  // Day expansion

  /** A window whose length is a whole number of days. */
  predicate WholeDays(g: TimeRange) {
    (g.end - g.start) % DAY == 0
  }

  /** Every instant of [s, e) lies in one of the units. */
  lemma DayUnitsCover(s: int, e: int, t: int)
    requires s <= t < e
    ensures Covers(DayUnits(s, e), t)
  {
    var r := DayUnits(s, e);
    var i := (t - s) / DAY;
    assert 0 <= i < |r|;
    assert Contains(r[i], t);
  }

  /** The units are consecutive days; the last one ends at or after `e` and less
      than a day after it, and it ends exactly at `e` iff the length of [s, e)
      is a whole number of days. Otherwise the last unit overshoots `e`. */
  lemma DayUnitsShape(s: int, e: int)
    requires s < e
    ensures Chain(DayUnits(s, e))
    ensures var r := DayUnits(s, e); e <= r[|r| - 1].end < e + DAY
    ensures var r := DayUnits(s, e); r[|r| - 1].end == e <==> (e - s) % DAY == 0
    ensures forall t :: Covers(DayUnits(s, e), t) ==> s <= t < DayUnits(s, e)[|DayUnits(s, e)| - 1].end
  {
    var r := DayUnits(s, e);
    forall i, j | 0 <= i < j < |r|
      ensures r[i].end <= r[j].start
    {
    }
    forall t | Covers(r, t)
      ensures s <= t < r[|r| - 1].end
    {
      var i :| 0 <= i < |r| && Contains(r[i], t);
    }
  }

  /** For a whole number of days the units tile [s, e) exactly. */
  lemma DayUnitsExact(s: int, e: int)
    requires s <= e && (e - s) % DAY == 0
    ensures forall u :: u in DayUnits(s, e) ==> s <= u.start && u.end <= e
    ensures forall t :: Covers(DayUnits(s, e), t) <==> s <= t < e
  {
    var r := DayUnits(s, e);
    if s < e {
      DayUnitsShape(s, e);
      forall t | s <= t < e
        ensures Covers(r, t)
      {
        DayUnitsCover(s, e, t);
      }
    }
    forall u | u in r
      ensures s <= u.start && u.end <= e
    {
      var i :| 0 <= i < |r| && r[i] == u;
      assert |r| * DAY == e - s;
    }
  }

  /** The expanded units cover every instant of every gap. */
  lemma {:induction false} ExpandAllCovers(gs: seq<TimeRange>, t: int)
    requires Covers(gs, t)
    ensures Covers(ExpandAll(gs), t)
  {
    var i :| 0 <= i < |gs| && Contains(gs[i], t);
    CoversAppend(DayUnits(gs[0].start, gs[0].end), ExpandAll(gs[1..]), t);
    if i == 0 {
      DayUnitsCover(gs[0].start, gs[0].end, t);
    } else {
      assert Contains(gs[1..][i - 1], t);
      ExpandAllCovers(gs[1..], t);
    }
  }

  /** When every gap is a whole number of days, each unit lies inside a gap, so
      the units cover nothing outside the gaps. */
  lemma {:induction false} ExpandAllWithin(gs: seq<TimeRange>)
    requires forall g :: g in gs ==> g.start <= g.end && WholeDays(g)
    ensures forall u :: u in ExpandAll(gs) ==>
      exists i :: 0 <= i < |gs| && gs[i].start <= u.start && u.end <= gs[i].end
  {
    if |gs| > 0 {
      DayUnitsExact(gs[0].start, gs[0].end);
      ExpandAllWithin(gs[1..]);
      forall u | u in ExpandAll(gs)
        ensures exists i :: 0 <= i < |gs| && gs[i].start <= u.start && u.end <= gs[i].end
      {
        if u in DayUnits(gs[0].start, gs[0].end) {
          assert gs[0].start <= u.start && u.end <= gs[0].end;
        } else {
          var i :| 0 <= i < |gs[1..]| && gs[1..][i].start <= u.start && u.end <= gs[1..][i].end;
          assert gs[i + 1] == gs[1..][i];
        }
      }
    }
  }

  lemma ExpandAllExact(gs: seq<TimeRange>, t: int)
    requires forall g :: g in gs ==> g.start <= g.end && WholeDays(g)
    ensures Covers(ExpandAll(gs), t) <==> Covers(gs, t)
  {
    if Covers(gs, t) {
      ExpandAllCovers(gs, t);
    }
    if Covers(ExpandAll(gs), t) {
      var us := ExpandAll(gs);
      var k :| 0 <= k < |us| && Contains(us[k], t);
      ExpandAllWithin(gs);
      assert us[k] in us;
      var i :| 0 <= i < |gs| && gs[i].start <= us[k].start && us[k].end <= gs[i].end;
      assert Contains(gs[i], t);
    }
  }

  /** Ascending, disjoint gaps of whole days expand to ascending, disjoint units. */
  lemma {:induction false} ExpandAllChain(gs: seq<TimeRange>)
    requires Chain(gs)
    requires forall g :: g in gs ==> WholeDays(g)
    ensures Chain(ExpandAll(gs))
  {
    if |gs| > 0 {
      var g := gs[0];
      var head := DayUnits(g.start, g.end);
      var rest := ExpandAll(gs[1..]);
      assert Chain(head) && forall x :: x in head ==> x.end <= g.end by {
        assert g in gs && g.start < g.end;
        DayUnitsShape(g.start, g.end);
        DayUnitsExact(g.start, g.end);
      }
      assert Chain(rest) by {
        assert Chain(gs[1..]);
        ExpandAllChain(gs[1..]);
      }
      assert forall y :: y in rest ==> g.end <= y.start by {
        RestAfterFirst(gs);
      }
      ChainAppend(head, rest);
    }
  }

  /** Every unit of the later gaps starts at or after the first gap ends. */
  lemma RestAfterFirst(gs: seq<TimeRange>)
    requires |gs| > 0 && Chain(gs)
    requires forall g :: g in gs ==> WholeDays(g)
    ensures forall y :: y in ExpandAll(gs[1..]) ==> gs[0].end <= y.start
  {
    ExpandAllWithin(gs[1..]);
    forall y | y in ExpandAll(gs[1..])
      ensures gs[0].end <= y.start
    {
      var i :| 0 <= i < |gs[1..]| && gs[1..][i].start <= y.start && y.end <= gs[1..][i].end;
      assert gs[1..][i] == gs[i + 1];
    }
  }

  // ---------------------------------------------------------------------------
  // Units of one stage

  /** With nothing stored, the units are the days of [d, now), the same as
      expanding the single gap [d, now); no unit starts at or after `now`, so
      the current day is never a unit. */
  lemma EmptyStoreUnits(d: int, now: int)
    ensures MissingUnits([], d, now) == ExpandAll(if d < now then [TimeRange(d, now)] else [])
    ensures forall u :: u in MissingUnits([], d, now) ==> d <= u.start < now && u.end == u.start + DAY
    ensures (now - d) % DAY == 0 ==> forall u :: u in MissingUnits([], d, now) ==> u.end <= now
  {
    if d < now {
      assert [TimeRange(d, now)][1..] == [];
      assert ExpandAll([TimeRange(d, now)]) == DayUnits(d, now) + [];
    }
    var r := DayUnits(d, now);
    forall u | u in r
      ensures d <= u.start < now && u.end == u.start + DAY
    {
      var i :| 0 <= i < |r| && r[i] == u;
    }
    if (now - d) % DAY == 0 && d <= now {
      DayUnitsExact(d, now);
    }
  }

  /** A store that already covers [d, now) yields no units. */
  lemma FullCoverageNoUnits(d: int, now: int)
    ensures MissingUnits([TimeRange(d, now)], d, now) == []
  {
    assert FindGaps([TimeRange(d, now)], d, now) == [];
  }

  /** Two stored days followed by two missing days: only the missing days are units. */
  lemma TwoDaysMissingScenario(d: int)
    ensures MissingUnits([TimeRange(d, d + 2 * DAY)], d, d + 4 * DAY)
         == [TimeRange(d + 2 * DAY, d + 3 * DAY), TimeRange(d + 3 * DAY, d + 4 * DAY)]
  {
    var ex := [TimeRange(d, d + 2 * DAY)];
    var g := TimeRange(d + 2 * DAY, d + 4 * DAY);
    assert FindGaps(ex, d, d + 4 * DAY) == [g];
    assert [g][1..] == [];
    var r := DayUnits(g.start, g.end);
    assert |r| == 2;
    assert ExpandAll([g]) == r + [];
  }

  /** Every instant of [d, now) not covered by a stored window is in some unit. */
  lemma MissingUnitsCover(ex: seq<TimeRange>, d: int, now: int, t: int)
    requires d <= t < now && !Covers(ex, t)
    ensures Covers(MissingUnits(ex, d, now), t)
  {
    if |ex| == 0 {
      DayUnitsCover(d, now, t);
    } else {
      GapsCoverUncovered(ex, d, now, t);
      ExpandAllCovers(FindGaps(ex, d, now), t);
    }
  }

  /** Every boundary of the stored windows, and `now`, is a whole number of days
      after `d`: true of everything the pipeline itself writes. */
  predicate AlignedTo(ex: seq<TimeRange>, d: int, now: int) {
    && (now - d) % DAY == 0
    && forall i :: 0 <= i < |ex| ==> (ex[i].start - d) % DAY == 0 && (ex[i].end - d) % DAY == 0
  }

  lemma GapsWholeDays(ex: seq<TimeRange>, d: int, now: int)
    requires |ex| > 0 && AlignedTo(ex, d, now)
    ensures forall g :: g in FindGaps(ex, d, now) ==> g.start <= g.end && WholeDays(g)
  {
    forall g | g in FindGaps(ex, d, now)
      ensures g.start <= g.end && WholeDays(g)
    {
      GapWholeDays(ex, d, now, g);
    }
  }

  lemma GapWholeDays(ex: seq<TimeRange>, d: int, now: int, g: TimeRange)
    requires |ex| > 0 && AlignedTo(ex, d, now) && g in FindGaps(ex, d, now)
    ensures g.start <= g.end && WholeDays(g)
  {
    GapMembership(ex, d, now, g);
    if exists j :: HoleAt(ex, j) && g == HoleOf(ex, j) {
      var j :| HoleAt(ex, j) && g == HoleOf(ex, j);
      AlignedDifference(ex[j - 1].end, ex[j].start, d);
    } else if ex[|ex| - 1].end < now && g == TimeRange(ex[|ex| - 1].end, now) {
      AlignedDifference(ex[|ex| - 1].end, now, d);
    } else {
      assert (ex[0].start - d) % DAY == 0;
    }
  }

  lemma AlignedDifference(a: int, b: int, d: int)
    requires (a - d) % DAY == 0 && (b - d) % DAY == 0
    ensures (b - a) % DAY == 0
  {
    assert b - a == (b - d) - (a - d);
  }


  /** For non-overlapping, day-aligned stored windows, the units are ascending,
      pairwise disjoint, and cover exactly the instants the gaps cover, so no
      unit meets a stored window. */
  lemma MissingUnitsChain(ex: seq<TimeRange>, d: int, now: int, t: int)
    requires Chain(ex) && AlignedTo(ex, d, now)
    ensures Chain(MissingUnits(ex, d, now))
    ensures Covers(MissingUnits(ex, d, now), t) ==> !Covers(ex, t)
  {
    if |ex| == 0 {
      if d < now {
        DayUnitsShape(d, now);
      }
    } else {
      var gs := FindGaps(ex, d, now);
      GapsWholeDays(ex, d, now);
      GapsAscending(ex, d, now);
      ExpandAllChain(gs);
      ExpandAllExact(gs, t);
      GapsDisjointFromExisting(ex, d, now, t);
    }
  }

  /** `t` is a whole number of days after `d`. */
  predicate OnDayGrid(t: int, d: int) {
    (t - d) % DAY == 0
  }

  /** Every gap begins at `d` or at the end of a stored window, so on aligned
      input it begins on the day grid. */
  lemma GapStartAligned(ex: seq<TimeRange>, d: int, now: int, g: TimeRange)
    requires |ex| > 0 && AlignedTo(ex, d, now) && g in FindGaps(ex, d, now)
    ensures OnDayGrid(g.start, d)
  {
    GapMembership(ex, d, now, g);
    if exists j :: HoleAt(ex, j) && g == HoleOf(ex, j) {
      var j :| HoleAt(ex, j) && g == HoleOf(ex, j);
      assert (ex[j - 1].end - d) % DAY == 0;
    } else if ex[|ex| - 1].end < now && g == TimeRange(ex[|ex| - 1].end, now) {
      assert (ex[|ex| - 1].end - d) % DAY == 0;
    }
  }

  /** Whole days from a point of the grid land on the grid. */
  lemma ShiftByDays(x: int, d: int, i: int)
    requires OnDayGrid(x, d)
    ensures OnDayGrid(x + i * DAY, d)
  {
    var q := (x - d) / DAY;
    assert x - d == q * DAY;
    assert x + i * DAY - d == (q + i) * DAY;
  }

  /** Gaps that start on the day grid expand into units that start and end on
      it. */
  lemma {:induction false} ExpandAllAligned(gs: seq<TimeRange>, d: int)
    requires forall k :: 0 <= k < |gs| ==> OnDayGrid(gs[k].start, d)
    ensures forall i :: 0 <= i < |ExpandAll(gs)| ==>
      OnDayGrid(ExpandAll(gs)[i].start, d) && OnDayGrid(ExpandAll(gs)[i].end, d)
  {
    if |gs| > 0 {
      ExpandAllAligned(gs[1..], d);
      var a := DayUnits(gs[0].start, gs[0].end);
      var b := ExpandAll(gs[1..]);
      var ab: seq<TimeRange> := a + b;
      forall i | 0 <= i < |ab|
        ensures OnDayGrid(ab[i].start, d) && OnDayGrid(ab[i].end, d)
      {
        if i < |a| {
          ShiftByDays(gs[0].start, d, i);
          ShiftByDays(gs[0].start, d, i + 1);
          assert ab[i] == TimeRange(gs[0].start + i * DAY, gs[0].start + (i + 1) * DAY);
        } else {
          assert ab[i] == b[i - |a|];
        }
      }
    }
  }

  /** When every stored boundary is a whole number of days after `d`, so is
      every boundary of every backfill unit. */
  lemma MissingUnitsAligned(ex: seq<TimeRange>, d: int, now: int)
    requires AlignedTo(ex, d, now)
    ensures forall i :: 0 <= i < |MissingUnits(ex, d, now)| ==>
      OnDayGrid(MissingUnits(ex, d, now)[i].start, d) && OnDayGrid(MissingUnits(ex, d, now)[i].end, d)
  {
    if |ex| == 0 {
      EmptyStoreAligned(d, now);
    } else {
      var gs := FindGaps(ex, d, now);
      forall k | 0 <= k < |gs|
        ensures OnDayGrid(gs[k].start, d)
      {
        GapStartAligned(ex, d, now, gs[k]);
      }
      ExpandAllAligned(gs, d);
    }
  }

  lemma EmptyStoreAligned(d: int, now: int)
    ensures forall i :: 0 <= i < |MissingUnits([], d, now)| ==>
      OnDayGrid(MissingUnits([], d, now)[i].start, d) && OnDayGrid(MissingUnits([], d, now)[i].end, d)
  {
    var gs := [TimeRange(d, now)];
    assert gs[1..] == [];
    assert MissingUnits([], d, now) == DayUnits(d, now) + ExpandAll(gs[1..]);
    assert OnDayGrid(d, d);
    ExpandAllAligned(gs, d);
  }

  /** Every backfill unit is exactly one day long, whatever the gaps. */
  lemma {:induction false} ExpandAllOneDay(gs: seq<TimeRange>)
    ensures forall i :: 0 <= i < |ExpandAll(gs)| ==> ExpandAll(gs)[i].end == ExpandAll(gs)[i].start + DAY
  {
    if |gs| > 0 {
      ExpandAllOneDay(gs[1..]);
      var a := DayUnits(gs[0].start, gs[0].end);
      var b := ExpandAll(gs[1..]);
      var ab: seq<TimeRange> := a + b;
      forall i | 0 <= i < |ab|
        ensures ab[i].end == ab[i].start + DAY
      {
        if i >= |a| {
          assert ab[i] == b[i - |a|];
        }
      }
    }
  }

  lemma MissingUnitsOneDay(ex: seq<TimeRange>, d: int, now: int)
    ensures forall i :: 0 <= i < |MissingUnits(ex, d, now)| ==>
      MissingUnits(ex, d, now)[i].end == MissingUnits(ex, d, now)[i].start + DAY
  {
    if |ex| > 0 {
      ExpandAllOneDay(FindGaps(ex, d, now));
    }
  }
}
