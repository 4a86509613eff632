/** Daily cost aggregation (`getDailyCosts`, app_api/jobs/catchup.js:373-463).
    For one day window the source's aggregation keeps the usage records whose
    usage start lies in the window (of every subscription), joins them to the
    rate cards on meter id, groups by resource and sums quantity times rate;
    each group becomes one upserted cost row. The sums are taken over the
    usage store's keys, so these functions are ghost. */
module Costs {
  import opened Basics
  import opened TimeRanges
  import opened Usage

  /** One rate-card row: a meter and its rate (one rate per row). */
  datatype RateCard = RateCard(meterId: string, meterRate: real)

  /** The grouping key of the aggregation. */
  datatype Group = Group(resourceGroup: Option<string>, resourceName: Option<string>, resourceType: Option<string>)

  /** Natural key of a stored cost record. */
  datatype CostKey = CostKey(
    subscriptionId: string,
    resourceGroup: Option<string>,
    resourceType: Option<string>,
    resourceName: Option<string>,
    usageStartTime: int,
    usageEndTime: int)

  type CostStore = map<CostKey, real>

  function GroupOf(k: UsageKey): Group {
    Group(k.resourceGroup, k.resourceName, k.resourceType)
  }

  function GroupOfCost(k: CostKey): Group {
    Group(k.resourceGroup, k.resourceName, k.resourceType)
  }

  function RowKey(sub: string, g: Group, day: int): CostKey {
    CostKey(sub, g.resourceGroup, g.resourceType, g.resourceName, day, day + DAY)
  }

  /** Some rate card carries this meter. */
  predicate HasCard(cards: seq<RateCard>, meter: string) {
    exists i :: 0 <= i < |cards| && cards[i].meterId == meter
  }

  /** Sum of the rates of every card for this meter: the `$unwind` after the
      lookup yields one joined row per matching card. */
  function RateSum(cards: seq<RateCard>, meter: string): real
  {
    if |cards| == 0 then 0.0
    else (if cards[0].meterId == meter then cards[0].meterRate else 0.0) + RateSum(cards[1..], meter)
  }

  /** What one stored usage record adds to its group's total. */
  function Contribution(usage: UsageStore, cards: seq<RateCard>, k: UsageKey): real
    requires k in usage
  {
    usage[k].quantity * RateSum(cards, k.meterId)
  }

  /** Usage keys that the window [day, day+DAY) selects and the inner join keeps. */
  ghost function Joined(usage: UsageStore, cards: seq<RateCard>, day: int): set<UsageKey>
  {
    set k | k in usage && day <= k.usageStartTime < day + DAY && HasCard(cards, k.meterId)
  }

  /** Sum of the contributions of a set of stored usage keys. */
  ghost function Amount(usage: UsageStore, cards: seq<RateCard>, ks: set<UsageKey>): real
    requires ks <= usage.Keys
    decreases |ks|
  {
    if ks == {} then 0.0
    else
      var k :| k in ks;
      Contribution(usage, cards, k) + Amount(usage, cards, ks - {k})
  }

  /** The groups a set of usage keys falls into. */
  ghost function Groups(ks: set<UsageKey>): set<Group> {
    set k | k in ks :: GroupOf(k)
  }

  /** The keys of one group. */
  ghost function OfGroup(ks: set<UsageKey>, g: Group): set<UsageKey> {
    set k | k in ks && GroupOf(k) == g
  }

  /** Total cost per group for the window starting at `day`. */
  ghost function DayTotals(usage: UsageStore, cards: seq<RateCard>, day: int): map<Group, real>
  {
    var ks := Joined(usage, cards, day);
    map g | g in Groups(ks) :: Amount(usage, cards, OfGroup(ks, g))
  }

  /** The cost store after the rows of one day window are upserted. */
  ghost function CostDay(cost: CostStore, usage: UsageStore, cards: seq<RateCard>, sub: string, day: int): CostStore
  {
    var totals := DayTotals(usage, cards, day);
    var rows := set g | g in totals :: RowKey(sub, g, day);
    cost + map ck | ck in rows :: totals[GroupOfCost(ck)]
  }

  // ---------------------------------------------------------------------------
  // Sums

  /** The sum does not depend on the order the keys are taken in. */
  lemma {:induction false} AmountRemove(usage: UsageStore, cards: seq<RateCard>, ks: set<UsageKey>, k: UsageKey)
    requires ks <= usage.Keys && k in ks
    ensures Amount(usage, cards, ks) == Contribution(usage, cards, k) + Amount(usage, cards, ks - {k})
    decreases |ks|
  {
    var x :| x in ks && Amount(usage, cards, ks) == Contribution(usage, cards, x) + Amount(usage, cards, ks - {x});
    if x != k {
      AmountRemove(usage, cards, ks - {x}, k);
      AmountRemove(usage, cards, ks - {k}, x);
      assert ks - {x} - {k} == ks - {k} - {x};
    }
  }

  /** Every matching card contributes its rate: the sum over two lists of
      cards is the sum of the two sums. */
  lemma {:induction false} RateSumAppend(a: seq<RateCard>, b: seq<RateCard>, meter: string)
    ensures RateSum(a + b, meter) == RateSum(a, meter) + RateSum(b, meter)
  {
    if |a| > 0 {
      RateSumAppend(a[1..], b, meter);
      assert (a + b)[1..] == a[1..] + b;
    } else {
      assert a + b == b;
    }
  }

  /** A meter no card carries has rate sum zero. */
  lemma {:induction false} RateSumNoCard(cards: seq<RateCard>, meter: string)
    requires !HasCard(cards, meter)
    ensures RateSum(cards, meter) == 0.0
  {
    if |cards| > 0 {
      assert cards[0].meterId != meter;
      assert !HasCard(cards[1..], meter) by {
        forall i | 0 <= i < |cards[1..]|
          ensures cards[1..][i].meterId != meter
        {
          assert cards[1..][i] == cards[i + 1];
        }
      }
      RateSumNoCard(cards[1..], meter);
    }
  }

  lemma RateSumSingle(meter: string, rate: real)
    ensures RateSum([RateCard(meter, rate)], meter) == rate
  {
    assert [RateCard(meter, rate)][1..] == [];
  }

  // ---------------------------------------------------------------------------
  // One day window

  /** A group gets a row exactly when some stored usage record of that group
      starts in the window and has a rate card: usage without a rate card is
      dropped by the inner join. */
  lemma DayTotalsDomain(usage: UsageStore, cards: seq<RateCard>, day: int, g: Group)
    ensures g in DayTotals(usage, cards, day) <==>
      exists k :: k in usage && day <= k.usageStartTime < day + DAY && HasCard(cards, k.meterId) && GroupOf(k) == g
  {
    var ks := Joined(usage, cards, day);
    if exists k :: k in usage && day <= k.usageStartTime < day + DAY && HasCard(cards, k.meterId) && GroupOf(k) == g {
      var k :| k in usage && day <= k.usageStartTime < day + DAY && HasCard(cards, k.meterId) && GroupOf(k) == g;
      assert k in ks;
    }
  }

  /** Each row of the window is upserted under the subscription, its group and
      the window's bounds, with the group's total; every other key of the cost
      store keeps its value. */
  lemma CostDaySpec(cost: CostStore, usage: UsageStore, cards: seq<RateCard>, sub: string, day: int, g: Group, other: CostKey)
    ensures var totals := DayTotals(usage, cards, day);
      g in totals ==>
        RowKey(sub, g, day) in CostDay(cost, usage, cards, sub, day)
        && CostDay(cost, usage, cards, sub, day)[RowKey(sub, g, day)] == totals[g]
    ensures (other.subscriptionId != sub || other.usageStartTime != day || other.usageEndTime != day + DAY
             || GroupOfCost(other) !in DayTotals(usage, cards, day)) ==>
      (other in CostDay(cost, usage, cards, sub, day) <==> other in cost)
      && (other in cost ==> CostDay(cost, usage, cards, sub, day)[other] == cost[other])
  {
    var totals := DayTotals(usage, cards, day);
    var rows := set g | g in totals :: RowKey(sub, g, day);
    if g in totals {
      assert RowKey(sub, g, day) in rows;
      assert GroupOfCost(RowKey(sub, g, day)) == g;
    }
    if other in rows {
      var g' :| g' in totals && other == RowKey(sub, g', day);
      assert GroupOfCost(other) == g';
    }
  }

  /** Recomputing a day over unchanged usage and rate cards changes nothing. */
  lemma CostDayIdempotent(cost: CostStore, usage: UsageStore, cards: seq<RateCard>, sub: string, day: int)
    ensures var once := CostDay(cost, usage, cards, sub, day);
      CostDay(once, usage, cards, sub, day) == once
  {
    var totals := DayTotals(usage, cards, day);
    var rows := set g | g in totals :: RowKey(sub, g, day);
    var w := map ck | ck in rows :: totals[GroupOfCost(ck)];
    assert (cost + w) + w == cost + w;
  }

  /** The worked example: two usage records of one resource and one meter on the
      same day, with quantities 2 and 3, and a rate of 1.5 for that meter, give
      one row of 7.5. The two records come from different subscriptions; the
      aggregation does not filter on subscription. */
  lemma SevenAndAHalfExample(sub: string, day: int, meter: string, res: Group)
    ensures var k1 := UsageKey("a", res.resourceGroup, res.resourceType, res.resourceName, day, day + DAY, meter);
      var k2 := UsageKey("b", res.resourceGroup, res.resourceType, res.resourceName, day, day + DAY, meter);
      var usage := map[k1 := UsageValue(2.0, day, day + DAY), k2 := UsageValue(3.0, day, day + DAY)];
      DayTotals(usage, [RateCard(meter, 1.5)], day) == map[res := 7.5]
  {
    var k1 := UsageKey("a", res.resourceGroup, res.resourceType, res.resourceName, day, day + DAY, meter);
    var k2 := UsageKey("b", res.resourceGroup, res.resourceType, res.resourceName, day, day + DAY, meter);
    var usage := map[k1 := UsageValue(2.0, day, day + DAY), k2 := UsageValue(3.0, day, day + DAY)];
    var cards := [RateCard(meter, 1.5)];
    assert cards[0].meterId == meter;
    assert HasCard(cards, meter);
    RateSumSingle(meter, 1.5);
    var ks := Joined(usage, cards, day);
    assert ks == {k1, k2};
    assert GroupOf(k1) == res && GroupOf(k2) == res;
    assert Groups(ks) == {res};
    assert OfGroup(ks, res) == {k1, k2};
    AmountRemove(usage, cards, {k1, k2}, k1);
    assert {k1, k2} - {k1} == {k2};
    AmountRemove(usage, cards, {k2}, k2);
    assert {k2} - {k2} == {};
    assert Amount(usage, cards, {k1, k2}) == 7.5;
  }
}
