/** Instants, half-open time ranges and the outcome of a pipeline step.

    Instants are whole seconds since the Unix epoch, in UTC. UTC has no daylight
    saving, so adding one calendar day is always one step of DAY seconds. */
module TimeRanges {

  /** Seconds in one UTC day. */
  const DAY: int := 86400

  /** 2015-03-04T00:00:00Z, the earliest day for which the usage API has data. */
  const DEFAULT_START: int := 1425427200

  /** A half-open window [start, end). Windows read back from the stores are not
      guaranteed to be non-empty, so the type carries no invariant. */
  datatype TimeRange = TimeRange(start: int, end: int)

  predicate Contains(r: TimeRange, t: int) {
    r.start <= t < r.end
  }

  /** Some window of `rs` contains the instant `t`. */
  predicate Covers(rs: seq<TimeRange>, t: int) {
    exists i :: 0 <= i < |rs| && Contains(rs[i], t)
  }

  /** The windows of `rs` are non-empty, in ascending order and pairwise disjoint. */
  predicate Chain(rs: seq<TimeRange>) {
    && (forall i :: 0 <= i < |rs| ==> rs[i].start < rs[i].end)
    && (forall i, j :: 0 <= i < j < |rs| ==> rs[i].end <= rs[j].start)
  }

  /** Midnight (UTC) of the day that contains `t`: what `startOf('day')` gives. */
  function StartOfDay(t: int): (r: int)
    ensures r % DAY == 0
    ensures r <= t < r + DAY
  {
    t - t % DAY
  }

  lemma DefaultStartIsMidnight()
    ensures DEFAULT_START % DAY == 0
    ensures StartOfDay(DEFAULT_START) == DEFAULT_START
  {
  }

  /** Membership in a sequence and containment give coverage. */
  lemma CoversOfMember(rs: seq<TimeRange>, g: TimeRange, t: int)
    requires g in rs && Contains(g, t)
    ensures Covers(rs, t)
  {
    var i :| 0 <= i < |rs| && rs[i] == g;
    assert Contains(rs[i], t);
  }

  lemma CoversAppend(a: seq<TimeRange>, b: seq<TimeRange>, t: int)
    ensures Covers(a + b, t) <==> Covers(a, t) || Covers(b, t)
  {
    if Covers(a + b, t) {
      var i :| 0 <= i < |a + b| && Contains((a + b)[i], t);
      if i < |a| {
        assert Contains(a[i], t);
      } else {
        assert Contains(b[i - |a|], t);
      }
    }
    if Covers(a, t) {
      var i :| 0 <= i < |a| && Contains(a[i], t);
      assert (a + b)[i] == a[i];
    }
    if Covers(b, t) {
      var i :| 0 <= i < |b| && Contains(b[i], t);
      assert (a + b)[|a| + i] == b[i];
    }
  }

  /** Two chains, the first ending before the second starts, form one chain. */
  lemma ChainAppend(a: seq<TimeRange>, b: seq<TimeRange>)
    requires Chain(a) && Chain(b)
    requires forall x, y :: x in a && y in b ==> x.end <= y.start
    ensures Chain(a + b)
  {
    var c := a + b;
    forall i, j | 0 <= i < j < |c|
      ensures c[i].end <= c[j].start
    {
      if j < |a| {
        assert c[i] == a[i] && c[j] == a[j];
      } else if i >= |a| {
        assert c[i] == b[i - |a|] && c[j] == b[j - |a|];
      } else {
        assert c[i] == a[i] && c[j] == b[j - |a|];
        assert a[i] in a && b[j - |a|] in b;
      }
    }
  }
}
