/** Usage records as the usage API returns them, their classification into
    invalid, classic and ARM resources, and the usage store they are upserted
    into (app_api/jobs/catchup.js:178-258). */
module Usage {
  import opened Basics
  import opened TimeRanges
  import opened ResourceUri
  import opened Stores

  /** One element of a page's `value` array, reduced to the fields the job
      reads. `instanceUri` is the `resourceUri` inside the `instanceData` JSON
      text, absent when `instanceData` is; `infoFields` is the (always present)
      info object. */
  datatype RawUsage = RawUsage(
    instanceUri: Option<string>,
    infoFields: map<string, string>,
    usageStartTime: int,
    usageEndTime: int,
    meterId: string,
    quantity: real)

  /** Natural key of a stored usage record. Fields the source may read as
      `undefined` are optional. */
  datatype UsageKey = UsageKey(
    subscriptionId: string,
    resourceGroup: Option<string>,
    resourceType: Option<string>,
    resourceName: Option<string>,
    usageStartTime: int,
    usageEndTime: int,
    meterId: string)

  /** The upsertable part of a stored usage record. */
  datatype UsageValue = UsageValue(quantity: real, reportedStartTime: int, reportedEndTime: int)

  type UsageStore = map<UsageKey, UsageValue>

  function Lookup(m: map<string, string>, field: string): Option<string> {
    if field in m then Some(m[field]) else None
  }

  /** The resource a record belongs to, or None for a record that is skipped as
      invalid (catchup.js:183-229). */
  function Classify(rec: RawUsage): Option<Resource>
  {
    if rec.instanceUri.None? && |rec.infoFields| == 0 then None
    else if rec.instanceUri.None? then
      Some(Resource(Some("classic"), Lookup(rec.infoFields, "meteredService"), Lookup(rec.infoFields, "project")))
    else Some(ParseArmUri(rec.instanceUri.value))
  }

  function KeyOf(sub: string, rec: RawUsage, res: Resource): UsageKey {
    UsageKey(sub, res.group, res.rtype, res.name, rec.usageStartTime, rec.usageEndTime, rec.meterId)
  }

  /** The upserts one page issues, in record order; `unit` is the unit the page
      belongs to, whose bounds become the reported window. */
  function PageWrites(sub: string, unit: TimeRange, recs: seq<RawUsage>): seq<(UsageKey, UsageValue)>
  {
    if |recs| == 0 then []
    else
      var rest := PageWrites(sub, unit, recs[1..]);
      match Classify(recs[0])
      case None => rest
      case Some(res) =>
        [(KeyOf(sub, recs[0], res), UsageValue(recs[0].quantity, unit.start, unit.end))] + rest
  }

  /** Number of records of a page skipped as invalid. */
  function InvalidCount(recs: seq<RawUsage>): nat
  {
    if |recs| == 0 then 0
    else (if Classify(recs[0]).None? then 1 else 0) + InvalidCount(recs[1..])
  }

  /** The three kinds of record: invalid exactly when it has neither instance
      data nor info fields; classic (group "classic", type and name from the
      info fields) when only the info fields are there; ARM otherwise. */
  lemma ClassifySpec(rec: RawUsage)
    ensures Classify(rec).None? <==> rec.instanceUri.None? && rec.infoFields == map[]
    ensures rec.instanceUri.None? && rec.infoFields != map[] ==>
      Classify(rec) == Some(Resource(Some("classic"), Lookup(rec.infoFields, "meteredService"),
                                     Lookup(rec.infoFields, "project")))
    ensures rec.instanceUri.Some? ==> Classify(rec) == Some(ParseArmUri(rec.instanceUri.value))
  {
    if rec.infoFields != map[] {
      var k :| k in rec.infoFields;
    }
  }

  /** Every record of a page is either written once or counted invalid; every
      write is stamped with the subscription and the unit's bounds, and every
      valid record has its write. */
  lemma {:induction false} PageWritesSpec(sub: string, unit: TimeRange, recs: seq<RawUsage>)
    ensures |PageWrites(sub, unit, recs)| + InvalidCount(recs) == |recs|
    ensures forall w :: w in PageWrites(sub, unit, recs) ==>
      w.0.subscriptionId == sub && w.1.reportedStartTime == unit.start && w.1.reportedEndTime == unit.end
    ensures forall i :: 0 <= i < |recs| && Classify(recs[i]).Some? ==>
      (KeyOf(sub, recs[i], Classify(recs[i]).value), UsageValue(recs[i].quantity, unit.start, unit.end))
        in PageWrites(sub, unit, recs)
  {
    if |recs| > 0 {
      PageWritesSpec(sub, unit, recs[1..]);
      forall i | 0 < i < |recs| && Classify(recs[i]).Some?
        ensures (KeyOf(sub, recs[i], Classify(recs[i]).value), UsageValue(recs[i].quantity, unit.start, unit.end))
          in PageWrites(sub, unit, recs)
      {
        assert recs[1..][i - 1] == recs[i];
      }
    }
  }

  /** The "invalid" example: a record with no instance data and an empty info
      object is dropped and counted. */
  lemma InvalidRecordDropped(sub: string, unit: TimeRange, rec: RawUsage)
    requires rec.instanceUri.None? && rec.infoFields == map[]
    ensures PageWrites(sub, unit, [rec]) == []
    ensures InvalidCount([rec]) == 1
  {
  }

  /** The upserts of a page are issued in record order: those of an earlier
      run of records all come before those of a later run. */
  lemma {:induction false} PageWritesAppend(sub: string, unit: TimeRange, a: seq<RawUsage>, b: seq<RawUsage>)
    ensures PageWrites(sub, unit, a + b) == PageWrites(sub, unit, a) + PageWrites(sub, unit, b)
    decreases |a|
  {
    if |a| > 0 {
      assert (a + b)[0] == a[0];
      assert (a + b)[1..] == a[1..] + b;
      PageWritesAppend(sub, unit, a[1..], b);
    } else {
      assert a + b == b;
    }
  }

  /** One record gives one upsert when it is valid, and none otherwise. */
  lemma PageWritesOne(sub: string, unit: TimeRange, rec: RawUsage)
    ensures Classify(rec).None? ==> PageWrites(sub, unit, [rec]) == []
    ensures Classify(rec).Some? ==>
      PageWrites(sub, unit, [rec])
        == [(KeyOf(sub, rec, Classify(rec).value), UsageValue(rec.quantity, unit.start, unit.end))]
  {
    assert [rec][1..] == [];
  }

  /** Re-issuing a page's upserts leaves the store as it was after the first
      time: same keys, same record count, same values. */
  lemma PageIdempotent(store: UsageStore, sub: string, unit: TimeRange, recs: seq<RawUsage>)
    ensures var once := UpsertAll(store, PageWrites(sub, unit, recs));
      UpsertAll(once, PageWrites(sub, unit, recs)) == once
  {
    UpsertAllIdempotent(store, PageWrites(sub, unit, recs));
  }
}
