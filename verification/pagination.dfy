/** The page loop of one usage backfill unit (`getDailyUsage`,
    app_api/jobs/catchup.js:126-279). The HTTP call is a function from a
    request, and how many requests of the unit came before it, to a response;
    `decodeURIComponent` is an opaque function. */
module Pagination {
  import opened Basics
  import opened TimeRanges
  import opened Usage

  /** The query of one page request; the token is sent only when non-empty. */
  datatype Request = Request(reportedStartTime: int, reportedEndTime: int, continuationToken: Option<string>)

  /** What one request yields: a transport error, a body that is not JSON, or a
      parsed page with its optional `nextLink`. */
  datatype Response =
    | TransportError(error: string)
    | Unparsable
    | Page(nextLink: Option<string>, value: seq<RawUsage>)

  /** The usage service: its answer to a request, given the number of requests
      of the same unit sent before it. Two sends of one request may be answered
      differently. */
  type Service = (Request, nat) -> Response

  /** Everything one unit did: the requests in order, the upserts in order, the
      records skipped as invalid, and how it ended. */
  datatype UnitRun = UnitRun(
    requests: seq<Request>,
    writes: seq<(UsageKey, UsageValue)>,
    invalid: nat,
    outcome: Outcome)

  /** Index of the last `c` in `s`, or -1 (`lastIndexOf`). */
  function LastIndexOf(s: string, c: char): (r: int)
    ensures -1 <= r < |s|
    ensures r >= 0 ==> s[r] == c
    ensures forall j :: r < j < |s| ==> s[j] != c
    decreases |s|
  {
    if |s| == 0 then -1
    else if s[|s| - 1] == c then |s| - 1
    else LastIndexOf(s[..|s| - 1], c)
  }

  /** The continuation token after a parsed page (catchup.js:170-176): a missing
      or empty `nextLink` gives the empty token, otherwise the decoded text
      after the last `=`. */
  function NextToken(nextLink: Option<string>, decode: string -> string): string
  {
    if nextLink.None? || nextLink.value == "" then ""
    else decode(nextLink.value[LastIndexOf(nextLink.value, '=') + 1..])
  }

  /** The token after a response: a body that fails to parse leaves it as it was. */
  function TokenAfter(resp: Response, token: string, decode: string -> string): string
  {
    match resp
    case Page(link, _) => NextToken(link, decode)
    case _ => token
  }

  function RequestFor(unit: TimeRange, token: string): Request {
    Request(unit.start, unit.end, if token != "" then Some(token) else None)
  }

  function TokenOf(req: Request): string {
    if req.continuationToken.Some? then req.continuationToken.value else ""
  }

  /** `async.doWhilst` over the page helper, from the current token on: ask for
      a page, then repeat while the token is non-empty. `sent` counts the
      requests of the unit made before this one. `fuel` bounds the number of
      requests; running out of it is `Stalled`. */
  function Pages(api: Service, decode: string -> string, sub: string, unit: TimeRange,
                 token: string, sent: nat, fuel: nat): (run: UnitRun)
    ensures fuel > 0 ==> |run.requests| > 0 && run.requests[0] == RequestFor(unit, token)
    ensures |run.requests| <= fuel
    decreases fuel
  {
    if fuel == 0 then UnitRun([], [], 0, Stalled)
    else
      var req := RequestFor(unit, token);
      var resp := api(req, sent);
      if resp.TransportError? then UnitRun([req], [], 0, Failed(resp.error))
      else
        var writes := if resp.Page? then PageWrites(sub, unit, resp.value) else [];
        var invalid := if resp.Page? then InvalidCount(resp.value) else 0;
        var next := TokenAfter(resp, token, decode);
        if next != "" then
          var rest := Pages(api, decode, sub, unit, next, sent + 1, fuel - 1);
          UnitRun([req] + rest.requests, writes + rest.writes, invalid + rest.invalid, rest.outcome)
        else UnitRun([req], writes, invalid, Done)
  }

  /** One usage unit from its first page. */
  function FetchUnit(api: Service, decode: string -> string, sub: string, unit: TimeRange,
                     fuel: nat): UnitRun
  {
    Pages(api, decode, sub, unit, "", 0, fuel)
  }

  // ---------------------------------------------------------------------------
  // Token extraction

  /** The token is the decoded text from just after the last `=` (or from the
      start, when there is no `=`) to the end of the link. */
  lemma NextTokenSpec(link: string, decode: string -> string)
    requires link != ""
    ensures exists k ::
      && 0 <= k <= |link|
      && (k == 0 || link[k - 1] == '=')
      && (forall j :: k <= j < |link| ==> link[j] != '=')
      && NextToken(Some(link), decode) == decode(link[k..])
  {
    var k := LastIndexOf(link, '=') + 1;
    assert NextToken(Some(link), decode) == decode(link[k..]);
  }

  lemma NoLinkEmptyToken(decode: string -> string)
    ensures NextToken(None, decode) == ""
  {
  }

  // ---------------------------------------------------------------------------
  // The loop

  /** Request i carries the unit's bounds and never an empty token. */
  predicate CarriesUnit(reqs: seq<Request>, i: int, unit: TimeRange)
    requires 0 <= i < |reqs|
  {
    && reqs[i].reportedStartTime == unit.start
    && reqs[i].reportedEndTime == unit.end
    && reqs[i].continuationToken != Some("")
  }

  /** Request i carries the non-empty token the answer to request i-1 left;
      `sent` requests came before request 0. */
  predicate FollowsToken(api: Service, decode: string -> string, unit: TimeRange,
                         reqs: seq<Request>, sent: nat, i: int)
    requires 0 < i < |reqs|
  {
    var left := TokenAfter(api(reqs[i - 1], sent + i - 1), TokenOf(reqs[i - 1]), decode);
    left != "" && reqs[i] == RequestFor(unit, left)
  }

  /** A request for the unit in front of requests that carry it. */
  lemma CarryCons(req: Request, rest: seq<Request>, unit: TimeRange)
    requires req.reportedStartTime == unit.start && req.reportedEndTime == unit.end
    requires req.continuationToken != Some("")
    requires forall i :: 0 <= i < |rest| ==> CarriesUnit(rest, i, unit)
    ensures forall i :: 0 <= i < |[req] + rest| ==> CarriesUnit([req] + rest, i, unit)
  {
    var reqs := [req] + rest;
    forall i | 0 <= i < |reqs|
      ensures CarriesUnit(reqs, i, unit)
    {
      if i > 0 {
        assert reqs[i] == rest[i - 1];
        assert CarriesUnit(rest, i - 1, unit);
      }
    }
  }

  /** Every request carries the unit's bounds and never an empty token. */
  lemma {:induction false} RequestsCarryUnit(api: Service, decode: string -> string, sub: string,
                                             unit: TimeRange, token: string, sent: nat, fuel: nat)
    ensures forall i :: 0 <= i < |Pages(api, decode, sub, unit, token, sent, fuel).requests| ==>
      CarriesUnit(Pages(api, decode, sub, unit, token, sent, fuel).requests, i, unit)
    decreases fuel
  {
    var reqs := Pages(api, decode, sub, unit, token, sent, fuel).requests;
    if fuel > 0 {
      var req := RequestFor(unit, token);
      var resp := api(req, sent);
      var next := TokenAfter(resp, token, decode);
      if !resp.TransportError? && next != "" {
        RequestsCarryUnit(api, decode, sub, unit, next, sent + 1, fuel - 1);
        var rest := Pages(api, decode, sub, unit, next, sent + 1, fuel - 1).requests;
        assert reqs == [req] + rest;
        CarryCons(req, rest, unit);
      } else {
        assert reqs == [req];
        assert CarriesUnit(reqs, 0, unit);
      }
    }
  }

  /** A request whose answer leaves the token the next request carries, in
      front of requests that follow their tokens. */
  lemma FollowCons(api: Service, decode: string -> string, unit: TimeRange, reqs: seq<Request>, sent: nat,
                   rest: seq<Request>, later: nat)
    requires |reqs| > 0 && rest == reqs[1..] && later == sent + 1
    requires |reqs| > 1 ==> FollowsToken(api, decode, unit, reqs, sent, 1)
    requires forall i :: 0 < i < |rest| ==> FollowsToken(api, decode, unit, rest, later, i)
    ensures forall i :: 0 < i < |reqs| ==> FollowsToken(api, decode, unit, reqs, sent, i)
  {
    forall i | 1 < i < |reqs|
      ensures FollowsToken(api, decode, unit, reqs, sent, i)
    {
      assert reqs[i - 1] == rest[i - 2] && reqs[i] == rest[i - 1];
      assert FollowsToken(api, decode, unit, rest, later, i - 1);
    }
  }

  /** Each request after the first carries the non-empty token that the
      previous answer left: the loop repeats exactly while the token is
      non-empty. */
  lemma {:induction false} RequestsFollowTokens(api: Service, decode: string -> string, sub: string,
                                                unit: TimeRange, token: string, sent: nat, fuel: nat)
    ensures forall i :: 0 < i < |Pages(api, decode, sub, unit, token, sent, fuel).requests| ==>
      FollowsToken(api, decode, unit, Pages(api, decode, sub, unit, token, sent, fuel).requests, sent, i)
    decreases fuel
  {
    var reqs := Pages(api, decode, sub, unit, token, sent, fuel).requests;
    if fuel > 0 {
      var req := RequestFor(unit, token);
      var resp := api(req, sent);
      assert TokenOf(req) == token;
      var next := TokenAfter(resp, token, decode);
      if !resp.TransportError? && next != "" {
        RequestsFollowTokens(api, decode, sub, unit, next, sent + 1, fuel - 1);
        var rest := Pages(api, decode, sub, unit, next, sent + 1, fuel - 1).requests;
        assert reqs == [req] + rest && reqs[1..] == rest;
        FollowCons(api, decode, unit, reqs, sent, rest, sent + 1);
      } else {
        assert reqs == [req];
      }
    }
  }

  /** The last answer of a run explains how it ended: a normal end follows an
      answer that leaves the empty token, an error a transport error. `sent`
      requests came before the run's first. */
  predicate EndExplained(api: Service, decode: string -> string, run: UnitRun, sent: nat) {
    var n := |run.requests|;
    && (run.outcome.Done? ==>
          && n > 0
          && !api(run.requests[n - 1], sent + n - 1).TransportError?
          && TokenAfter(api(run.requests[n - 1], sent + n - 1), TokenOf(run.requests[n - 1]), decode) == "")
    && (run.outcome.Failed? ==>
          && n > 0
          && api(run.requests[n - 1], sent + n - 1) == TransportError(run.outcome.error))
  }

  /** One more request in front keeps the explanation. */
  lemma EndExplainedCons(api: Service, decode: string -> string, req: Request, rest: UnitRun, run: UnitRun,
                         sent: nat)
    requires EndExplained(api, decode, rest, sent + 1)
    requires run.requests == [req] + rest.requests && run.outcome == rest.outcome
    ensures EndExplained(api, decode, run, sent)
  {
    if |rest.requests| > 0 {
      assert run.requests[|run.requests| - 1] == rest.requests[|rest.requests| - 1];
    }
  }

  /** A unit ends normally only on an answer that leaves the empty token, and
      with an error only on a transport error, whose error it reports. */
  lemma {:induction false} HowUnitsEnd(api: Service, decode: string -> string, sub: string,
                                       unit: TimeRange, token: string, sent: nat, fuel: nat)
    ensures EndExplained(api, decode, Pages(api, decode, sub, unit, token, sent, fuel), sent)
    decreases fuel
  {
    var run := Pages(api, decode, sub, unit, token, sent, fuel);
    if fuel > 0 {
      var req := RequestFor(unit, token);
      var resp := api(req, sent);
      assert TokenOf(req) == token;
      var next := TokenAfter(resp, token, decode);
      if !resp.TransportError? && next != "" {
        HowUnitsEnd(api, decode, sub, unit, next, sent + 1, fuel - 1);
        var rest := Pages(api, decode, sub, unit, next, sent + 1, fuel - 1);
        assert run.requests == [req] + rest.requests && run.outcome == rest.outcome;
        EndExplainedCons(api, decode, req, rest, run, sent);
      } else if resp.TransportError? {
        assert run.requests == [req] && run.outcome == Failed(resp.error);
      } else {
        assert run.requests == [req] && run.outcome == Done;
      }
    }
  }

  /** The first request is always made, and without a token. */
  lemma FirstRequestHasNoToken(api: Service, decode: string -> string, sub: string,
                               unit: TimeRange, fuel: nat)
    requires fuel > 0
    ensures var run := FetchUnit(api, decode, sub, unit, fuel);
      |run.requests| >= 1 && run.requests[0] == Request(unit.start, unit.end, None)
  {
  }

  /** A first page that fails to parse ends the unit at once, with no error and
      nothing stored: the token it leaves is the empty one it started with. */
  lemma UnparsableFirstPage(api: Service, decode: string -> string, sub: string,
                            unit: TimeRange, fuel: nat)
    requires fuel > 0
    requires api(Request(unit.start, unit.end, None), 0) == Unparsable
    ensures FetchUnit(api, decode, sub, unit, fuel)
         == UnitRun([Request(unit.start, unit.end, None)], [], 0, Done)
  {
  }

  /** A later page that fails to parse is asked for again with the same token:
      the next request repeats this one, and this answer adds no upserts and no
      invalid records to what the rest of the unit does. */
  lemma UnparsableLaterPageRepeats(api: Service, decode: string -> string, sub: string,
                                   unit: TimeRange, token: string, sent: nat, fuel: nat)
    requires token != "" && fuel >= 2
    requires api(RequestFor(unit, token), sent) == Unparsable
    ensures var run := Pages(api, decode, sub, unit, token, sent, fuel);
      var rest := Pages(api, decode, sub, unit, token, sent + 1, fuel - 1);
      && |run.requests| >= 2
      && run.requests[1] == run.requests[0] == RequestFor(unit, token)
      && run == UnitRun([RequestFor(unit, token)] + rest.requests, rest.writes, rest.invalid, rest.outcome)
  {
    var rest := Pages(api, decode, sub, unit, token, sent + 1, fuel - 1);
    assert [] + rest.writes == rest.writes;
  }

  /** A retry that gets a parsed last page completes the unit: both requests
      carry the same token, and only the page's records are written. */
  lemma RetryAfterUnparsable(api: Service, decode: string -> string, sub: string,
                             unit: TimeRange, token: string, sent: nat, fuel: nat, recs: seq<RawUsage>)
    requires token != "" && fuel >= 2
    requires api(RequestFor(unit, token), sent) == Unparsable
    requires api(RequestFor(unit, token), sent + 1) == Page(None, recs)
    ensures Pages(api, decode, sub, unit, token, sent, fuel)
         == UnitRun([RequestFor(unit, token), RequestFor(unit, token)], PageWrites(sub, unit, recs),
                    InvalidCount(recs), Done)
  {
    assert [] + PageWrites(sub, unit, recs) == PageWrites(sub, unit, recs);
  }

  /** A transport error ends the unit with that error; upserts of earlier pages
      stay issued. */
  lemma TransportErrorStops(api: Service, decode: string -> string, sub: string,
                            unit: TimeRange, token: string, sent: nat, fuel: nat, e: string)
    requires fuel > 0
    requires api(RequestFor(unit, token), sent) == TransportError(e)
    ensures Pages(api, decode, sub, unit, token, sent, fuel) == UnitRun([RequestFor(unit, token)], [], 0, Failed(e))
  {
  }

  /** A single page with no `nextLink` is the whole unit: its valid records are
      written and its invalid ones counted. */
  lemma SinglePage(api: Service, decode: string -> string, sub: string,
                   unit: TimeRange, fuel: nat, recs: seq<RawUsage>)
    requires fuel > 0
    requires api(Request(unit.start, unit.end, None), 0) == Page(None, recs)
    ensures FetchUnit(api, decode, sub, unit, fuel)
         == UnitRun([Request(unit.start, unit.end, None)], PageWrites(sub, unit, recs), InvalidCount(recs), Done)
  {
  }
}
