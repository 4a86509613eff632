# Catch-up pipeline model

A Dafny model of the catch-up job in `app_api/jobs/catchup.js`. The job
backfills usage and cost history for one subscription. It has six stages, run
in series:

1. read the usage windows already stored;
2. find the days missing since 2015-03-04;
3. fetch each missing day from the usage API, page by page, and upsert the
   records;
4. read the cost windows already stored;
5. find the days missing;
6. for each missing day, sum quantity times meter rate per resource and upsert
   one cost row per resource.

The first stage that reports an error ends the job with that error.

Modules, leaf first:

| file | module | what it holds |
|---|---|---|
| `basics.dfy` | `Basics` | `Option`, `Result`, and the `Outcome` of a step (`Done`, `Failed(error)`, `Stalled`) |
| `time_ranges.dfy` | `TimeRanges` | instants as integer seconds, half-open windows, `DAY`, the default start, start of day |
| `interval_set.dfy` | `IntervalSet` | gap finding and one-day expansion (`findMissingTimes` / `findMissingCosts`) |
| `reorder.dfy` | `Reorder` | the in-place "reverse" of the cost units, as written and as intended |
| `resource_uri.dfy` | `ResourceUri` | `split("/")` and the keyword scan over an ARM resource URI |
| `stores.dfy` | `Stores` | upsert on a natural key, over a map |
| `usage.dfy` | `Usage` | usage records, their classification, and the upserts of one page |
| `pagination.dfy` | `Pagination` | the page loop of one usage unit (`getDailyUsage`) |
| `usage_stage.dfy` | `UsageStage` | the units fetched in series (`fetchMissingUsage`) |
| `costs.dfy` | `Costs` | the join, group and sum of one day window, and its upserts |
| `cost_stage.dfy` | `CostStage` | the reorder, the per-unit day cursor and the series (`calcMissingCosts`, `getDailyCosts`) |
| `catchup.dfy` | `CatchUp` | the six stages in order (`catchUp`) |

Everything outside the program becomes a parameter:

- the two readers of stored windows are `Result<seq<TimeRange>>` inputs;
- the usage API is a function from a request, and the number of requests of
  the same unit sent before it, to a response, so a resent request may be
  answered differently;
- `decodeURIComponent` is an opaque function;
- the clock is two integers: the reading of `findMissingTimes` and that of
  `findMissingCosts` (`CatchUp.Clock`);
- the outcome of each cost aggregation cursor is a function of the window start.

The two stores are maps from natural key to value. Upserts are taken to complete in
the order they are issued.

Three facts shape the cost stage:

- The units are objects. `reversedMissingCosts` is the same array as
  `missingCosts`, so the reorder loop copies references within one array.
- `getDailyCosts` binds its day cursor to the unit's own start object and
  advances that object in place. A unit object visited a second time therefore
  starts from where its first visit left it. The model keeps a table of each
  object's current start.
- Which windows are visited depends only on the units and on which cursors
  fail. Each window reads only the usage store, which this stage does not
  change. So `CostStage.CostSeries` computes the course of the stage, and
  `CostStage.CostAfter` folds the one-day upserts of the completed windows over
  the cost store.

Facts about the code that its names and comments do not suggest:

- The array is named `reversedMissingCosts` (catchup.js:357), but it is
  `missingCosts` itself. The loop visits the newer half of the units newest
  first, then revisits those unit objects from where their first visit left
  them. See Findings.
- After a body that fails to parse, the helper calls `cbj()` with the token
  unchanged, under the comment `// retry` (catchup.js:166). On a first page the
  token is empty, so the loop test ends the unit normally with nothing stored
  (`Pagination.UnparsableFirstPage`). On a later page the same token is sent
  again (`Pagination.UnparsableLaterPageRepeats`).
- A gap is expanded into whole days from its start. The units cover the gap
  exactly only when it is a whole number of days long; otherwise the last unit
  overshoots the gap's end (`IntervalSet.DayUnitsShape`).
- Both gap finders end at the start of the current UTC day (catchup.js:76,
  317), so the current day is never a usage or cost unit
  (`IntervalSet.EmptyStoreUnits`). The cost stage as written can still compute
  that day's window (`CatchUp.TwoMissingCostDays`).
- The cost aggregation matches on the usage start time alone (catchup.js:389):
  usage of every subscription that starts in the window is summed
  (`Costs.SevenAndAHalfExample`).

## Model

| member | source | states |
|---|---|---|
| TimeRanges.StartOfDay | app_api/jobs/catchup.js:76 | the start of today is a multiple of a day, at or before the instant and less than a day before it |
| IntervalSet.Holes | app_api/jobs/catchup.js:92-96 | the inner gaps: the span between each consecutive pair whose earlier end is strictly before its later start, in order; characterised by `IntervalSet.HolesMembership` |
| IntervalSet.FindGaps | app_api/jobs/catchup.js:89-99 | every emitted gap is non-empty |
| IntervalSet.HolesMembership | app_api/jobs/catchup.js:92-96 | a window is a hole iff some consecutive pair has its earlier end strictly before its later start, and the hole spans exactly between them |
| IntervalSet.HolesChain | app_api/jobs/catchup.js:92-96 | on non-overlapping input the holes are ascending, disjoint, and lie between the first window's end and the last window's start |
| IntervalSet.GapMembership | app_api/jobs/catchup.js:89-99 | a window is emitted iff it is the leading gap (default start strictly before the first start), a hole, or the trailing gap (last end strictly before today) |
| IntervalSet.GapOrder | app_api/jobs/catchup.js:89-99 | the leading gap comes first and the trailing gap last |
| IntervalSet.GapsCoverUncovered | app_api/jobs/catchup.js:89-99 | every instant of [default start, today) that no stored window covers lies in a gap, for any input order |
| IntervalSet.GapsAscending | app_api/jobs/catchup.js:89-99 | for non-overlapping sorted input the gaps are ascending and pairwise disjoint |
| IntervalSet.GapsDisjointFromExisting | app_api/jobs/catchup.js:89-99 | no instant lies in both a gap and a stored window |
| IntervalSet.GapsPartitionWindow | app_api/jobs/catchup.js:89-99 | gaps and stored windows together cover exactly [default start, today), and never the same instant |
| IntervalSet.GapsWholeDays | app_api/jobs/catchup.js:89-99 | when every boundary is a whole number of days after the default start, so is the length of every gap |
| IntervalSet.DayUnits | app_api/jobs/catchup.js:103-107 | the test-first `for` loop emits ceil((e-s)/DAY) units, the i-th being [s+i·DAY, s+(i+1)·DAY), each starting before e |
| IntervalSet.DayUnitsCover | app_api/jobs/catchup.js:103-107 | every instant of the gap lies in some unit |
| IntervalSet.DayUnitsShape | app_api/jobs/catchup.js:103-107 | the units are consecutive days; the last ends less than a day after the gap, and exactly at its end iff the gap is a whole number of days |
| IntervalSet.DayUnitsExact | app_api/jobs/catchup.js:103-107 | for a whole number of days the units tile the gap exactly |
| IntervalSet.ExpandAll | app_api/jobs/catchup.js:101-108 | every gap, in order, replaced by its one-day units; its properties are the `ExpandAll…` lemmas below |
| IntervalSet.ExpandAllCovers | app_api/jobs/catchup.js:101-108 | the units cover every instant of every gap |
| IntervalSet.ExpandAllWithin | app_api/jobs/catchup.js:101-108 | for whole-day gaps each unit lies inside one gap |
| IntervalSet.ExpandAllExact | app_api/jobs/catchup.js:101-108 | for whole-day gaps the units cover exactly what the gaps cover |
| IntervalSet.ExpandAllChain | app_api/jobs/catchup.js:101-108 | ascending disjoint whole-day gaps expand to ascending disjoint units |
| IntervalSet.ExpandAllOneDay | app_api/jobs/catchup.js:101-108 | every unit is exactly one day long |
| IntervalSet.MissingUnits | app_api/jobs/catchup.js:78-109 | the units of one gap stage: with nothing stored the days of [default start, today), otherwise the expanded gaps; its properties are the `MissingUnits…` lemmas below |
| IntervalSet.EmptyStoreUnits | app_api/jobs/catchup.js:78-87 | with nothing stored the units are the days of [default start, today), the same as expanding that one gap, and none starts at or after today |
| IntervalSet.FullCoverageNoUnits | app_api/jobs/catchup.js:89-109 | a store already covering [default start, today) yields no units |
| IntervalSet.TwoDaysMissingScenario | app_api/jobs/catchup.js:89-109 | two days stored then two missing: exactly the two missing days become units |
| IntervalSet.MissingUnitsCover | app_api/jobs/catchup.js:78-109 | every instant of the window not stored lies in some unit |
| IntervalSet.MissingUnitsChain | app_api/jobs/catchup.js:78-109 | for non-overlapping day-aligned stored windows the units are ascending and disjoint, and none meets a stored window |
| IntervalSet.MissingUnitsOneDay | app_api/jobs/catchup.js:78-109 | every unit of either stage is exactly one day long |
| IntervalSet.ExpandAllAligned | app_api/jobs/catchup.js:101-108 | gaps that start a whole number of days after the default start expand into units whose both ends are |
| IntervalSet.MissingUnitsAligned | app_api/jobs/catchup.js:78-109 | when every stored boundary is a whole number of days after the default start, so is every unit boundary |
| Reorder.AliasedReverse | app_api/jobs/catchup.js:357-361 | closed form of the aliased loop: slot i holds element n-1-i in the first half and keeps element i in the second; tied to the loop by `Reorder.ReorderInPlaceIsAliasedReverse` |
| Reorder.ReorderInPlace | app_api/jobs/catchup.js:356-361 | the aliased loop on one array leaves the mirror element in the first half and the original element in the second half |
| Reorder.ReorderInPlaceIsAliasedReverse | app_api/jobs/catchup.js:357-361 | the loop's result is the closed form `AliasedReverse` |
| Reorder.AliasedPalindrome | app_api/jobs/catchup.js:357-361 | the reordered list reads the same forwards and backwards |
| Reorder.AliasedFirstIsNewest | app_api/jobs/catchup.js:357-361 | the first unit processed is the newest |
| Reorder.AliasedKeepsNewerHalf | app_api/jobs/catchup.js:357-361 | an element survives iff it sits at an index k with 2k ≥ n-1 |
| Reorder.AliasedDropsOldestHalf | app_api/jobs/catchup.js:357-361 | with distinct units, none of the oldest floor(n/2) survives |
| Reorder.AliasedIsReverseIff | app_api/jobs/catchup.js:357-361 | the loop agrees with a true reversal iff the input is a palindrome |
| Reorder.AliasedCounterexample | app_api/jobs/catchup.js:357-361 | [1, 2] becomes [2, 2], where a reversal gives [2, 1] |
| Reorder.Reverse | app_api/jobs/catchup.js:356-361 | the intended order: position i holds element n-1-i |
| Reorder.ReverseIsPermutation | app_api/jobs/catchup.js:356-361 | the intended order keeps every unit exactly once |
| Reorder.ReverseInvolution | app_api/jobs/catchup.js:356-361 | reversing twice gives the original order |
| ResourceUri.Split | app_api/jobs/catchup.js:222 | `split` always yields at least one part |
| ResourceUri.SplitSpec | app_api/jobs/catchup.js:222 | no part holds the separator, and joining the parts gives the URI back |
| ResourceUri.SplitJoin | app_api/jobs/catchup.js:222 | splitting undoes joining separator-free parts |
| ResourceUri.Scan | app_api/jobs/catchup.js:224-229 | the keyword scan over the segments; `ResourceUri.ScanFindsLast` states what it finds |
| ResourceUri.LastKeyword | app_api/jobs/catchup.js:224-229 | reference search: the last index after a keyword segment, or none |
| ResourceUri.ScanFindsLast | app_api/jobs/catchup.js:224-229 | the scan's group and type come from the last `resourcegroups` and the last `providers`, or keep their initial values |
| ResourceUri.ParseArmUri | app_api/jobs/catchup.js:222-229 | group, type and name of an ARM resource URI; `ResourceUri.ParseArmUriSpec` states them |
| ResourceUri.ParseArmUriSpec | app_api/jobs/catchup.js:222-229 | the name is the final segment; the group is the segment after the last case-insensitive `resourcegroups`, and is undefined iff there is none; likewise the type, two segments after the last `providers` |
| ResourceUri.ExampleScan | app_api/jobs/catchup.js:224-229 | the scan of the worked example's segments finds rg1 and Microsoft.Compute/virtualMachines |
| ResourceUri.ParseJoined | app_api/jobs/catchup.js:222-229 | parsing a URI built from separator-free segments is scanning those segments |
| ResourceUri.VirtualMachineExample | app_api/jobs/catchup.js:220-229 | `/subscriptions/s/resourceGroups/rg1/providers/Microsoft.Compute/virtualMachines/vm1` names group rg1, type Microsoft.Compute/virtualMachines, name vm1 |
| Stores.Upsert | app_api/jobs/catchup.js:192-212 | the key holds the new value, the key set gains just that key, and every other key keeps its value |
| Stores.UpsertAll | app_api/jobs/catchup.js:231-251 | a series of upserts applied in issue order; its properties are the `UpsertAll…` lemmas below |
| Stores.UpsertAllIsOverlay | app_api/jobs/catchup.js:231-251 | a series of upserts overlays the map the series alone builds |
| Stores.UpsertAllIdempotent | app_api/jobs/catchup.js:231-251 | re-issuing the same upserts changes nothing |
| Stores.UpsertAllKeys | app_api/jobs/catchup.js:231-251 | the keys afterwards are the old keys plus the written ones: no record is duplicated or lost |
| Stores.UpsertAllUntouched | app_api/jobs/catchup.js:231-251 | a key no upsert names keeps its presence and value |
| Stores.UpsertAllLastWins | app_api/jobs/catchup.js:231-251 | the last upsert of a key decides its value |
| Usage.Classify | app_api/jobs/catchup.js:183-229 | a record's resource, or none when it is invalid; `Usage.ClassifySpec` states the three cases |
| Usage.ClassifySpec | app_api/jobs/catchup.js:183-229 | invalid iff no instance data and no info fields; classic (group "classic", type and name from the info fields) iff only info fields; ARM otherwise |
| Usage.PageWritesSpec | app_api/jobs/catchup.js:180-258 | every record is written once or counted invalid; every write carries the subscription and the unit's reported window; every valid record has its write |
| Usage.PageWrites | app_api/jobs/catchup.js:180-258 | the upserts of one page; `Usage.PageWritesSpec`, `Usage.PageWritesAppend` and `Usage.PageWritesOne` state them |
| Usage.PageWritesAppend | app_api/jobs/catchup.js:180-183 | the upserts are issued in record order: those of an earlier run of records precede those of a later one |
| Usage.PageWritesOne | app_api/jobs/catchup.js:183-256 | a valid record gives exactly one upsert, keyed by subscription, resource, usage window and meter, carrying its quantity and the unit's window; an invalid one gives none |
| Usage.InvalidRecordDropped | app_api/jobs/catchup.js:183-189 | a record with no instance data and an empty info object is dropped and counted |
| Usage.PageIdempotent | app_api/jobs/catchup.js:192-256 | re-issuing a page's upserts leaves the usage store unchanged |
| Pagination.LastIndexOf | app_api/jobs/catchup.js:171 | the index of the last `=`, or -1 when there is none |
| Pagination.NextToken | app_api/jobs/catchup.js:170-176 | the token a parsed page leaves; `Pagination.NextTokenSpec` and `Pagination.NoLinkEmptyToken` state it |
| Pagination.NextTokenSpec | app_api/jobs/catchup.js:170-173 | the token is the decoded text after the last `=` of the link, or the whole link when it has no `=` |
| Pagination.NoLinkEmptyToken | app_api/jobs/catchup.js:174-176 | a page without `nextLink` leaves the empty token |
| Pagination.Pages | app_api/jobs/catchup.js:264-268 | the first request uses the current token, and there are no more requests than the fuel |
| Pagination.FetchUnit | app_api/jobs/catchup.js:126-279 | one unit's page loop from the empty token; the `Pagination` lemmas below state its course |
| Pagination.RequestsCarryUnit | app_api/jobs/catchup.js:137-153 | every request carries the unit's bounds and never an empty token |
| Pagination.RequestsFollowTokens | app_api/jobs/catchup.js:153-176 | each later request carries the non-empty token the answer to the previous request left |
| Pagination.HowUnitsEnd | app_api/jobs/catchup.js:155-176 | a unit ends normally only after a response leaving the empty token, and fails only on a transport error, reporting it |
| Pagination.FirstRequestHasNoToken | app_api/jobs/catchup.js:133-153 | the first request is made without a token |
| Pagination.UnparsableFirstPage | app_api/jobs/catchup.js:162-168 | an unparsable first page ends the unit normally with nothing written |
| Pagination.UnparsableLaterPageRepeats | app_api/jobs/catchup.js:162-168 | after an unparsable later page the next request repeats it, token included, and that answer adds no upserts and no invalid count to the rest of the unit |
| Pagination.RetryAfterUnparsable | app_api/jobs/catchup.js:162-176 | a resend answered with a last page completes the unit normally with that page's upserts |
| Pagination.TransportErrorStops | app_api/jobs/catchup.js:155-160 | a transport error ends the unit with that error after that one request |
| Pagination.SinglePage | app_api/jobs/catchup.js:170-260 | a page without `nextLink` is the whole unit: its valid records written, its invalid ones counted |
| UsageStage.UsageSeries | app_api/jobs/catchup.js:114-124 | the units started never exceed the units, all are started when the stage ends normally, and at least one when it does not |
| UsageStage.SeriesIsPrefixOfUnits | app_api/jobs/catchup.js:114-124 | the stage's requests and writes are those of the units it started, concatenated in order |
| UsageStage.SeriesStopsAtFirstFailure | app_api/jobs/catchup.js:114-124 | a unit starts only after every earlier one ended normally; the stage ends normally iff every unit does, and otherwise with the last started unit's outcome |
| UsageStage.UnitRequests | app_api/jobs/catchup.js:137-153 | every request of a unit is for that unit |
| UsageStage.SeriesRequests | app_api/jobs/catchup.js:114-124 | every request of the stage is for a unit it started |
| UsageStage.LaterUnitsNotRequested | app_api/jobs/catchup.js:114-124 | with ascending units, no request is made for a unit after the failing one |
| UsageStage.UsageStageIdempotent | app_api/jobs/catchup.js:114-124 | re-running the stage with the same answers leaves the usage store as it was |
| Costs.RateSum | app_api/jobs/catchup.js:392-400 | the summed rate of every card carrying the meter; `Costs.RateSumAppend` and `Costs.RateSumNoCard` state it |
| Costs.RateSumAppend | app_api/jobs/catchup.js:392-400 | every card matching the meter adds its rate: the rate sum over two card lists is the sum of the two |
| Costs.RateSumNoCard | app_api/jobs/catchup.js:392-395 | a meter no card carries has rate sum zero |
| Costs.AmountRemove | app_api/jobs/catchup.js:398-401 | the group sum does not depend on the order the records are taken in |
| Costs.DayTotals | app_api/jobs/catchup.js:387-402 | per resource group, the sum of quantity times rate over the usage starting in the window; `Costs.DayTotalsDomain` states its domain |
| Costs.DayTotalsDomain | app_api/jobs/catchup.js:387-402 | a group gets a total iff some stored usage of it starts in the window and has a rate card (inner join) |
| Costs.CostDay | app_api/jobs/catchup.js:418-439 | the cost store after one window's rows are upserted; `Costs.CostDaySpec` states it |
| Costs.CostDaySpec | app_api/jobs/catchup.js:418-439 | each group's row is upserted under the subscription, the group and the window, with the group's total; every other row keeps its value |
| Costs.CostDayIdempotent | app_api/jobs/catchup.js:418-439 | recomputing a day over unchanged usage changes nothing |
| Costs.SevenAndAHalfExample | app_api/jobs/catchup.js:387-411 | quantities 2 and 3 of one meter and resource at rate 1.5 give one total of 7.5, even across subscriptions |
| CostStage.DayLoop | app_api/jobs/catchup.js:383-452 | the windows are consecutive days from the cursor; the cursor ends one day past the last; a normal end is at or past the unit end and, after more than one window, less than a day past it |
| CostStage.DayLoopStopsAtFirstError | app_api/jobs/catchup.js:413-417 | a unit fails with the error of the last window visited, and no earlier window's cursor failed |
| CostStage.CostSeries | app_api/jobs/catchup.js:362-386 | a non-empty series computes at least one window, and one that ends normally at least one per reference; a unit object's start only moves forward, and an object no reference names keeps its start |
| CostStage.SeriesStartsForward | app_api/jobs/catchup.js:373-386 | the day cursor only advances a unit object's start, and an object no reference names keeps its start |
| CostStage.SeriesStopsAtFirstError | app_api/jobs/catchup.js:362-370 | the series fails only with the cursor error of the last window visited; every earlier window had none |
| CostStage.CalcMissingCosts | app_api/jobs/catchup.js:356-371 | the stage as written: the aliased reorder of the unit objects, then the series; `CostStage.AsWrittenWindows` states its windows |
| CostStage.CalcMissingCostsNewestFirst | app_api/jobs/catchup.js:356-371 | the evidently intended stage, a true reversal then the series; `CostStage.NewestFirstWindows` states its windows |
| CostStage.CalcMissingCostsStopsAtFirstError | app_api/jobs/catchup.js:356-371 | the same, for the stage as written |
| CostStage.DayLoopSingle | app_api/jobs/catchup.js:448-452 | a cursor less than a day before the end computes exactly one window |
| CostStage.WindowsByVisits | app_api/jobs/catchup.js:373-386 | each window starts at its object's initial start plus one day per earlier visit of that object |
| CostStage.AliasedVisits | app_api/jobs/catchup.js:357-361 | position i refers to object n-1-i on its first visit in the first half, and to object i on its second visit in the second half |
| CostStage.AsWrittenWindows | app_api/jobs/catchup.js:356-386 | as written, position i computes the day of unit n-1-i in the first half, and the day after unit i in the second half |
| CostStage.AsWrittenSkipsOldestHalf | app_api/jobs/catchup.js:356-386 | on ascending one-day units, the day of none of the oldest floor(n/2) units is computed |
| CostStage.NewestFirstWindows | app_api/jobs/catchup.js:356-371 | the intended order computes every unit's own day exactly once, newest first |
| CostStage.TwoUnitCounterexample | app_api/jobs/catchup.js:356-386 | two one-day units d and d+1: as written the windows are d+1 and d+2; newest first they are d+1 and d |
| CostStage.CostAfter | app_api/jobs/catchup.js:418-439 | the one-day upserts of the completed windows folded over the cost store, in order |
| CostStage.CostAfterOverlay | app_api/jobs/catchup.js:418-439 | the stage's effect on the cost store is an overlay that does not depend on the store |
| CostStage.CostAfterIdempotent | app_api/jobs/catchup.js:418-439 | upserting the same days again over unchanged usage changes nothing |
| CostStage.CostAfterUntouched | app_api/jobs/catchup.js:418-430 | a row outside the windows or of another subscription keeps its value or stays absent |
| CatchUp.Job | app_api/jobs/catchup.js:15-33 | the stages that ran are a prefix of the fixed order; all six ran when the job ended normally; the cost store is untouched unless the last stage ran |
| CatchUp.StageUnitsAtMidnight | app_api/jobs/catchup.js:75-109 | with every stored boundary at a UTC midnight, every unit either gap stage finds starts and ends at a UTC midnight |
| CatchUp.ExistingTimesFailure | app_api/jobs/catchup.js:57-60 | a failing usage-window read ends the job with its error before anything is fetched |
| CatchUp.UsageFailureStopsJob | app_api/jobs/catchup.js:115-118 | a failing usage unit ends the job with its outcome after three stages; usage written before it stays, and the cost store is untouched |
| CatchUp.ExistingCostsFailure | app_api/jobs/catchup.js:301-304 | a failing cost-window read ends the job with its error after four stages, with the cost store untouched |
| CatchUp.JobDoneIff | app_api/jobs/catchup.js:15-33 | the job ends normally iff both reads succeed, every usage unit ends normally and the cost stage does |
| CatchUp.CostFailureIsCursorError | app_api/jobs/catchup.js:413-417 | when the cost stage fails, the job fails with the aggregation cursor's error of the last window visited, and no earlier window's cursor failed |
| CatchUp.RerunChangesNothing | app_api/jobs/catchup.js:15-33 | re-running the job over the stores it produced, with the same answers, gives the same run and the same stores |
| CatchUp.CostDaysAsWritten | app_api/jobs/catchup.js:356-386 | with no cursor errors the job ends normally, computing the as-written day at each position |
| CatchUp.TwoMissingDays | app_api/jobs/catchup.js:330-350 | a cost store ending two days before today leaves exactly those two days as units |
| CatchUp.TwoMissingCostDays | app_api/jobs/catchup.js:356-386 | in that case the job computes yesterday and today, and never the day before yesterday |

## Left out

- Logging (winston), the request options and headers, and date formatting are not modelled. Instants are integer seconds, and the ISO-8601 round trip through `format` and `new Date` is the identity on them.
- The Mongo aggregation cursors of `fetchExistingTimes` and `fetchExistingCosts` are not modelled. Their results are `Result` inputs and are not derived from the modelled stores.
- The module-level arrays `existingTimes`, `missingTimes`, `existingCosts` and `missingCosts` are never cleared in the source. A second `catchUp` in the same process would append to them. The model starts every job with them empty, and `CatchUp.RerunChangesNothing` relies on that.
- `JSON.parse` of a page body and of `instanceData` is not modelled. A page is `Page`, `Unparsable` or a transport error. An instance URI is given already extracted. A malformed `instanceData` throws in the source, and that is left out.
- `decodeURIComponent` is an opaque function parameter.
- Pagination.Pages: the number of requests per unit is bounded by a fuel parameter, and running out of it is `Stalled`, which the source does not have. The source loops for as long as the service keeps returning a link.
- ResourceUri.ToLower: lower-cases ASCII letters only. The keywords compared are ASCII, so only segments with other upper-case letters could differ.
- Usage.Classify: `infoData.constructor === Object` is taken to hold; info fields are a string map.
- A failed usage upsert calls `cbj(err)` after the page's `cbj()` has already run, so the callback fires twice. That race is not modelled, and usage upserts are taken to succeed.
- Costs.CostDay: cost upserts are taken to succeed. A failing cost upsert calls `cbj(error)` with the cursor's `error`, which is empty there (catchup.js:434-437), and the cursor's end then calls `cbj()` again (catchup.js:441-443). The day loop's callback thus fires twice, which starts an extra window or throws "Callback was already called"; neither is modelled.
- Pagination.Pages: a parsed body without `value` makes `useSegmentArr.length` throw (catchup.js:178-180). A `Page` always carries its records, so that throw is not modelled.
- CatchUp.Job: the two readings of the clock (catchup.js:76, 317) are independent parameters. The model does not require the second to be later, nor on the same day.
- IntervalSet.DayUnits: every day step is `DAY` seconds. `defaultStartTime` is a local-mode moment (catchup.js:75, 316), so the steps taken from it (catchup.js:79, 103, 320, 345) last 23 or 25 hours across a daylight-saving change of the process's time zone. The model holds as written when the process runs in UTC.
- Quantities and rates are `real`, so floating-point rounding in `$multiply` and `$sum` is not modelled.
- The `$sort` by total price only orders the upserts of distinct rows. It does not change the resulting cost store and is not modelled.
- CostStage.DayLoop: a failing aggregation cursor fails before any row of its window is upserted. In the source, rows delivered before the error may already have been upserted.
- `moment` mutation is not modelled, except for the cost unit's start object, which the day cursor advances. The other mutations, of `defaultStartTime` and of the gap start objects during expansion, do not change the units produced.
- Rate-card tiers, the location API and the billing query endpoint are outside the catch-up job.

## Findings

| source | as written | input that shows it | evidently intended | confidence | as-written member | corrected member |
|---|---|---|---|---|---|---|
| app_api/jobs/catchup.js:357-361 | `reversedMissingCosts` is the same array as `missingCosts`, so slot i is overwritten with slot n-1-i of the partly rewritten array | `missingCosts = [a, b]` becomes `[b, b]` | a true reversal, `[b, a]`, processing every unit once | not executed | Reorder.AliasedCounterexample | Reorder.ReverseIsPermutation |
| app_api/jobs/catchup.js:374-385 | the day cursor is the unit's own start object, advanced in place; a duplicated reference revisits a unit from its end | two missing cost days d and d+1 compute the windows d+1 and d+2; day d is never computed, and d+2 is today when d+1 is yesterday | each missing day computed once, newest first: d+1, then d | not executed | CostStage.TwoUnitCounterexample | CostStage.NewestFirstWindows |
