# Stateful cores of the pension platform, modelled and proved in Dafny

A pension administration platform: gateways that limit and route requests, monitors
that watch a legacy payroll database, a tagger that recognises its tables, and the
arithmetic that pays benefits. Each of these has a small core with state of its own,
and each core promises something over all its runs: no client exceeds its rate, no
status change gets lost, no request runs under another request's tenant. Here those cores are
written as they are in the code (classes whose methods update fields, loops over
slices and maps, goroutines as interleaved steps, formulas as functions), and the
promises are proved of them, or the exact condition under which they hold.

`dafny verify dfyconfig.toml` checks everything.

| modules | what they model |
|---|---|
| `TokenBucket`, `RateLimit`, `Gateway` | the keyed token-bucket limiter, its eviction, and the two-layer middleware |
| `Cache`, `CacheInterleaving` | the TTL cache, first with atomic operations, then with `Get` split at its lock gap |
| `Latency`, `CounterInterleaving` | the latency ring and its 95th percentile; the counters under interleaving |
| `ServiceRegistry`, `HealthFanOut` | the parser of the service list; the concurrent health check |
| `RequestTx` | connection and transaction of a request, over all interleavings and failures |
| `Monitoring`, `Scheduler`, `Trends` | status changes sent run by run, and recomputed from the history |
| `Schema`, `Signals`, `Tagger`, `Resolver` | the in-place schema tagger and the index and column search it feeds |
| `Samples`, `Rounding`, `Baseline`, `Patterns` | population statistics and the detection of systematic variances |
| `Benefit`, `PayPeriods` | the pension formula; pay dates and running balances |
| `SalaryGap` | the month walk of the salary gap check |
| `Options`, `Sequences`, `IntSets`, `Text` | shared vocabulary |

How the proofs are laid out:

- A method that loops or updates state is proved equal to a specification
  function, or to a predicate that is shown to fix its result. The properties
  are lemmas about that specification, and other lemmas say in plain terms what the
  specification means: positions, sums, counts, literal constants.
- Concurrency is a step function over a state. A step that is not enabled changes
  nothing, so a statement about every sequence of steps is a statement about every
  schedule.
- Numbers the code holds as floats or decimals are exact reals; the explicit
  rounding steps (`round2`, HALF_UP) are modelled. Variance claims are stated in
  squared form.
- Lemmas that call themselves carry their own induction. Automatic induction is off for
  them, and where it would only cost time, as over the runs of a state machine.

What the code does not quite do is proved as a result of its own:

- The limiter's eviction is unobservable, and its windowed bound holds, exactly when
  a bucket refills before its entry goes stale (`RateLimit.EvictionUnobservableIffRefills`,
  `RateLimit.RateBoundedIffRefills`); otherwise the burst can be spent twice.
- A `Get` that saw an expired entry can delete the live one stored since
  (`CacheInterleaving.LateDeleteCanStrike`); `FinishDropsLiveIff` says exactly when,
  and `AgreesUnlessOvertaken` exactly how long cache and log then disagree.
- A snapshot of the request counters can report more errors than requests, if and only
  if more requests begin while it is taken than there were successes when it began
  (`CounterInterleaving.TornIffMoreThanSuccesses`).
- The overall health status is independent of the schedule, whatever the services
  answer, if and only if their names are distinct
  (`HealthFanOut.ScheduleFreeIffDistinct`). Once the answers are known, it depends on
  the schedule exactly when all services answer, some are degraded, and each degraded
  one shares its name with one that is not (`HealthFanOut.ScheduleFreeIffNoRace`).
- Batch and incremental change counts differ exactly when a check leaves a status
  that is literally "new" (`Trends.BatchEqualsIncrementalIff`). Replaying the changes
  sent gives the kept statuses after every run exactly when no run reports a check
  more than once so that it leaves its kept status and comes back to it
  (`Scheduler.ReplaysThroughoutIff`). The checks of the repository report "pass",
  "warn" and "fail" only, and each under a name of its own, so neither case occurs
  there.
- A handler whose client goes away may find its transaction over; what it can never
  find on its connection is another request's (`RequestTx.HandlerSeesOwnTenant`,
  `RequestTx.NeverAnothersTransaction`).
- A plan whose reduction table has a gap can pay less for retiring later: 2400 a month
  from 61 and 2100 from 62 (`Benefit.GapBreaksOrder`). `Benefit.NeverFallsIff` gives
  the exact condition on a plan, which the registered ones meet.
- Tagging in place agrees with the pure map if and only if no table's tags depend on
  whether the tables before it are tagged yet (`Tagger.InPlaceIsPureIff`). Signals that
  read no tags meet this on every manifest. The shipped signals read none, and no caller
  passes others.
- A column search returns "" exactly when no column contains any pattern, unless some
  pattern is empty and the first column that equals a pattern is a nameless one
  (`Resolver.EmptyIffNothingContained`). No caller in the repository passes an
  empty pattern.

Where the code and its comments disagree, the model follows the code:
`get_pay_periods` says its range is inclusive, but a start date that is itself a pay
date is left out; `lookup_reduction` speaks of ages below the table's minimum, but
falls back to the youngest entry for every missing age below retirement age;
`Params` says an empty tenant is rejected, but the middleware puts in a default;
`SchemaResolver` says the first match wins, but the most specific table does.

## Model

| member | source | states |
|---|---|---|
| TokenBucket.ReadyIsTightestRoom | platform/ratelimit/ratelimit.go:71-83 | The tokens available are exactly the room that the tightest window ending now still leaves |
| TokenBucket.GrantedIffEveryWindowHasRoom | platform/ratelimit/ratelimit.go:71-83 | A request is granted if and only if no window ending with it would exceed burst + rate * T |
| TokenBucket.WindowPotential | platform/ratelimit/ratelimit.go:36-45 | Grants in a window plus tokens left never exceed what the window let in |
| TokenBucket.WindowBound | platform/ratelimit/ratelimit.go:36-45 | At most burst + rate * T requests are granted in any window of length T |
| RateLimit.Limiter.constructor | platform/ratelimit/ratelimit.go:62-68 | A new limiter tracks no key |
| RateLimit.Limiter.Allow | platform/ratelimit/ratelimit.go:71-83 | Opens a full bucket for an unknown key, marks it seen, takes a token or denies; no other key's entry changes |
| RateLimit.Limiter.Cleanup | platform/ratelimit/ratelimit.go:86-95 | Exactly the entries last seen before now - staleAfter are gone, the rest unchanged |
| RateLimit.StaleMeansFull | platform/ratelimit/ratelimit.go:86-95 | Under the refill condition, an entry that is swept has a full bucket from then on |
| RateLimit.EntriesTrack | platform/ratelimit/ratelimit.go:71-95 | In every run, an entry is the bucket its key's own requests leave, and a missing entry stands for a full bucket |
| RateLimit.AllowedAsIfNeverEvicted | platform/ratelimit/ratelimit.go:71-95 | Each answer is the one a never-evicting limiter gives to this key's requests alone: no eviction and no other key can be observed |
| RateLimit.RateBound | platform/ratelimit/ratelimit.go:71-95 | In every run with sweeps, one key is granted at most burst + rate * T requests in any window |
| RateLimit.GrantedInCounts | platform/ratelimit/ratelimit.go:71-83 | The count in the bound is the number of events that ask for the key within the window and are allowed |
| RateLimit.DoubleSpendGranted | platform/ratelimit/ratelimit.go:86-95 | Without the refill condition, a run spends the burst, is swept, and spends it again, above the bound |
| RateLimit.RateBoundedIffRefills | platform/ratelimit/ratelimit.go:71-95 | The windowed bound holds in every run if and only if a bucket refills before its entry is stale |
| RateLimit.EvictionUnobservableIffRefills | platform/ratelimit/ratelimit.go:71-95 | Eviction is unobservable in every run if and only if a bucket refills before its entry is stale |
| Gateway.Middleware.constructor | platform/ratelimit/ratelimit.go:115-117 | Two separate, empty limiters |
| Gateway.Middleware.Serve | platform/ratelimit/ratelimit.go:142-163 | Bypass, then IP limit, then tenant limit for a known tenant; the tenant limiter is not asked after an IP rejection |
| Gateway.Middleware.Tidy | platform/ratelimit/ratelimit.go:127-129 | One tick sweeps both limiters |
| Gateway.AskedExplainsState | platform/ratelimit/ratelimit.go:142-163 | In every run each limiter is in the state that just the questions put to it explain |
| Gateway.ForwardedMeansGranted | platform/ratelimit/ratelimit.go:148-162 | A forwarded request was granted by its IP's bucket and by its tenant's, if it has one |
| Gateway.ForwardedMeetsBothBounds | platform/ratelimit/ratelimit.go:148-162 | Forwarded requests meet the per-IP and the per-tenant bound in every run |
| Gateway.ForwardedInCounts | platform/ratelimit/ratelimit.go:142-163 | The count in the bounds is the number of selected calls within the window that are forwarded |
| Gateway.AskedIpTimes | platform/ratelimit/ratelimit.go:148-149 | The IP limiter is asked exactly about the requests from each IP to the paths that are limited |
| Gateway.AskedTenantTimes | platform/ratelimit/ratelimit.go:155-156 | The tenant limiter is asked exactly about the tenant's requests that the IP's own bucket lets through |
| Gateway.VerdictIsExact | platform/ratelimit/ratelimit.go:142-163 | In every run: the five health paths bypass; otherwise a request is limited by IP, limited by tenant or forwarded exactly as the IP's bucket and then the tenant's decide, each as if never evicted |
| Gateway.RejectedIpSparesTenant | platform/ratelimit/ratelimit.go:148-156 | A request rejected for its IP costs no tenant a token |
| Cache.Cache.constructor | platform/cache/cache.go:38-48 | A new cache holds nothing and has counted nothing |
| Cache.Cache.Get | platform/cache/cache.go:51-71 | Answers exactly what a log of all Sets and Invalidates that forgets nothing would, and counts one hit or one miss |
| Cache.Cache.Set | platform/cache/cache.go:74-81 | Appends to the log an entry that expires one TTL from now |
| Cache.Cache.Invalidate | platform/cache/cache.go:84-88 | Appends the invalidation of one key to the log |
| Cache.Cache.InvalidateAll | platform/cache/cache.go:91-95 | Appends the invalidation of everything, and nothing is held |
| Cache.Cache.RemoveExpired | platform/cache/cache.go:128-137 | Exactly the unexpired entries survive, and the answers stay those of the log |
| Cache.Cache.Stats | platform/cache/cache.go:98-106 | Reports size, hits and misses; every live key of the log is among the held ones |
| Cache.OpRepresents | platform/cache/cache.go:74-95 | Every write keeps the items a sub-map of the log's last words that lacks only expired entries |
| Cache.LiveUntilDeadline | platform/cache/cache.go:56-81 | A value set is answered up to and including the end of its TTL, and not after |
| CacheInterleaving.ReachableInv | platform/cache/cache.go:51-137 | The invariant (items within the log, phases sound, counters balanced) holds after every interleaving |
| CacheInterleaving.HitsAreSound | platform/cache/cache.go:51-71 | Every hit returns the value the log held at its snapshot, unexpired at its check; hits + misses = completed Gets |
| CacheInterleaving.GetHitsIff | platform/cache/cache.go:51-71 | Whatever others do in the gap, a Get hits if and only if the key had an entry at the read that is unexpired at the check, and then with that entry's value |
| CacheInterleaving.SweepDropsOnlyExpired | platform/cache/cache.go:128-137 | The sweep never drops a live entry, and leaves none that had expired when it read the clock |
| CacheInterleaving.FinishDropsLiveIff | platform/cache/cache.go:56-65 | A finishing Get drops a live entry if and only if it saw an entry other than the one stored now |
| CacheInterleaving.AgreesUnlessOvertaken | platform/cache/cache.go:51-137 | The cache holds exactly what the log says is live, if and only if no late delete took a key that is live in the log |
| CacheInterleaving.LateDeleteCanStrike | platform/cache/cache.go:56-65 | A schedule in which a late delete removes a live entry |
| Latency.RequestCounters.constructor | platform/healthutil/healthutil.go:79-81 | New counters have recorded nothing |
| Latency.RequestCounters.Push | platform/healthutil/healthutil.go:93-97 | Overwrites the oldest slot in place and advances, so that the ring holds the longer history |
| Latency.RequestCounters.Record | platform/healthutil/healthutil.go:84-101 | Counts the call, classifies its code, and keeps ring, sum and count in step with the whole history |
| Latency.RequestCounters.Snapshot | platform/healthutil/healthutil.go:104-133 | Totals over all calls, all-time mean, and the nearest-rank 95th percentile of the last 1000 durations |
| Latency.RingImageIsWindow | platform/healthutil/healthutil.go:92-97 | The live part of the ring is, as a multiset, the last min(n, 1000) durations |
| Latency.RingImageIsRotated | platform/healthutil/healthutil.go:93-97 | Once full, the ring is the window rotated to where the next call goes |
| Latency.RingImageStep | platform/healthutil/healthutil.go:93-97 | One more call appends while the ring fills, then overwrites position n mod 1000 |
| Latency.P95IndexIsNearestRank | platform/healthutil/healthutil.go:117-128 | The index is in bounds and picks the least value that 95% of the window do not exceed |
| Latency.P95Unique | platform/healthutil/healthutil.go:121-128 | There is only one such value |
| CounterInterleaving.ReachableInv | platform/healthutil/healthutil.go:84-109 | The counter invariant holds after every interleaving of requests and snapshots |
| CounterInterleaving.CountersWithinTotal | platform/healthutil/healthutil.go:84-100 | In every state 4xx + 5xx <= total and latencyCount <= total, equal exactly when no request is pending |
| CounterInterleaving.CountersAreOfRequests | platform/healthutil/healthutil.go:84-90 | The total counts every request begun; each error counter plus its pending threads counts exactly the client, or server, errors among them |
| CounterInterleaving.ReportsWithinTotal | platform/healthutil/healthutil.go:104-109 | A snapshot's total and errors stay within the total that counts when it ends and ever after |
| CounterInterleaving.SuccessesStep | platform/healthutil/healthutil.go:84-109 | Requests that are not errors, pending errors counted as errors, only grow, and no counter ever falls |
| CounterInterleaving.SuccessesNonNegative | platform/healthutil/healthutil.go:84-90 | There are never fewer than none, so a snapshot without new requests is not torn |
| CounterInterleaving.TornNeedsNewRequests | platform/healthutil/healthutil.go:104-109 | A snapshot with more errors than requests takes more new requests than there were successes when it began |
| CounterInterleaving.EnoughRequestsTear | platform/healthutil/healthutil.go:104-109 | With that many new requests some schedule tears it |
| CounterInterleaving.TornIffMoreThanSuccesses | platform/healthutil/healthutil.go:84-109 | While m requests begin, a snapshot begun in a state can report more errors than requests if and only if m exceeds that state's successes |
| CounterInterleaving.SnapshotCanBeTorn | platform/healthutil/healthutil.go:104-109 | A schedule whose snapshot shows one error among zero requests |
| ServiceRegistry.CutHealthPath | platform/healthagg/aggregator.go:165-176 | The two pieces join back to the input: a URL with a scheme and a path that starts with a slash and has no ":/", or a URL with nothing to cut |
| ServiceRegistry.CutUnique | platform/healthagg/aggregator.go:165-176 | At most one cut of that kind exists |
| ServiceRegistry.ParseEntry | platform/healthagg/aggregator.go:147-178 | A comma-free part yields exactly the well-formed entry whose printed form it is, up to blanks around the pieces, and otherwise nothing |
| ServiceRegistry.PartIffDenoted | platform/healthagg/aggregator.go:147-178 | The parsed part and that relation agree in both directions |
| ServiceRegistry.ParseServices | platform/healthagg/aggregator.go:138-181 | The loop returns the entries of all parts in order |
| Text.SpacesAre | platform/healthagg/aggregator.go:139-157 | What is trimmed: the white-space characters of Unicode, by code point |
| ServiceRegistry.CutAttached | platform/healthagg/aggregator.go:167-176 | A custom path attached to a URL with a scheme is cut off again exactly there |
| ServiceRegistry.CutJoins | platform/healthagg/aggregator.go:165-176 | The two pieces join back to the input and have the well-formed shape |
| ServiceRegistry.PartReadsBack | platform/healthagg/aggregator.go:147-178 | A well-formed entry is read back from its printed form with any padding |
| ServiceRegistry.ParseIsParseParts | platform/healthagg/aggregator.go:139-144 | Trimming the whole variable changes nothing that the parts do not ignore anyway |
| ServiceRegistry.ParseYieldsWellFormed | platform/healthagg/aggregator.go:138-181 | Everything the parser returns is well-formed |
| ServiceRegistry.PaddedRoundTrip | platform/healthagg/aggregator.go:138-181 | Printing and parsing returns the list, with any blank parts and white space inserted |
| ServiceRegistry.RoundTripIff | platform/healthagg/aggregator.go:135-181 | Printing and parsing returns the list if and only if every entry is well-formed |
| ServiceRegistry.ParseIsStable | platform/healthagg/aggregator.go:138-181 | Any variable's parse can be printed and parsed again without change |
| HealthFanOut.ReachableExclusive | platform/healthagg/aggregator.go:57-116 | In every schedule exactly the holder of the mutex is in a critical section |
| HealthFanOut.StepsComeToAnEnd | platform/healthagg/aggregator.go:57-118 | Every step that changes anything brings the wait nearer to its end, so no schedule goes on for ever |
| HealthFanOut.SomeoneCanMove | platform/healthagg/aggregator.go:57-118 | Until all goroutines are done some goroutine can move |
| HealthFanOut.Completes | platform/healthagg/aggregator.go:57-118 | Whatever has happened so far, some continuation completes the wait |
| HealthFanOut.ReachableRecorded | platform/healthagg/aggregator.go:60-116 | In every schedule, whatever the names, who has written is in the result, and what is in the result someone has written |
| HealthFanOut.UnreachableOnce | platform/healthagg/aggregator.go:73-107 | With distinct names no service is listed as unreachable twice |
| HealthFanOut.EachServiceOnOneSide | platform/healthagg/aggregator.go:60-118 | With distinct names each service ends in exactly one of Services and Unreachable, once, with its own answer |
| HealthFanOut.ComputeOverall | platform/healthagg/aggregator.go:121-130 | The early-exit walk finds "degraded" in any map order |
| HealthFanOut.OverallIsExpected | platform/healthagg/aggregator.go:118-130 | Without a race, Overall is a function of the outcomes alone for every completion order |
| HealthFanOut.OverallIsScheduleFree | platform/healthagg/aggregator.go:118-130 | So it is with distinct names |
| HealthFanOut.OverallInWords | platform/healthagg/aggregator.go:121-130 | With distinct names: "unhealthy" if and only if some service is unreachable, else "degraded" if and only if some service says so, else "healthy" |
| HealthFanOut.ScheduleFreeIffNoRace | platform/healthagg/aggregator.go:112-130 | Given the outcomes, all complete schedules agree on Overall if and only if some service is unreachable, none is degraded, or some degraded one shares its name with degraded ones only |
| HealthFanOut.ScheduleFreeIffDistinct | platform/healthagg/aggregator.go:60-130 | All complete schedules agree on Overall for every outcome if and only if the names are distinct |
| HealthFanOut.OneSideIffDistinct | platform/healthagg/aggregator.go:60-118 | Every name is in exactly one of Services and Unreachable, for every outcome and schedule, if and only if the names are distinct |
| HealthFanOut.RacingServices | platform/healthagg/aggregator.go:112-130 | Any list with a repeated name has outcomes that race |
| RequestTx.Defaulted | platform/dbcontext/dbcontext.go:147-155 | Tenant and role end up non-empty, and given values are kept |
| RequestTx.NextKeepsInv | platform/dbcontext/dbcontext.go:138-207 | Every step of every request, failing or not, keeps the connection invariant |
| RequestTx.ReachableInv | platform/dbcontext/dbcontext.go:138-207 | The invariant holds after every interleaving of requests and failures |
| RequestTx.ReleasedExactlyOnce | platform/dbcontext/dbcontext.go:157-163 | A finished request released exactly what it acquired and owns no connection |
| RequestTx.PooledConnectionsAreClean | platform/dbcontext/dbcontext.go:171-189 | A connection in the pool has no open transaction and carries no session variables |
| RequestTx.ReleaseIsClean | platform/dbcontext/dbcontext.go:163-180 | The deferred call that releases the connection runs last, and hands it back without an open transaction |
| RequestTx.HandlerStartsInOwnTx | platform/dbcontext/dbcontext.go:182-199 | A handler starts if and only if the variables could be set, in an open transaction carrying its own non-empty tenant and role |
| RequestTx.HandlerSeesOwnTenant | platform/dbcontext/dbcontext.go:165-199 | While it runs, its connection is its own, and the transaction on it open with its own variables, or over if the request's context has ended |
| RequestTx.NeverAnothersTransaction | platform/dbcontext/dbcontext.go:157-199 | An open transaction always belongs to the request that holds the connection, and carries no variables or that request's |
| RequestTx.ConnectionsAreNotShared | platform/dbcontext/dbcontext.go:157-163 | No two requests hold one connection at the same time |
| RequestTx.ReturnedMeans | platform/dbcontext/dbcontext.go:199 | A request counts as returned if and only if a step of the run was its handler's normal return |
| RequestTx.CommitOnlyAfterReturn | platform/dbcontext/dbcontext.go:199-205 | Commit is attempted only after a step in which the handler returned normally |
| RequestTx.CommitIffReturned | platform/dbcontext/dbcontext.go:176-205 | A finished request that held a connection tried to commit exactly when its handler returned |
| RequestTx.CommitIffOpen | platform/dbcontext/dbcontext.go:203 | A commit takes effect if and only if the library reports success on a transaction still open |
| RequestTx.RollbackSparesCommitted | platform/dbcontext/dbcontext.go:171-205 | The deferred rollback finds no transaction once the commit took effect |
| RequestTx.HealthPathsBypass | platform/dbcontext/dbcontext.go:140-145 | The five health paths, and only they, are handled without a connection |
| RequestTx.NextCallMovesOn | platform/dbcontext/dbcontext.go:138-207 | Whatever fails, a request's own next call brings it nearer to being finished |
| RequestTx.HandlerQueriesOwnTransaction | platform/dbcontext/dbcontext.go:64-72 | In a handler that was given a transaction DB picks the request's own, open or over; only a bypassed handler, or code outside any handler, gets the pool |
| RequestTx.TransactionFirst | platform/dbcontext/dbcontext.go:64-72 | A transaction in the context wins over a connection, and either over the pool |
| Scheduler.Scheduler.constructor | connector/monitor/scheduler.go:40-41 | The scheduler starts without statuses |
| Scheduler.Scheduler.DetectStatusChanges | connector/monitor/scheduler.go:136-164 | Nothing on an empty map, otherwise one change per new or differing check, in report order |
| Scheduler.DeltasAnnounce | connector/monitor/scheduler.go:142-162 | The changes announce exactly the results that are new or differ from the kept status, with old status, new status and message |
| Scheduler.DeltasInOrder | connector/monitor/scheduler.go:142-162 | They come in report order |
| Scheduler.Scheduler.Turn | connector/monitor/scheduler.go:43-73 | A failed run changes nothing; otherwise changes are sent if a webhook is set, and all statuses are absorbed |
| Scheduler.KeptIsLatest | connector/monitor/scheduler.go:67-72 | prevStatuses holds each check's latest status, however many runs it was missing from |
| Scheduler.DeltasReplay | connector/monitor/scheduler.go:136-164 | With distinct names, one run's changes carry the old map to the new one and quote it correctly |
| Scheduler.SentReplaysToKept | connector/monitor/scheduler.go:43-73 | From any baseline, replaying all changes sent since gives prevStatuses after every later run |
| Scheduler.ReplayFromBaseline | connector/monitor/scheduler.go:43-73 | The same from the first run with checks; "new" is quoted exactly when the check is absent or its status was literally "new" |
| Scheduler.ReplayedStatus | connector/monitor/scheduler.go:142-162 | Replaying one run's changes gives each check the last status that differs from its old one |
| Scheduler.ReplayIffNoneCameBack | connector/monitor/scheduler.go:67-72 | Replay gives the kept map if and only if no check left its old status and came back to it within one report |
| Scheduler.ReplaysThroughoutIff | connector/monitor/scheduler.go:43-73 | Replaying what was sent since the baseline gives prevStatuses after every later run if and only if no run brings a check back to the status kept before it |
| Scheduler.DuplicateBreaksReplay | connector/monitor/scheduler.go:142-162 | A check reported twice in one run can break the replay |
| Trends.GroupPoints | connector/dashboard/server.go:469-478 | The map holds each check's points, oldest first, and only checks that appeared |
| Trends.CountChanges | connector/dashboard/server.go:480-485 | The number of positions whose status differs from the one before |
| Trends.InsertByName | connector/dashboard/server.go:492-494 | Adding a timeline keeps the name order and loses none |
| Trends.BuildTimelines | connector/dashboard/server.go:479-494 | One timeline per check in name order, whatever order the map is walked in |
| Trends.ComputeTrends | connector/dashboard/server.go:432-497 | Time range, number of reports, and exactly one timeline per check that ever appeared |
| Trends.TimelineUnique | connector/dashboard/server.go:479-494 | The reports determine the timelines: map order cannot be observed |
| Trends.BeforeIsLexicographic | connector/dashboard/server.go:492-494 | The name order is lexicographic |
| Trends.BatchIsIncremental | connector/dashboard/server.go:479-485 | The batch count of a check is the number of non-"new" changes sent for it, plus its changes out of a status literally "new" |
| Trends.BatchEqualsIncrementalIff | connector/dashboard/server.go:468-491 | The two counts are equal if and only if no change leaves a status literally "new" |
| Trends.StatusNewIsMiscounted | connector/monitor/scheduler.go:143-152 | Two runs on which the counts differ |
| Trends.DashboardState.constructor | connector/dashboard/server.go:42-44 | The history starts empty |
| Trends.DashboardState.LoadReport | connector/dashboard/server.go:49-79 | The history is the last 100 of all summaries loaded; an unreadable file changes nothing |
| Trends.CappedIsNewest | connector/dashboard/server.go:74-76 | The newest 100 summaries are kept, in order, or all of fewer |
| Tagger.ScoreTable | connector/tagger/scorer.go:7-25 | The hits are the signals that fire, in order, and the score is the sum of their weights |
| Tagger.ScoreIsSumOfHits | connector/tagger/scorer.go:14 | A score is the sum of its hit weights |
| Tagger.HitsAreFiring | connector/tagger/scorer.go:11-22 | The hits are the firing signals, each with its own name and weight, in order |
| Tagger.ScoreIsFiringWeight | connector/tagger/scorer.go:11-24 | A concept's score is the sum of the weights of its firing signals |
| Tagger.OneMoreSignal | connector/tagger/scorer.go:11-22 | One more signal adds its weight if it fires and nothing if it does not |
| Tagger.SignalOrderIrrelevant | connector/tagger/scorer.go:11-24 | The order in which a concept lists its signals changes no score |
| Tagger.AssignTags | connector/tagger/scorer.go:29-46 | Tags are the concepts whose threshold is met, in order; scores and hits are kept for positive scores |
| Tagger.ScoresAreHitWeights | connector/tagger/scorer.go:34-43 | A tag has a reported score if and only if some concept of that tag scores above zero, and then score and hits are such a concept's; a tag is assigned if and only if some concept's threshold is met |
| Tagger.TagsInOrder | connector/tagger/scorer.go:40-42 | Tags come in concept order |
| Tagger.TagTable | connector/tagger/tagger.go:25-44 | Rewrites one table's tags from the slice as it is, and reports the table if some score was positive |
| Tagger.TagManifest | connector/tagger/tagger.go:11-57 | The slice after the in-place loop, the results, the number of tagged tables, counts and name lists |
| Tagger.ReportIsExact | connector/tagger/tagger.go:35-44 | If no signal reads tags, the report holds exactly the tables on which some concept scores above zero, with name, tags, scores and hits |
| Tagger.ReportInOrder | connector/tagger/tagger.go:35-44 | Tables are reported in manifest order |
| Tagger.CountTags | connector/tagger/tagger.go:46-52 | One more table keeps counts and name lists in agreement with the tables tagged so far |
| Tagger.TagsSeeShape | connector/tagger/signals.go:12-151 | Tags do not depend on tags, table order or column order |
| Tagger.InPlaceIsPureIff | connector/tagger/tagger.go:24-33 | The in-place loop computes the pure map over the original manifest if and only if each table gets the same tags whether or not the tables before it are tagged yet |
| Tagger.TagBlindUnmoved | connector/tagger/tagger.go:24-33 | Signals that read no tags meet that condition on every manifest |
| Tagger.OwnTagsDoNoHarm | connector/tagger/tagger.go:24-33 | So do signals that read their own table only, its tags included |
| Tagger.InPlaceIsPure | connector/tagger/tagger.go:24-33 | If no signal reads tags, after n turns the first n tables carry the tags computed on the original manifest, the others are untouched |
| Tagger.TagsIgnoreTags | connector/tagger/scorer.go:7-43 | If no signal reads tags, a table's tags depend on no tags of its own or of the manifest |
| Tagger.AssignedInTurn | connector/tagger/tagger.go:24-33 | Whatever signals read, what a table carries was assigned in its turn and not touched again |
| Tagger.NoOpIffSettled | connector/tagger/tagger.go:24-33 | Tagging leaves a manifest alone if and only if each table carries the tags its scores call for |
| Tagger.SecondRunIsNoOp | connector/tagger/tagger.go:24-33 | If no signal reads tags, tagging a tagged manifest changes nothing |
| Tagger.OrderIrrelevant | connector/tagger/tagger.go:24-33 | A table gets the same tags wherever it is listed and however its columns are ordered |
| Tagger.CarriedTagsWereEarned | connector/tagger/scorer.go:11-42 | After tagging a table carries a tag if and only if, for some concept of that tag, the weights of its firing signals sum to at least the threshold |
| Tagger.CountsAreTables | connector/tagger/tagger.go:46-52 | With one concept per tag, and whatever signals read, TagCounts[t] is the length of TaggedNames[t] and the number of tables carrying t |
| Tagger.ReadingTagsBreaksPurity | connector/tagger/tagger.go:26-33 | A signal of the permitted type, though no shipped one, that sees the slice half rewritten |
| Signals.NamesCounted | connector/tagger/signals.go:25-42 | As many names are collected as columns match |
| Signals.CollectColumnsMatching | connector/tagger/signals.go:25-37 | The names of the matching columns, each once, in order |
| Signals.ComputeDecimalRatio | connector/tagger/signals.go:78-90 | The share of decimal columns, 0 without columns |
| Signals.DateColumnCount | connector/tagger/signals.go:94-110 | The number of date columns that are not the framework's own |
| Signals.AnyColumnPermuted | connector/tagger/signals.go:12-146 | The searches over columns and foreign keys do not depend on their order |
| Signals.HelpersMean | connector/tagger/signals.go:10-151 | Which columns, table names and foreign keys each search helper looks for, in terms of text occurring whatever the case |
| Signals.ColumnTypesMean | connector/tagger/signals.go:84-105 | Which columns count as decimal and as dates, whatever the case |
| Signals.CountingHelpersMean | connector/tagger/signals.go:40-110 | The counting helpers compare counts of such columns |
| Signals.StructuralSeesShape | connector/tagger/signals.go:12-151 | No combination of the helpers sees tags, the rest of the manifest, or the order of columns |
| Signals.StructuralIsTagBlind | connector/tagger/signals.go:12-151 | Combinations of the helpers read no tags |
| Resolver.CollectCandidates | connector/monitor/resolver.go:44-53 | For each tag its candidates, one per occurrence, in manifest order; no key without candidates |
| Resolver.PickBest | connector/monitor/resolver.go:56-63 | The scan returns the winner of the left-to-right comparison |
| Resolver.WinnerIsBest | connector/monitor/resolver.go:56-63 | The winner is first by fewest tags, most rows, manifest position among all tables carrying the tag |
| Resolver.BestUnique | connector/monitor/resolver.go:57-63 | There is only one best table |
| Resolver.CandidateKeys | connector/monitor/resolver.go:44-66 | The map knows exactly the tags that some table carries, and each one's winner is its best table |
| Resolver.SchemaResolver.constructor | connector/monitor/resolver.go:27-69 | Exactly the carried tags are indexed, each to its best table and that table's name |
| Resolver.SchemaResolver.ColumnRole | connector/monitor/resolver.go:110-116 | "" for a tag no table carries, otherwise the column search in the tag's best table |
| Resolver.FirstInPass | connector/monitor/resolver.go:133-140 | One pass finds the first matching column or shows there is none |
| Resolver.ResolveColumn | connector/monitor/resolver.go:131-160 | The column that is first by (pass, position), "" when no pass matches |
| Resolver.FirstUnique | connector/monitor/resolver.go:131-160 | There is only one such column |
| Resolver.PassIffContained | connector/monitor/resolver.go:132-158 | Some pass matches if and only if the name contains some pattern: the first two passes only reorder |
| Resolver.PassMeans | connector/monitor/resolver.go:131-160 | The first pass is for equal names, the second for names ending in an underscore and the pattern, the third for names containing it, all whatever the case |
| Resolver.SomeMatchIffContained | connector/monitor/resolver.go:131-160 | Some pass finds some column if and only if some column contains some pattern |
| Resolver.EmptyIffNothingContained | connector/monitor/resolver.go:131-160 | For patterns that are not empty, "" if and only if no column contains any pattern; for any patterns, that holds if and only if no nameless column is found first |
| Resolver.FirstIsNamelessIff | connector/monitor/resolver.go:132-140 | The column found is nameless if and only if some pattern is empty and a nameless column comes before all that equal a pattern |
| Resolver.SchemaResolver.HasTag | connector/monitor/resolver.go:72-75 | True if and only if some table carries the tag |
| Resolver.SchemaResolver.TableName | connector/monitor/resolver.go:78-80 | The name of the tag's best table, "" if no table carries it |
| Resolver.NamelessColumnIsFound | connector/monitor/resolver.go:131-140 | With an empty pattern, a nameless column that is found and indistinguishable from none |
| Resolver.ResolvedTableEarnedItsTag | connector/monitor/resolver.go:46-66 | After tagging, the table a tag resolves to met that concept's threshold |
| Rounding.RoundIsNearest | connector/monitor/baseline.go:12-14 | Rounds to the nearest integer, and of two nearest to the one further from zero |
| Rounding.CentsIsNearest | connector/monitor/baseline.go:12-14 | The nearest whole number of cents, and of two nearest the one further from zero |
| Rounding.CentsMonotone | connector/monitor/baseline.go:12-14 | Rounding to cents keeps order |
| Rounding.CentsWithinHalfCent | connector/monitor/baseline.go:12-14 | Rounding to cents moves a value by at most half a cent |
| Baseline.Total | connector/monitor/baseline.go:76-80 | The sum of the sample |
| Baseline.ExtremesBound | connector/monitor/baseline.go:84-94 | The two extremes are members of the sample and bound all of it |
| Baseline.Extremes | connector/monitor/baseline.go:84-94 | The least and the greatest member of the sample |
| Baseline.SumSquaredDiffs | connector/monitor/baseline.go:100-104 | The sum of squared deviations from the mean |
| Baseline.ComputeStats | connector/monitor/baseline.go:66-109 | Rounded mean, population deviation, minimum and maximum; zeros for an empty sample, no deviation for one value |
| Baseline.StatsAreOfSample | connector/monitor/baseline.go:66-96 | Name and size are the sample's, and mean, minimum and maximum within half a cent of the sample's own |
| Baseline.StatsOfFew | connector/monitor/baseline.go:72-74 | Zeros for an empty sample, no deviation for a single value |
| Baseline.VarianceTimesSize | connector/monitor/baseline.go:100-105 | The variance is the mean of the squared deviations |
| Baseline.RootFrom | connector/monitor/baseline.go:105 | The integer nearest to the square root, characterised by squares |
| Baseline.RoundedInOrder | connector/monitor/baseline.go:76-96 | Rounded minimum <= rounded mean <= rounded maximum |
| Baseline.VarianceBound | connector/monitor/baseline.go:98-105 | Variance <= (max - mean)(mean - min) <= ((max - min) / 2)^2 |
| Baseline.StdDevNearRoot | connector/monitor/baseline.go:99-106 | The reported deviation is the root of the variance, rounded to cents |
| Baseline.StdDevWithinHalfRange | connector/monitor/baseline.go:99-106 | The reported deviation is at most the rounded half range |
| Baseline.StatsPermuted | connector/monitor/baseline.go:66-109 | No output depends on the order of the sample |
| Samples.SpreadBound | connector/monitor/baseline.go:98-105 | The sum of squared deviations is at most n (max - mean)(mean - min) |
| Samples.SumSqDevIdentity | connector/monitor/baseline.go:100-104 | Squared deviations from any point follow from the sums of the members and of their squares |
| Samples.MemberDeviation | migration-intelligence/reconciliation/analysis.py:66-75 | n (x - mean)^2 is at most (n - 1) times the sum of squared deviations |
| Patterns.Group | migration-intelligence/reconciliation/analysis.py:46-52 | Groups hold the mismatches of each (domain, plan) in order, keys in order of first appearance |
| Patterns.Assess | migration-intelligence/reconciliation/analysis.py:61-95 | A subgroup yields a pattern exactly when it has five members, a mean other than 0 and a variation below 0.3 |
| Patterns.DetectSystematicPatterns | migration-intelligence/reconciliation/analysis.py:35-97 | The loops emit the patterns of all groups, positive before negative, in group order |
| Patterns.DetectIsExact | migration-intelligence/reconciliation/analysis.py:45-97 | The patterns are exactly the systematic subgroups of one domain, plan and sign, none twice |
| Patterns.PatternsSayTrue | migration-intelligence/reconciliation/analysis.py:56-95 | On its own fields: a pattern lists, in input order, the ids of exactly the mismatches of its domain, plan and sign; its count, mean and variation are theirs, and its id ends in the sign's word |
| Patterns.EmittedIff | migration-intelligence/reconciliation/analysis.py:56-81 | A domain, plan and sign has a pattern if and only if at least five results support it, scattered by less than 0.3 of their mean |
| Patterns.NoResultInTwoPatterns | migration-intelligence/reconciliation/analysis.py:56-61 | No result belongs to two patterns |
| Patterns.TightCluster | migration-intelligence/reconciliation/analysis.py:62-81 | Each member of a pattern satisfies n (x - mean)^2 < 0.09 (n - 1)^2 mean^2, with n >= 5 and mean > 0 |
| Patterns.SystematicScaled | migration-intelligence/reconciliation/analysis.py:66-81 | Scaling a subgroup neither makes nor unmakes a pattern |
| Patterns.DetectScaled | migration-intelligence/reconciliation/analysis.py:35-97 | Scaling all variances by k > 0 scales the means and changes nothing else |
| Patterns.DetectPermuted | migration-intelligence/reconciliation/analysis.py:35-97 | Permuting the input leaves the patterns unchanged up to order, in both directions |
| Benefit.MinAge | migration-simulation/formula/benefit.py:94-96 | The youngest age of the table |
| Benefit.NondecreasingIff | migration-simulation/formula/benefit.py:81-97 | The factor never falls with age if and only if the entries and the gaps they leave satisfy a condition on the table |
| Benefit.GapFreeIsGood | migration-simulation/formula/benefit.py:81-97 | A table without gaps that never falls and is capped at 1 satisfies it |
| Benefit.GapBreaksOrder | migration-simulation/formula/benefit.py:93-125 | With a gap at 62, the same career pays 2400 a month from 61 and 2100 from 62 |
| Benefit.RegisteredTablesGood | migration-simulation/formula/benefit.py:39-49 | Both registered tables satisfy it |
| Benefit.FinalBetweenFloorAndGross | migration-simulation/formula/benefit.py:107-125 | The final benefit is at least the floor and at most the larger of rounded gross and floor |
| Benefit.ReportedWithinHalfCent | migration-simulation/formula/benefit.py:76-78 | Gross and final amounts are within half a cent of the exact ones |
| Benefit.FormulaHolds | migration-simulation/formula/benefit.py:81-125 | Final amount and gross amount are within half a cent of service times multiplier times salary over twelve, reduced by the reported factor and raised to the floor; the factor is the age's entry, 1 or the youngest entry's |
| Benefit.PublishedCases | migration-simulation/fixtures/reconciliation_fixtures.yaml:10-82 | The results that both implementations are held to, to the cent |
| Benefit.BenefitMonotone | migration-simulation/formula/benefit.py:100-125 | For any good table the benefit never falls with service, salary or age |
| Benefit.FactorFallsBenefitFalls | migration-simulation/formula/benefit.py:100-125 | Where the factor falls with age, some salary makes the rounded benefit fall, above the floor |
| Benefit.NeverFallsIff | migration-simulation/formula/benefit.py:81-125 | The benefit never falls with service, salary or age if and only if the plan's table is good or its multiplier is zero |
| Benefit.RegisteredBenefitMonotone | migration-simulation/formula/benefit.py:51-73 | So it does for each registered plan |
| Benefit.TierThreeReducesMore | migration-simulation/formula/benefit.py:39-49 | Tier 3 reduces at least as much as tiers 1 and 2 at every age |
| Benefit.OlderTierPaysNoLess | migration-simulation/formula/benefit.py:51-73 | On equal inputs TIER_1 >= TIER_2 >= TIER_3 |
| PayPeriods.GetPayPeriods | domains/pension/seed/generate_seed_data.py:354-368 | Exactly the epoch-aligned days in (start, end], two weeks apart, also before the epoch |
| PayPeriods.CalendarUnique | domains/pension/seed/generate_seed_data.py:354-368 | Start and end determine the list |
| PayPeriods.AlignedMeans | domains/pension/seed/generate_seed_data.py:50-51 | A pay date is a whole number of two-week steps from 3 January 1992, either way |
| PayPeriods.Generator.constructor | domains/pension/seed/generate_seed_data.py:449-466 | The contribution ids start at 1 with no rows |
| PayPeriods.Generator.GenContributions | domains/pension/seed/generate_seed_data.py:730-805 | The per-period loop appends the posted rows and advances the id counter |
| PayPeriods.RowsFitTurns | domains/pension/seed/generate_seed_data.py:734-803 | One row per paid period, in order, with its date and year; contributions are within half a cent of 8.45% and of the year's rate of a pay within half a cent of salary / 26, the employer's never the smaller; interest is 3% of the credits late in December and nothing otherwise |
| PayPeriods.EmployerRateIsScheduled | domains/pension/seed/generate_seed_data.py:69-97 | The employer's rate is the latest in the published schedule that applies |
| PayPeriods.PostConserves | domains/pension/seed/generate_seed_data.py:734-805 | One more pay period keeps every earlier row and states the new credits exactly, or off by 0.03 the first time |
| PayPeriods.BalancesConserved | domains/pension/seed/generate_seed_data.py:730-805 | Each row states the contributions and interest so far, except at most one off by exactly 0.03; ids are consecutive |
| PayPeriods.MismatchStrikesFirst | domains/pension/seed/generate_seed_data.py:788-795 | The one row that is off is the first for which a mismatch was drawn with more than 50000 credited, and there is none otherwise |
| PayPeriods.BalancesExact | domains/pension/seed/generate_seed_data.py:788-795 | Without the injected fault every row is exact |
| SalaryGap.RolloverIsNextIndex | connector/monitor/checks.go:93-100 | For months in 1..12 the rollover test is month index + 1 |
| SalaryGap.Collect | connector/monitor/checks.go:66-76 | The map holds each employee's months in row order |
| SalaryGap.MonthsAtPositions | connector/monitor/checks.go:67-76 | They are the months of exactly the employee's rows, by row position |
| SalaryGap.GapListIsExact | connector/monitor/checks.go:90-106 | The employee's list holds exactly the gaps of its slips, as many as are counted |
| SalaryGap.CountGaps | connector/monitor/checks.go:87-106 | Counts the steps that are not to the next month, and lists each once, in order |
| SalaryGap.SalaryGapCheck | connector/monitor/checks.go:66-107 | The total over all employees; each employee's details are exactly its gaps, in order, in any map order; over the rows, a detail is reported if and only if two neighbouring rows of one employee are not one month apart, and for rows in month order none is counted if and only if each employee's rows cover every month once |
| SalaryGap.GapsAreRowGaps | connector/monitor/checks.go:90-106 | An employee's gaps are those between neighbouring rows of theirs |
| SalaryGap.GapTotalAnyOrder | connector/monitor/checks.go:86 | The total does not depend on the order of map iteration |
| SalaryGap.InterleavingIrrelevant | connector/monitor/checks.go:67-76 | The total does not depend on how the employees' rows are interleaved |
| SalaryGap.NoGapsIff | connector/monitor/checks.go:83-107 | The total is zero if and only if every employee has no gap |
| SalaryGap.NoGapsMeansConsecutive | connector/monitor/checks.go:90-106 | No gap if and only if the slips' month indices are consecutive |
| SalaryGap.NoGapsIffCoversOnce | connector/monitor/checks.go:90-106 | In date order, no gap if and only if every month from first to last occurs exactly once |
| SalaryGap.NoGapsIffRowsCoverOnce | connector/monitor/checks.go:66-107 | For rows in month order, no gap is counted if and only if every month between two rows of an employee is that of exactly one row of theirs |

## Left out

- RateLimit.Limiter.Allow: one atomic step at one time; the gap between releasing the map's lock and asking the bucket is not modelled, and entries are values instead of shared pointers. Negative rates and bursts from the environment are not modelled.
- TokenBucket.ReadyStep: the library limiter is the documented token bucket over real time (starts full, refills at the rate, capped at the burst), not its source.
- Gateway.Middleware.Serve: how the client address and the tenant are found, the Retry-After header and the response body.
- CacheInterleaving.HitsAreSound: no claim that a live entry is never missed, since the delete in `Get` rechecks its own earlier copy; FinishDropsLiveIff says when it happens.
- Latency.RequestCounters.Snapshot: the library sort is written as an insertion sort, and ceil(n * 0.95) is computed exactly. Counters and sums are unbounded; 64-bit wrap-around is not modelled.
- HealthFanOut.EachServiceOnOneSide: building the request, the two-second timeout and decoding the answer are reduced to one outcome per service.
- RequestTx.ReleaseIsClean: `database/sql` is an abstract specification: a rollback, and the end of the request's context, end the transaction; a failed commit may or may not leave it open. What the handler's queries do to the data is not modelled. `ScopedConn` is left out.
- Scheduler.Scheduler.Turn: webhook delivery, files, signals and the wait between runs; nil and empty check lists are not distinguished.
- Trends.ComputeTrends: baseline drift trends, and reading the history directory; every successful run's report is taken to be stored, with a distinct `RunAt`.
- Signals.StructuralSeesShape: evidence strings, and the catalogue of shipped concepts; signals are any combination of the helpers, or any function of the table and the manifest.
- Resolver.SchemaResolver.ColumnRole: letter case is folded for ASCII only; `ColumnRoleFrom`, `MemberIDColumn`, `PrimaryKeyColumn` and quoting are left out.
- Baseline.ComputeStats: floating-point rounding error; the square root is characterised by squares and never computed. The database queries are left out.
- Patterns.DetectSystematicPatterns: the four-digit rounding with which mean and variation are displayed; a pattern holds the exact mean and the square of the variation.
- Benefit.FinalBetweenFloorAndGross: 28-digit decimal rounding error before the final rounding.
- PayPeriods.Generator.GenContributions: salary trajectory, skipped periods and random draws are inputs, days are ordinals with their year, month and day of year given, and the salary history rows of the same loop are left out.
- SalaryGap.SalaryGapCheck: query and scan errors, the threshold evaluation and message texts; a gap is reported as its two months instead of as text.
- HTTP servers, JSON, logging, token validation, database adapters, SQL text and the user interface.
