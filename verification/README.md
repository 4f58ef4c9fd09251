# Sentinel: a verified model of the monitoring engine

Sentinel checks monitors over HTTP and publishes their state. A Go worker polls due monitors,
probes them and records results and alerts in PostgreSQL; a NestJS API edits the same database,
seeds it and serves a public status page; a React frontend draws the history. This project models
the stateful parts of all three in Dafny and proves what they are meant to guarantee.

`dafny verify dfyconfig.toml` checks everything.

## What is modelled

- **Monitoring protocol.** `Schema` is the database as maps; `Fsm` the threshold state machine;
  `Persist` one check with its transaction under every fault; `Dispatcher` and `DispatchTiming` the
  bounded dispatcher of a poll cycle, as a machine and as the loop that refines it. `Protocol` puts
  them together as one state machine: fetches, commits in any order, cancellations, restarts and
  retention of the worker, interleaved with any transaction of another writer that meets `Rely`.
  `ProtocolSafety` proves an invariant over every run, `ProtocolResults` reads the results off it,
  `CheckHistory` relates rows, alerts and the public status to the checks a monitor has had,
  `Refinement` shows that a check and a cleanup are steps of this machine, and `Polling` runs the
  whole poll loop over one database, with other sessions writing in between, and shows the same of
  it. `AlertSuffix` and `LateCommits` give the exact conditions of two properties that hold only
  under one.
- **Other writers.** `Api`, `Seeding`, `StatusSeed` and `Demo` model creating, editing and deleting
  monitors, the publication of the status manifest, the demo seed and the periodic demo reset; each
  is proved to meet `Rely`, whatever its input. `Startup` is both seeds in their order.
- **Retention.** `Retention` refines a bulk deletion by bounded oldest-first batches; `PublicStatus`
  is the aggregate over a window that must not notice.
- **Configuration and heartbeat.** `Config` computes the settings in 64-bit arithmetic; `Heartbeat`
  bounds the gap between two heartbeats over every timely run and compares it with the configured age.
- **Status cache.** `StatusCache` is the single-flight cache with a time to live, over every
  interleaving of calls, completions and failures.
- **Frontend.** `ChartAxis` and `ChartSegments` are the latency chart; `Freshness` the sampled clock.

Where the source changes things step by step (the poll cycle, a check, the cleanup, the seeds, the
reset, the settings, the heartbeat file, the cache, the chart pass, the clock) the model is a method
or a class with the same branches, proved against a specification; expressions stay functions.

## Assumptions

One worker process (PRODUCT.md:42). One clock that does not go back, shared by worker and database,
and that moves on between a commit and the next fetch, which waits for the ticker.
Transactions take effect at commit, in one step, and are settled when the call that issued them
returns (`LateCommits` is what this is needed for); a commit that reports an error may or may not have
taken effect. Ids come from sequences and
are never reused; a rolled-back insert leaves no hole in the sequence, which no property depends on.
Worker and API read the same `STATUS_UPTIME_WINDOW_HOURS`. What comes from outside (probe results,
completion order, moments of cancellation, clock readings, failing statements, environment
variables, target and address syntax) is a parameter or a nondeterministic choice. Latencies, axis
values and percentages are exact reals. Times are microseconds in the database, nanoseconds in the
worker's settings, milliseconds in the browser.

## Where the code does not do what it sets out to do

- `Config.Load` lets through any positive `DEMO_RESET_INTERVAL_MINUTES`, and the interval wraps
  around above 153 722 867 minutes (`Config.ResetIntervalFits`). Starting the timer then panics
  exactly when the low 64 bits of the product are zero, as for the multiples of 2^53, or have their
  top bit set (`Config.TickerStarts`, `Config.IntervalVanishes`); otherwise the account is reset
  after some other time, 26 seconds for instance (`Config.ResetIntervalWraps`).
- The freshness flag is late when the age expires between the last sample of the clock and the effect
  that sets the timer: it then shows a stale monitor as fresh for up to 30 seconds. `Freshness.RunAgrees`
  says that this is the only way, `Freshness.OneMillisecondMisses` gives an input. Each change of the
  inputs also resets the timer: the clock is never sampled again exactly when every render brings a
  change (`Freshness.NeverSampledAgain`), and `Freshness.ClockCanStandStill` is such a run.
- Retention that skips a locked alert may take newer ones. What is left of a monitor's alerts is the end
  of its log, which alternates, exactly when no statement does so (`AlertSuffix.SuffixIffNoTear`);
  `AlertSuffix.LockedRecoveryStays` leaves a monitor that is down with a lone recovery.
- Alerts alternate because commits are settled before the next fetch. A commit that lands later, after
  its reply was lost, breaks this exactly when its snapshot is wrong about the monitor being down
  (`LateCommits.AlternatesIffAlike`); `LateCommits.SecondDown` sends two downs in a row.
- The comment in config.go counts three persistence deadlines; a check uses at most two, its
  transaction and the deferred rollback. The computed age is therefore one deadline and ten seconds
  above the worst gap (`Heartbeat.GapBound`, `Heartbeat.GapIsAttained`).

## Model

| member | source | states |
|---|---|---|
| Fsm.AlertIsTransition | sentinel-worker/internal/worker/loop.go:243-273 | for any stored state, counter and threshold: an alert is exactly a change of being down; recovery exactly for a healthy probe of a monitor that is down; down exactly when a failing probe of one that is not brings the counter to the threshold; a failing probe below it, or of one that is down, keeps the state; the counter is zero or one more than the stored one |
| Fsm.TrailingFailures | sentinel-worker/internal/worker/loop.go:255-258 | the run of failing probes that ends a history, and the healthy probe before it |
| Fsm.OutagesGrow | sentinel-worker/internal/worker/loop.go:258-266 | one more probe starts a counted outage exactly when the trailing run reaches the threshold |
| Fsm.FsmClosedForm | sentinel-worker/internal/worker/loop.go:243-273 | over any probe sequence: the counter is the trailing failure run, the state is decided by that run and by whether a healthy probe occurred, and alerts alternate, one down per maximal failure run that is long enough |
| Fsm.FailuresInARow | sentinel-worker/internal/worker/loop.go:253-272 | failing probes in a row, from any row: no change until the counter reaches the threshold, there one down, and none after it |
| Persist.PersistedEffect | sentinel-worker/internal/worker/loop.go:302-340 | a committed check adds one result, that of the probe, and an alert with its message exactly when the state becomes or stops being unhealthy, and changes no other monitor |
| Persist.PersistedRow | sentinel-worker/internal/worker/loop.go:317-323 | the counter in the row is zero after a healthy probe and one more than the fetched one after any other, with the state it decides and the time; the columns of other writers stay as they are |
| Persist.CheckAndPersist | sentinel-worker/internal/worker/loop.go:275-350 | all or nothing under every pattern of failing statements, commit replies and concurrent deletes; a nil error means the check is recorded or its monitor is gone, any other that a statement failed |
| Dispatcher.DispatchInvariant | sentinel-worker/internal/worker/loop.go:117-148 | over every order of completions and any cancellation: never more active than the limit, no idle slot before cancellation, no job reported twice, at most n + 1 events |
| Dispatcher.DrainedMeansDone | sentinel-worker/internal/worker/loop.go:124-148 | when nothing is active any more, an uncancelled cycle has finished each job exactly once |
| Dispatcher.BeatsAndFailures | sentinel-worker/internal/worker/loop.go:138-143 | heartbeats count the reports that completed or were a monitor's check error, and the reported errors are those of the persistence, in the order of the reports |
| Dispatcher.RunPollCycle | sentinel-worker/internal/worker/loop.go:97-156 | the cycle with its early returns: no heartbeat after a failed fetch or an early cancellation, one for an empty batch, otherwise a run of the dispatcher |
| Dispatcher.Dispatch | sentinel-worker/internal/worker/loop.go:112-155 | for every order of completions and every look that first sees a cancellation: the loop is a run of the machine that awaits every job it started, with the exact number of jobs started, the exact reports counted as heartbeats, and the error |
| Dispatcher.UncancelledCycle | sentinel-worker/internal/worker/loop.go:117-156 | a cycle that is never cancelled runs each job exactly once, writes a heartbeat for each that completed or whose check failed, reports exactly those whose persistence failed, each once and in order, and returns nil exactly when there are none |
| Dispatcher.FillSlots | sentinel-worker/internal/worker/loop.go:120-123 | the first jobs in order, as many as there are slots |
| Dispatcher.Drain | sentinel-worker/internal/worker/loop.go:126-130 | after a cancellation every active job is awaited, none started and no heartbeat written |
| DispatchTiming.GreedyBound | sentinel-worker/internal/worker/loop.go:117-148 | with jobs of at most d, job k starts by floor(k / limit) * d and n jobs end by ceil(n / limit) * d |
| DispatchTiming.StartsWhenFreed | sentinel-worker/internal/worker/loop.go:117-148 | the first jobs start at once and each later one at the report that frees its slot |
| Protocol.FetchDueMonitors | sentinel-worker/internal/worker/loop.go:196-221 | the scan gives each due monitor once, with the row it has now, in any order: the active ones never checked or whose frequency in seconds has passed; an error at a row fails the fetch |
| ProtocolSafety.FetchedBatchOk | sentinel-worker/internal/worker/loop.go:196-221 | a batch of due monitors starts with every snapshot fresh and due |
| ProtocolSafety.EnvironmentKeeps | sentinel-worker/internal/worker/loop.go:291-349 | any transaction that meets the rely condition keeps the invariant in the middle of a cycle |
| ProtocolSafety.CommitKeeps | sentinel-worker/internal/worker/loop.go:291-345 | a commit from a stale snapshot keeps the invariant, whatever happened since the fetch |
| ProtocolSafety.RetainResultsKeeps | sentinel-worker/internal/worker/retention.go:61-85 | deleting any expired results keeps the invariant |
| ProtocolSafety.RetainAlertsKeeps | sentinel-worker/internal/worker/retention.go:61-85 | deleting alerts keeps the invariant, locked ones skipped or not |
| ProtocolSafety.RunKeeps | sentinel-worker/internal/worker/loop.go:38-95 | the invariant holds in every state of every run |
| ProtocolResults.AlertsAlternate | sentinel-worker/internal/worker/loop.go:243-350 | in every run each monitor's alerts read down, recovery, down, ..., and the last one is down exactly when the stored state is unhealthy |
| ProtocolResults.DueIsFetched | sentinel-worker/internal/worker/loop.go:196-221 | a fetch of any run lists a monitor if and only if it is due then, with the row it has |
| CheckHistory.NoFalseAlarm | sentinel-worker/internal/worker/loop.go:253-269 | in every run, whatever else writes, each alert has a stored check of its time: a healthy one for a recovery, and for a down the last of as many failing checks in a row as its threshold says |
| CheckHistory.RowFollowsChecks | sentinel-worker/internal/worker/loop.go:243-350 | over any stretch of any run in which nobody else writes the counter of a monitor, under one threshold: its state, counter and alerts are those of the state machine fed the probes of its checks |
| CheckHistory.NewRowFollowsChecks | sentinel-worker/internal/worker/loop.go:243-350 | so a live row whose counter nobody else has written since its creation has the counter, state and number of alerts of the closed form, for the probes in the archive |
| CheckHistory.OutageIsAlerted | sentinel-worker/internal/worker/loop.go:253-272 | no silent outage: failing checks in a row bring a monitor down as soon as the counter reaches the threshold, with exactly one more alert, a down |
| ProtocolResults.NoLostUpdate | sentinel-worker/internal/worker/loop.go:113-151 | in every reachable state a job not yet persisted has the state and time its row still has, and a monitor has one job |
| ProtocolResults.NeverCheckedTooOften | sentinel-worker/internal/worker/loop.go:199-205 | in every run the checks of a monitor are later and later, each at least the frequency in force at its fetch after the one before, and no stored result is newer than `last_checked_at` |
| ProtocolResults.ResultsAreSpaced | sentinel-worker/internal/worker/loop.go:291-313 | the same of the `created_at` of any two stored results of a monitor, in the order of their ids |
| ProtocolResults.HistoryIsLinked | sentinel-api/prisma/schema.prisma:14-39 | in every run results and alerts reference live monitors |
| AlertSuffix.StatementTears | sentinel-worker/internal/worker/retention.go:61-71 | one statement leaves a monitor the end of its log if and only if it overtakes no locked alert of it: none locked and expired that is older than an unlocked expired one with fewer than `limit` before it |
| AlertSuffix.SuffixIffNoTear | sentinel-worker/internal/worker/retention.go:61-85 | over every run, what is left of a monitor's alerts is always the end of its log if and only if no statement overtakes a locked alert of it |
| AlertSuffix.KeptAlertsAreSuffix | sentinel-worker/internal/worker/retention.go:61-85 | until one does, the alerts left alternate and their last entry agrees with the stored state |
| AlertSuffix.LockedRecoveryStays | sentinel-worker/internal/worker/retention.go:67-67 | a state that satisfies the invariant, and a statement with the recovery locked that takes the downs around it |
| AlertSuffix.RecoveryIsAlone | sentinel-worker/internal/worker/retention.go:67-67 | what it leaves of a monitor that is down is a recovery |
| LateCommits.LandingKeepsStep | sentinel-worker/internal/worker/loop.go:341-344 | a commit from any snapshot keeps the monitor's alerts in step if and only if the snapshot is right about its being down |
| LateCommits.AlternatesIffAlike | sentinel-worker/internal/worker/loop.go:341-344 | over every run in which a fetched job's commit lands at any time after its fetch: alerts always alternate and agree with the state if and only if every commit is of that kind |
| LateCommits.SecondDown | sentinel-worker/internal/worker/loop.go:341-344 | a run: the reply to a commit is lost, the cycle returns, the next one fetches the row unchanged, both commits land, and the monitor goes down twice |
| Refinement.CheckRefines | sentinel-worker/internal/worker/loop.go:275-350 | whatever happens to a check, the database goes through steps of the protocol, and the next check of the cycle can follow |
| Polling.PollOnce | sentinel-worker/internal/worker/loop.go:97-156 | one cycle on one database, over every schedule, fault and cancellation and whatever other sessions write: from idle to idle in steps of the protocol, over exactly the due monitors, with the starts, heartbeats and error the dispatcher specifies for the outcomes there were (uncancelled: a heartbeat for each that completed or failed as a check, the others listed in the error), and every nil outcome recorded unless its monitor is gone |
| Polling.Poll | sentinel-worker/internal/worker/loop.go:71-94 | so does any number of cycles, and the invariant holds after them |
| Polling.GiveUp | sentinel-worker/internal/worker/loop.go:126-130 | a cancelled cycle still lets every active check come to its end |
| Refinement.CleanupRefines | sentinel-worker/internal/worker/retention.go:56-97 | a cleanup is a path of the protocol, one step for each statement that takes effect |
| Refinement.AlertsStayInOrder | sentinel-worker/internal/worker/loop.go:38-95 | so alerts alternate and agree with the state wherever any sequence of cycles, cleanups and other writers leads |
| ProtocolResults.RetentionIsInvisible | sentinel-worker/internal/worker/retention.go:72-85 | in every run, at any later time, the public status is what it would be had nothing been deleted |
| CheckHistory.StatusCountsChecks | sentinel-api/src/status/public-status.service.ts:83-93 | so in every run the total and the healthy total that are published count exactly the checks ever committed in the window, and those whose probe was healthy |
| ProtocolResults.GuardedStatusIsWhole | sentinel-worker/internal/config/config.go:114-116 | under any accepted settings the configured window is never touched by retention |
| ProtocolResults.GuardIsNeeded | sentinel-worker/internal/config/config.go:114-116 | for any settings the guard rejects there is a database where one deletion changes the public status |
| PublicStatus.Summarize | sentinel-api/src/status/public-status.service.ts:83-93 | count, healthy count, and first and last check as the attained extremes of the window |
| PublicStatus.OneMoreRow | sentinel-api/src/status/public-status.service.ts:83-93 | one more check in the window counts once, as healthy if it is, and moves the extremes |
| PublicStatus.StatusIs | sentinel-api/src/status/public-status.service.ts:64-98 | listed are exactly the active public monitors of users that are no demo users, each with its state and the number, healthy number, first and last of its checks in the closed window, failed ones included |
| PublicStatus.UptimeIsPercentage | sentinel-api/src/status/public-status.service.ts:68-71 | the uptime is the exact share of healthy checks in percent, unknown without checks, in 0..100, and 100 exactly when all are healthy |
| Retention.BatchExists | sentinel-worker/internal/worker/retention.go:61-71 | an oldest-first batch of the requested size, or of all, always exists |
| Retention.BatchUnique | sentinel-worker/internal/worker/retention.go:61-71 | and the order by time and id determines it |
| Retention.DeleteBatch | sentinel-worker/internal/worker/retention.go:61-81 | one statement deletes exactly the oldest unlocked expired rows, up to the limit |
| Retention.CleanTable | sentinel-worker/internal/worker/retention.go:56-97 | with a moving cutoff, over every failure and cancellation: only rows expired at some statement go, oldest first when none is locked, a short batch leaves no unlocked expired row, and it fails exactly at the first failing statement, after that many full batches |
| Retention.RunRetentionPass | sentinel-worker/internal/worker/retention.go:35-54 | validation, the cap of ten batches, results before alerts, and nothing of alerts after an error on results |
| Retention.FixedClockPass | sentinel-worker/internal/worker/retention.go:72-97 | with fixed clock and no locks a pass removes exactly the oldest min(batches * size, expired) rows |
| Retention.PassesReachBulk | sentinel-worker/internal/worker/retention.go:72-97 | repeated passes reduce the expired rows by the quota and equal the bulk deletion exactly from the pass on at which the quota covers them |
| Retention.TakenIsRanked | sentinel-worker/internal/worker/retention.go:61-71 | a statement takes exactly the rows with fewer than the limit before them |
| Retention.SkippingLockedRows | sentinel-worker/internal/worker/retention.go:61-71 | skipping locked rows keeps the oldest-first order of the table if and only if every locked expired row comes after as many unlocked ones as the statement takes |
| Api.DeleteMonitor | sentinel-api/src/monitors/monitors.service.ts:136-157 | only the owner's monitor goes, with all its history and nothing else, or nothing changes; the worker's rely condition holds |
| Api.CreateMeetsRely | sentinel-api/src/monitors/monitors.service.ts:26-74 | creating a monitor meets the worker's rely condition |
| Api.CreateEffect | sentinel-api/src/monitors/monitors.service.ts:59-71 | creating stores what was asked for under a new id, active, private and unchecked, and touches no other row |
| Api.UpdateEffect | sentinel-api/src/monitors/monitors.service.ts:121-131 | an update stores each field that is given and changes nothing else |
| Api.UpdateMeetsRely | sentinel-api/src/monitors/monitors.service.ts:89-134 | so does any update |
| Schema.DeletingMeetsRely | sentinel-api/src/monitors/monitors.service.ts:150-154 | so does deleting any set of monitors: exactly these go, with exactly their results and alerts |
| Schema.RelyTransitive | sentinel-worker/internal/worker/loop.go:291-349 | and any sequence of such transactions |
| Seeding.FindSeed | sentinel-api/prisma/schema.prisma:61 | the row of a user with a seed key, or none has it |
| Seeding.UpsertEffect | sentinel-api/src/status/status-seed.ts:90-111 | one upsert writes the row of its key, creating it when missing, and no other |
| Seeding.UpsertAllEffect | sentinel-api/src/status/status-seed.ts:90-111 | the loop leaves one row per key with the item's values, other keys untouched, existing ids in place |
| Seeding.UpsertAllOthers | sentinel-api/src/demo/demo-seed.ts:54-73 | other users' rows are untouched, whatever the keys |
| Seeding.UpsertAllPrivate | sentinel-api/src/demo/demo-seed.ts:54-73 | private items publish nothing |
| Seeding.UpsertAllMeetsRely | sentinel-api/src/demo/demo-seed.ts:54-73 | a loop of upserts meets the worker's rely condition |
| StatusSeed.Validate | sentinel-api/src/status/status-seed.ts:19-41 | accepts exactly the manifests whose entries are valid and whose keys differ, and returns their keys |
| StatusSeed.HidesComplement | sentinel-api/src/status/status-seed.ts:113-123 | under SQL NULL semantics the three-way OR is the exact complement of the wanted rows, and without its middle part it is not |
| StatusSeed.PublishesExactly | sentinel-api/src/status/status-seed.ts:90-125 | on any database: public are exactly the owner's rows with a key of the manifest, each key has its row and values, other rows change at most in `is_public`, all ids survive |
| StatusSeed.ManifestIsPublished | sentinel-api/src/status/status-seed.ts:90-125 | in terms of the manifest: each entry has a public active http monitor of the owner with its name, target and frequency (60 when absent), each public monitor is one of these, no monitor is lost, and those not public change in nothing else |
| StatusSeed.HideEffect | sentinel-api/src/status/status-seed.ts:44-46 | hiding rows changes nothing but `is_public` of these |
| StatusSeed.SecondSeedChangesNothing | sentinel-api/src/status/status-seed.ts:90-125 | a second run changes nothing and hides none |
| StatusSeed.SeedMeetsRely | sentinel-api/src/status/status-seed.ts:43-125 | the seed meets the worker's rely condition, with an owner or without |
| StatusSeed.ManifestItems | sentinel-api/src/status/status-seed.ts:24-41 | an accepted manifest gives distinct keys and public rows |
| StatusSeed.FindUser | sentinel-api/src/status/status-seed.ts:58 | the account with an address, or none has it |
| StatusSeed.Seed | sentinel-api/src/status/status-seed.ts:18-134 | the whole seed with its checks: the reconciled database and the number hidden, everything hidden without an owner, or no change at all; addresses stay unique, and afterwards the owner's account is there, inactive, no demo account and with the disabled password |
| StatusSeed.SeedTwice | sentinel-api/src/status/status-seed.ts:58-134 | the start after one that succeeded accepts the account it made, succeeds, hides none and leaves the database as it is |
| StatusSeed.UpsertMany | sentinel-api/src/status/status-seed.ts:90-111 | the loop computes the specified upserts |
| Demo.ParseDemoManifest | sentinel-worker/internal/worker/demo_reset.go:44-60 | accepts exactly the nonempty manifests of complete entries with distinct keys |
| Demo.ResetRestoresManifest | sentinel-worker/internal/worker/demo_reset.go:108-126 | after a reset the account holds exactly the manifest's monitors, each with its key, name, target, type and frequency, active, private, unchecked and without history; other users' rows are untouched, and the rely condition holds |
| Demo.ResetKeepsKeys | sentinel-worker/internal/worker/demo_reset.go:108-126 | a reset never violates the unique index on owner and seed key |
| Demo.ResetDemoAccount | sentinel-worker/internal/worker/demo_reset.go:69-127 | the account is reset exactly when the commit takes effect and otherwise nothing changes; success exactly when nothing failed or there is no demo account |
| Demo.SeedDemo | sentinel-api/src/demo/demo-seed.ts:20-75 | statements commit one by one: a failure keeps exactly those before it, an invalid manifest changes nothing |
| Demo.SeedDemoKeeps | sentinel-api/src/demo/demo-seed.ts:35-73 | however far it gets, the demo seed publishes nothing, touches no other user's rows and meets the rely condition |
| Demo.DemoUserIs | sentinel-api/src/demo/demo-seed.ts:35-52 | the account under the address is a demo account with the new password afterwards, and every other account stays |
| Demo.SeedWrites | sentinel-api/src/demo/demo-seed.ts:54-73 | with distinct keys each monitor of the manifest has a row of the demo user with its values |
| Demo.SeedThenReset | sentinel-worker/internal/worker/demo_reset.go:93-126 | a seed makes an account that the next reset finds, and that reset leaves exactly the monitors of its own manifest |
| Startup.AccountsDiffer | sentinel-api/src/status/status-seed.ts:54-66 | different addresses give different accounts, and the owner's is no demo account |
| Startup.StartupPublishesExactly | sentinel-api/prisma/seed.ts:16-23 | after both seeds, in their order at startup, the public monitors are exactly the owner's of the status manifest, and none without an owner |
| Startup.StartupListsExactly | sentinel-api/src/status/public-status.service.ts:94-98 | and exactly these are listed by the public status: all are active and their owner is not the demo user |
| Startup.Start | sentinel-api/prisma/seed.ts:16-23 | the start itself: an error of the status seed ends it without a change, and after a status seed that succeeds, whatever becomes of the demo seed, exactly the monitors of the owner's account with a key of its manifest are public, and none without an owner |
| Config.DurationEnvIsExact | sentinel-worker/internal/config/config.go:38-47 | exactly the positive durations that fit are used, unwrapped; anything else is the fallback |
| Config.BoundedPositiveEnvAccepts | sentinel-worker/internal/config/config.go:57-67 | accepted exactly when unset or a number in 1..maximum |
| Config.WrappedAgeIsExact | sentinel-worker/internal/config/config.go:90-97 | the age sum wraps for no deadline up to the clamp and for every one above it |
| Config.HeartbeatBudget | sentinel-worker/internal/config/config.go:89-101 | the clamped deadline and the age, as unbounded arithmetic gives them, for every environment |
| Config.LoadRetention | sentinel-worker/internal/config/config.go:102-128 | the retention settings are accepted exactly when each is in range and the window fits the kept days |
| Config.Load | sentinel-worker/internal/config/config.go:69-148 | starts for exactly the acceptable environments, with settings that are in range and honour them |
| Config.ResetIntervalFits | sentinel-worker/internal/worker/demo_reset.go:62-67 | the reset interval is what was asked for if and only if the minutes are at most 153 722 867 |
| Config.TickerStarts | sentinel-worker/internal/worker/demo_reset.go:62-67 | over all minutes, the interval is positive if and only if the low 64 bits of the product are not zero and have no top bit |
| Config.IntervalVanishes | sentinel-worker/internal/worker/demo_reset.go:62-67 | it is zero if and only if the minutes are a multiple of 2^53 |
| Config.ResetIntervalWraps | sentinel-worker/internal/worker/demo_reset.go:62-67 | one input for each way out of range: a short interval, a negative one and none |
| Heartbeat.PublishHeartbeats | sentinel-worker/internal/health/health.go:17-23 | over a worker's life the file holds the time of its last heartbeat, and none before the first, whatever an earlier process left |
| Heartbeat.LastBeatIs | sentinel-worker/internal/worker/loop.go:84-88 | which is the last report or empty batch of every timely run |
| Heartbeat.Cell.Check | sentinel-worker/internal/health/health.go:56-73 | fresh exactly when there is a timestamp whose true age is within bounds, with a saturating subtraction; which error otherwise |
| Heartbeat.GapBound | sentinel-worker/internal/worker/loop.go:66-148 | over every timely run the last heartbeat is at most three deadlines, 17 seconds and three lags old |
| Heartbeat.GapIsAttained | sentinel-worker/internal/worker/loop.go:66-148 | and that bound is attained |
| Heartbeat.NeverStale | sentinel-worker/internal/config/config.go:95-101 | under any accepted settings the gap stays within the configured age, with a margin of ten seconds and one deadline for lateness |
| Heartbeat.LiveWorkerIsFresh | sentinel-worker/internal/health/health.go:56-73 | so the health check of a live worker succeeds from the first heartbeat on, and never finds a stale one |
| StatusCache.Service.GetPublicStatus | sentinel-api/src/status/public-status.service.ts:46-53 | a call up to its await: cached rows, the shared query, or a new one |
| StatusCache.Service.Resume | sentinel-api/src/status/public-status.service.ts:54-60 | publishing or not, and releasing the slot either way |
| StatusCache.Drive | sentinel-api/src/status/public-status.service.ts:46-61 | the service driven by calls, completions and failures runs through the states of the machine |
| StatusCache.CacheInvariant | sentinel-api/src/status/public-status.service.ts:46-61 | over every interleaving: one query in flight at most, none within the time to live of a success, the cache is the last success, and every answer is that of a fresh success or of the shared query |
| StatusCache.FailureKeepsCache | sentinel-api/src/status/public-status.service.ts:54-60 | a failed query leaves the cache alone and the next call starts a new one |
| ChartAxis.FloorLog10 | frontend/src/features/monitors/history/chart-geometry.ts:33 | the power of ten at or below a positive number |
| ChartAxis.FloorLog10Unique | frontend/src/features/monitors/history/chart-geometry.ts:33 | and there is only one |
| ChartAxis.NiceStepIsLeast | frontend/src/features/monitors/history/chart-geometry.ts:30-36 | the step is the least 1/2/5/10 multiple of a power of ten that is at least the rough one, and less than 2.5 times it |
| ChartAxis.Max0 | frontend/src/features/monitors/history/chart-geometry.ts:66-68 | the largest latency, or zero |
| ChartAxis.AxisCovers | frontend/src/features/monitors/history/chart-geometry.ts:68-70 | the axis ends at a multiple of the step that covers the largest latency, after 2 or 3 steps of the least nice number that is a third of it or more, or one of 0.5 when none is positive |
| ChartAxis.YIsAntitone | frontend/src/features/monitors/history/chart-geometry.ts:71 | latencies map strictly upside down, and into the plot exactly when the axis covers them |
| ChartAxis.XIsMonotone | frontend/src/features/monitors/history/chart-geometry.ts:72-77 | times map into the plot in order, strictly unless all are equal |
| ChartAxis.YTicks | frontend/src/features/monitors/history/chart-geometry.ts:114-119 | the tick loop ends exactly at the end of the axis, with 3 or 4 ticks, or 2 when no latency is positive |
| ChartAxis.PlaceTicks | frontend/src/features/monitors/history/chart-geometry.ts:116-118 | every multiple of the step up to the end, none beyond |
| ChartAxis.XTicks | frontend/src/features/monitors/history/chart-geometry.ts:101-113 | time ticks from the first time at the left end to the last at the right end, evenly spaced and each on the scale of the points; one in the middle when all times are equal |
| ChartAxis.TicksAreEven | frontend/src/features/monitors/history/chart-geometry.ts:105-111 | one tick for every 110 pixels, two at least, dividing plot and time evenly |
| ChartSegments.SortItems | frontend/src/features/monitors/history/chart-geometry.ts:54-61 | a sorted permutation of the rows |
| ChartSegments.OrderIsUnique | frontend/src/features/monitors/history/chart-geometry.ts:55-61 | and the only one |
| ChartSegments.RowsInOrder | frontend/src/features/monitors/history/chart-geometry.ts:54-61 | rows with a time first, by time, then id, then as they came; rows without one last, as they came |
| ChartSegments.PointsAreToScale | frontend/src/features/monitors/history/chart-geometry.ts:71-79 | every point is where its row belongs: x linear in the time between the first and the last, y linear in the latency on the axis |
| ChartSegments.ValidCount | frontend/src/features/monitors/history/chart-geometry.ts:62-64 | rows with a valid time are exactly a prefix |
| ChartSegments.PointsInOrder | frontend/src/features/monitors/history/chart-geometry.ts:72-79 | x is nondecreasing over valid points and stays in the plot |
| ChartSegments.PointsAreInside | frontend/src/features/monitors/history/chart-geometry.ts:71-79 | latencies that are not negative lie in the plot, larger ones higher |
| ChartSegments.CutPoints | frontend/src/features/monitors/history/chart-geometry.ts:82-99 | the pass gives the segmentation (nonempty runs covering exactly the drawn points, neighbours together exactly when both are drawn and not too far apart) and one gap per pair too far apart |
| ChartSegments.GrowSegments | frontend/src/features/monitors/history/chart-geometry.ts:85-98 | one more point keeps the runs so far a segmentation |
| ChartSegments.SegmentsAreDetermined | frontend/src/features/monitors/history/chart-geometry.ts:82-99 | that description determines the segments, and put together they are the drawn points |
| ChartSegments.GapsAreDetermined | frontend/src/features/monitors/history/chart-geometry.ts:89-96 | and the gaps |
| ChartSegments.SegmentationIsUnique | frontend/src/features/monitors/history/chart-geometry.ts:82-99 | there is no other segmentation |
| ChartSegments.SegmentsAreDrawnPoints | frontend/src/features/monitors/history/chart-geometry.ts:82-99 | put together, the segments are exactly the drawn points in order |
| ChartSegments.ScalesAreOfRows | frontend/src/features/monitors/history/chart-geometry.ts:62-70 | the time axis runs from the first time of a row to the last, and the latency axis covers every latency |
| ChartSegments.AxisIsOfLargest | frontend/src/features/monitors/history/chart-geometry.ts:66-70 | the latency axis is that of the largest latency of a row, or of zero |
| ChartSegments.BuildLatencyChart | frontend/src/features/monitors/history/chart-geometry.ts:45-121 | the chart by its rows: a point for each, with its time; runs that cover exactly the measured rows, two neighbours in one exactly when their times are near enough; a gap for each two that are not, with the time between them, half way between their points; and the ticks of both axes |
| ChartSegments.GapsAreLong | frontend/src/features/monitors/history/chart-geometry.ts:80-96 | every gap is the time between two neighbouring rows, longer than three times the frequency, and lies in the plot; without a frequency there are none |
| ChartSegments.CloseNeighboursMeet | frontend/src/features/monitors/history/chart-geometry.ts:80-98 | two neighbouring measured rows share a segment exactly when their times are at most three times the frequency apart |
| Freshness.StaleFromExpiry | frontend/src/lib/datetime.ts:53-64 | the staleness predicate turns true exactly at the expiry the timer is set for, twice the frequency, or a minute when that is less, and a millisecond after the check |
| Freshness.Delay | frontend/src/features/monitors/useMonitorFreshness.ts:18-23 | every delay is in (0, 30000] milliseconds, and ends at the expiry when that comes before |
| Freshness.Hook.Arm | frontend/src/features/monitors/useMonitorFreshness.ts:16-26 | the effect sets the timer for that delay |
| Freshness.ShownSample | frontend/src/features/monitors/useMonitorFreshness.ts:13-14 | over every run, the clock shown is the time of the last render before which no input changed |
| Freshness.Render | frontend/src/features/monitors/useMonitorFreshness.ts:12-28 | the component driven through a run shows that clock, with its timer set |
| Freshness.TurnAgrees | frontend/src/features/monitors/useMonitorFreshness.ts:16-28 | while a render stands the flag is right at every instant if and only if the expiry did not fall between the sample and the effect |
| Freshness.WrongMeansMissed | frontend/src/features/monitors/useMonitorFreshness.ts:16-28 | a wrong flag says fresh for stale, and only until 30 seconds after the effect |
| Freshness.LateTimersOnly | frontend/src/features/monitors/useMonitorFreshness.ts:16-28 | with timers that fire late, a flag that missed nothing is wrong at most from the due time on |
| Freshness.RunAgrees | frontend/src/features/monitors/useMonitorFreshness.ts:16-28 | over every run, whatever the inputs do: the flag is right at every instant if and only if no expiry falls between the last sample, turns ago or not, and the effect |
| Freshness.PromptEffectsAgree | frontend/src/features/monitors/useMonitorFreshness.ts:16-28 | with effects in the millisecond of their render the flag is always right if and only if no input change arrives expired |
| Freshness.MissedAtMostOnce | frontend/src/features/monitors/useMonitorFreshness.ts:16-28 | with fixed inputs the expiry is missed at most once and made good by the next sample |
| Freshness.LagReaches | frontend/src/features/monitors/useMonitorFreshness.ts:16-28 | the clock comes to lag by any given bound within a render if and only if the renders since the one that sampled it last longer together; one render alone lasts at most 30 seconds and the latency of its effect |
| Freshness.NeverSampledAgain | frontend/src/features/monitors/useMonitorFreshness.ts:24-26 | the first sample stays for a whole run if and only if every render brings a change of the inputs |
| Freshness.OneMillisecondMisses | frontend/src/features/monitors/useMonitorFreshness.ts:16-28 | one millisecond between sample and effect shows a stale monitor as fresh for 30 seconds |
| Freshness.ClockCanStandStill | frontend/src/features/monitors/useMonitorFreshness.ts:24-26 | inputs that change often enough stop the clock for as long as they do |

## Left out

- CheckHistory.RowFollowsChecks: says nothing of a monitor whose counter a seed resets in between, where `CheckHistory.NoFalseAlarm` still holds.
- Heartbeat.GapBound: fetches and transactions that fail write no heartbeat and are excluded, as the property is about a worker that keeps its deadlines.
- Freshness.RunAgrees: covers timers that fire on time; `Freshness.LateTimersOnly` says what a late one does.
- HTTP probes, DNS, TLS, address filtering and the checker registry: a probe is any result, a checker error, or an unknown type.
- The status code, latency, sample and error text of results, and the configuration of checks: stored as they come, read by nothing modelled here.
- Locks, isolation levels and query plans of PostgreSQL, and two transactions writing one row at once.
- The monitor quota and the minimum frequency of the API: the quota is checked before the insert and does not hold under concurrent creates.
- Authentication, throttling, routing and password hashing.
- The order of the lines of the public status by name: the answer is a map by monitor.
- The reading of the cache settings by the API, which only validates two numbers.
- Tick labels and floating-point rounding.
- A clock supplied by the caller instead of the sampled one.
- Parsing of dates, JSON and environment text: an optional value that the model takes as given.
