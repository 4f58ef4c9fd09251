/** The monitoring engine as one state machine over the shared database: poll cycles, checks,
    retention and restarts of the single worker, interleaved with every other writer.

    Assumed: one worker process, one clock that does not go back and that moves on between a
    commit and the next fetch, transactions that take effect at commit and are settled when the
    work function that issued them returns. */
module Protocol {
  import opened Schema
  import opened Fsm
  import opened Persist
  import opened Dispatcher
  import opened Retention

  const SECOND := 1_000_000

  /** One entry of a monitor's complete check history: the id, time and state of its result, the
      frequency in force at the fetch, and the failure threshold. */
  datatype Check = Check(id: nat, at: int, frequency: int, probe: State, threshold: int)

  /** One entry of a monitor's complete alert log. */
  datatype Entry = Entry(id: nat, kind: AlertKind, at: int)

  /** `persisted` are the jobs of the batch whose transaction has committed. */
  datatype Worker = Idle | Running(jobs: seq<Job>, fetchedAt: int, cycle: Cycle, persisted: set<nat>)

  /** `checks`, `log` and `archive` are history: what was ever committed, whatever retention removed. */
  datatype Sys = Sys(
    db: Db, clock: int, worker: Worker,
    checks: map<nat, seq<Check>>, log: map<nat, seq<Entry>>, archive: map<nat, CheckResult>)

  /** The history of one monitor, empty for one that has none. */
  function Of<T>(histories: map<nat, seq<T>>, id: nat): seq<T> { if id in histories then histories[id] else [] }

  // ----- Actions -----

  /** state = 'Active' AND (last_checked_at IS NULL OR last_checked_at + frequency <= NOW()) */
  predicate Due(row: Monitor, now: int) {
    row.active && (row.lastCheckedAt.None? || row.lastCheckedAt.value + row.frequency * SECOND <= now)
  }

  ghost predicate DistinctIds(jobs: seq<Job>) {
    forall j, k :: 0 <= j < k < |jobs| ==> jobs[j].id != jobs[k].id
  }

  ghost predicate Lists(jobs: seq<Job>, id: nat) { exists k :: 0 <= k < |jobs| && jobs[k].id == id }

  /** Exactly the due monitors, in some order, as they are now. */
  ghost predicate IsDueList(db: Db, now: int, jobs: seq<Job>) {
    && DistinctIds(jobs)
    && (forall k :: 0 <= k < |jobs| ==>
          jobs[k].id in db.monitors && jobs[k].row == db.monitors[jobs[k].id] && Due(jobs[k].row, now))
    && (forall id :: id in db.monitors && Due(db.monitors[id], now) ==> Lists(jobs, id))
  }

  /** Listed are the active monitors that were never checked, or whose frequency in seconds has passed
      since. */
  ghost predicate ListsDue(db: Db, now: int, jobs: seq<Job>) {
    forall id :: id in db.monitors ==>
      (Lists(jobs, id) <==>
        && db.monitors[id].active
        && (db.monitors[id].lastCheckedAt != None ==>
              now - db.monitors[id].lastCheckedAt.value >= db.monitors[id].frequency * 1_000_000))
  }

  lemma DueListIs(db: Db, now: int, jobs: seq<Job>)
    requires IsDueList(db, now, jobs)
    ensures ListsDue(db, now, jobs)
  {
  }

  /** Since every check that was committed, the clock has moved on. */
  ghost predicate TimePassed(db: Db, now: int) {
    forall id :: id in db.monitors && db.monitors[id].lastCheckedAt.Some? ==>
      db.monitors[id].lastCheckedAt.value < now
  }

  function DueIds(db: Db, now: int): set<nat> {
    set id | id in db.monitors && Due(db.monitors[id], now)
  }

  /** The query and its scan: the rows arrive in any order, and an error at one of them fails the
      fetch.  Otherwise it gives each due monitor once, as it is now. */
  method FetchDueMonitors(db: Db, now: int, fails: nat) returns (ok: bool, jobs: seq<Job>)
    ensures ok <==> fails >= |DueIds(db, now)|
    ensures ok ==> IsDueList(db, now, jobs)
    ensures ok ==> ListsDue(db, now, jobs)
  {
    jobs := [];
    var rows := DueIds(db, now);
    while rows != {}
      invariant rows <= DueIds(db, now) && |jobs| + |rows| == |DueIds(db, now)| && |jobs| <= fails
      invariant DistinctIds(jobs)
      invariant forall k :: 0 <= k < |jobs| ==>
        jobs[k].id in DueIds(db, now) - rows && jobs[k].row == db.monitors[jobs[k].id]
      invariant forall id :: id in DueIds(db, now) && id !in rows ==> Lists(jobs, id)
      decreases |rows|
    {
      if |jobs| == fails { return false, jobs; }
      var id :| id in rows;
      ListsMore(jobs, Job(id, db.monitors[id]));
      jobs := jobs + [Job(id, db.monitors[id])];
      rows := rows - {id};
    }
    assert forall id :: id in db.monitors && Due(db.monitors[id], now) ==> id in DueIds(db, now);
    DueListIs(db, now, jobs);
    return true, jobs;
  }

  lemma ListsMore(jobs: seq<Job>, job: Job)
    ensures Lists(jobs + [job], job.id) && forall id :: Lists(jobs, id) ==> Lists(jobs + [job], id)
  {
    assert (jobs + [job])[|jobs|] == job;
    forall id | Lists(jobs, id) ensures Lists(jobs + [job], id) {
      var k :| 0 <= k < |jobs| && jobs[k].id == id;
      assert (jobs + [job])[k].id == id;
    }
  }

  /** The actions of the machine; `Environment` is a committed transaction of any other writer. */
  datatype Action =
    | Tick(to: int)
    | Fetch(jobs: seq<Job>, limit: nat)
    | Commit(job: nat, probe: State, threshold: int, at: int)
    | Dispatching(event: Event)
    | EndCycle
    | Restart
    | Environment(db: Db)
    | RetainResults(taken: set<nat>, readAt: int, days: int)
    | RetainAlerts(taken: set<nat>, readAt: int, days: int, limit: nat, locked: set<nat>)

  /** The logs once an evaluation of a monitor is committed. */
  function NewLog(log: map<nat, seq<Entry>>, id: nat, e: Evaluation, nextAlert: nat, at: int): map<nat, seq<Entry>> {
    if e.alert.None? then log else log[id := Of(log, id) + [Entry(nextAlert, e.alert.value, at)]]
  }

  /** The check of `job` that the next result belongs to. */
  function NextCheck(s: Sys, job: Job, probe: State, threshold: int, at: int): Check {
    Check(s.db.nextResult, at, job.row.frequency, probe, threshold)
  }

  /** A check of `job` is committed, at `at`: the row, the result and the alert, and their history. */
  function Landed(s: Sys, job: Job, probe: State, threshold: int, at: int): Sys
    requires job.id in s.db.monitors
  {
    s.(db := Persisted(s.db, job, probe, threshold, at),
       checks := s.checks[job.id := Of(s.checks, job.id) + [NextCheck(s, job, probe, threshold, at)]],
       log := NewLog(s.log, job.id, EvaluateFsm(job.row.lastState, job.row.failures, probe, threshold),
                     s.db.nextAlert, at),
       archive := s.archive[s.db.nextResult := CheckResult(job.id, probe, at)])
  }

  /** Job j of the batch is committed; `at` is read after the probe and before the transaction. */
  function Committed(s: Sys, j: nat, probe: State, threshold: int, at: int): Sys
    requires s.worker.Running? && j < |s.worker.jobs| && s.worker.jobs[j].id in s.db.monitors
  {
    Landed(s, s.worker.jobs[j], probe, threshold, at).(
      worker := s.worker.(persisted := s.worker.persisted + {j}))
  }

  /** `window` is the span the public status looks back over; retention always keeps at least that. */
  ghost predicate Next(window: int, s: Sys, s': Sys, action: Action) {
    match action
    case Tick(to) => s.clock <= to && s' == s.(clock := to)
    case Fetch(jobs, limit) =>
      && s.worker.Idle? && TimePassed(s.db, s.clock)
      && IsDueList(s.db, s.clock, jobs) && jobs != [] && limit > 0
      && s' == s.(worker := Running(jobs, s.clock, Open(|jobs|, limit), {}))
    case Commit(j, probe, threshold, at) =>
      && s.worker.Running? && j in s.worker.cycle.active && j !in s.worker.persisted
      && j < |s.worker.jobs| && s.worker.jobs[j].id in s.db.monitors
      && s.worker.fetchedAt <= at <= s.clock
      && s' == Committed(s, j, probe, threshold, at)
    case Dispatching(event) =>
      && s.worker.Running? && Enabled(s.worker.cycle, event)
      && s' == s.(worker := s.worker.(cycle := Step(s.worker.cycle, event)))
    case EndCycle => s.worker.Running? && s.worker.cycle.active == {} && s' == s.(worker := Idle)
    case Restart => s' == s.(worker := Idle)
    case Environment(db') => Rely(s.db, db') && s' == s.(db := db')
    case RetainResults(taken, readAt, days) =>
      && readAt <= s.clock && window <= days * DAY
      && taken <= Expired(StampsOf(s.db, CheckResults), Cutoff(readAt, days))
      && s' == s.(db := Purge(s.db, CheckResults, taken))
    case RetainAlerts(taken, readAt, days, limit, locked) =>
      && readAt <= s.clock
      && Batch(StampsOf(s.db, Alerts), Expired(StampsOf(s.db, Alerts), Cutoff(readAt, days)) - locked, limit, taken)
      && s' == s.(db := Purge(s.db, Alerts, taken))
  }

  ghost predicate Init(s: Sys) {
    s.db == EMPTY_DB && s.worker.Idle? && s.checks == map[] && s.log == map[] && s.archive == map[]
  }

  ghost predicate Follows(window: int, s: Sys, s': Sys) {
    exists action :: Next(window, s, s', action)
  }

  ghost predicate FollowsAt(window: int, run: seq<Sys>, i: int)
    requires 0 <= i < |run| - 1
  {
    Follows(window, run[i], run[i + 1])
  }

  /** A run: every state follows from the one before it by some action. */
  ghost predicate IsRun(window: int, run: seq<Sys>) {
    && |run| > 0 && Init(run[0])
    && forall i :: 0 <= i < |run| - 1 ==> FollowsAt(window, run, i)
  }

  // ----- The invariant -----

  /** Later and later, each at least its frequency after the one before. */
  ghost predicate Spaced(checks: seq<Check>) {
    && (forall k :: 0 <= k < |checks| - 1 ==> checks[k].at + checks[k + 1].frequency * SECOND <= checks[k + 1].at)
    && (forall j, k :: 0 <= j < k < |checks| ==> checks[j].id < checks[k].id && checks[j].at < checks[k].at)
  }

  /** Down first, then in turn. */
  ghost predicate DownFirst(log: seq<Entry>) {
    forall k :: 0 <= k < |log| ==> InTurn(log[k].kind, k)
  }

  /** Down first, then alternating, in the order of ids and of times. */
  ghost predicate Alternates(log: seq<Entry>) {
    && DownFirst(log)
    && (forall j, k :: 0 <= j < k < |log| ==> log[j].id < log[k].id && log[j].at <= log[k].at)
  }

  ghost predicate Histories(nextMonitor: nat, nextAlert: nat, checks: map<nat, seq<Check>>, log: map<nat, seq<Entry>>) {
    && (forall id :: id in checks ==> id < nextMonitor && Spaced(checks[id]))
    && (forall id :: id in log ==> id < nextMonitor && Alternates(log[id]))
    && (forall id, k :: id in log && 0 <= k < |log[id]| ==> log[id][k].id < nextAlert)
  }

  /** A result of some time is in a monitor's check history. */
  ghost predicate InChecks(checks: seq<Check>, r: nat, at: int) {
    exists k :: 0 <= k < |checks| && checks[k].id == r && checks[k].at == at
  }

  /** Every result ever committed is in the history of its monitor, under its own id. */
  ghost predicate Recorded(archive: map<nat, CheckResult>, checks: map<nat, seq<Check>>, nextResult: nat) {
    && (forall r :: r in archive ==> InChecks(Of(checks, archive[r].monitorId), r, archive[r].createdAt))
    && (forall id, k :: id in checks && 0 <= k < |checks[id]| ==> checks[id][k].id < nextResult)
  }

  /** A live row is what its history says. */
  ghost predicate RowMatches(row: Monitor, checks: seq<Check>, log: seq<Entry>, clock: int) {
    && row.lastCheckedAt == (if checks == [] then None else Some(checks[|checks| - 1].at))
    && (checks != [] ==> checks[|checks| - 1].at <= clock)
    && (row.lastState == Some(Unhealthy) <==> |log| % 2 == 1)
    && (log != [] ==> checks != [] && log[|log| - 1].at <= checks[|checks| - 1].at)
  }

  ghost predicate LiveRows(monitors: map<nat, Monitor>, checks: map<nat, seq<Check>>, log: map<nat, seq<Entry>>,
                           clock: int) {
    forall id :: id in monitors ==> RowMatches(monitors[id], Of(checks, id), Of(log, id), clock)
  }

  ghost predicate InLog(log: seq<Entry>, id: nat, alert: Alert) {
    exists k :: 0 <= k < |log| && log[k] == Entry(id, alert.kind, alert.createdAt)
  }

  /** The kept alerts of a monitor are the end of its log. */
  ghost predicate KeepsSuffix(alerts: map<nat, Alert>, log: seq<Entry>) {
    forall j, k :: 0 <= j < k < |log| && log[j].id in alerts ==> log[k].id in alerts
  }

  /** Alert ids in one monitor's log belong to that monitor. */
  ghost predicate OwnLog(alerts: map<nat, Alert>, id: nat, log: seq<Entry>) {
    forall k :: 0 <= k < |log| && log[k].id in alerts ==> alerts[log[k].id].monitorId == id
  }

  ghost predicate StoredAlerts(monitors: map<nat, Monitor>, alerts: map<nat, Alert>, log: map<nat, seq<Entry>>) {
    && (forall a :: a in alerts ==> InLog(Of(log, alerts[a].monitorId), a, alerts[a]))
    && (forall id :: id in monitors ==> OwnLog(alerts, id, Of(log, id)))
  }

  ghost predicate ResultIsOld(monitors: map<nat, Monitor>, r: CheckResult) {
    r.monitorId in monitors ==>
      monitors[r.monitorId].lastCheckedAt.Some? && r.createdAt <= monitors[r.monitorId].lastCheckedAt.value
  }

  ghost predicate StoredResults(results: map<nat, CheckResult>, archive: map<nat, CheckResult>, nextResult: nat,
                                monitors: map<nat, Monitor>, nextMonitor: nat, horizon: int) {
    && (forall r :: r in archive ==> r < nextResult && archive[r].monitorId < nextMonitor)
    && (forall r :: r in archive ==> ResultIsOld(monitors, archive[r]))
    && (forall r :: r in results ==> r in archive && archive[r] == results[r])
    && (forall r :: r in archive && r !in results && archive[r].monitorId in monitors ==>
          archive[r].createdAt < horizon)
  }

  /** No lost update: what a job of the batch was fetched with is what its row still says. */
  ghost predicate Fresh(monitors: map<nat, Monitor>, job: Job) {
    job.id in monitors ==>
      && monitors[job.id].lastState == job.row.lastState
      && monitors[job.id].lastCheckedAt == job.row.lastCheckedAt
  }

  /** The job was due when it was fetched, and not checked after that. */
  ghost predicate FetchedDue(job: Job, fetchedAt: int) {
    && Due(job.row, fetchedAt)
    && (job.row.lastCheckedAt.Some? ==> job.row.lastCheckedAt.value < fetchedAt)
  }

  ghost predicate BatchOk(w: Worker, clock: int, monitors: map<nat, Monitor>, nextMonitor: nat) {
    w.Running? ==>
      && Sound(w.cycle) && w.cycle.n == |w.jobs| && w.cycle.limit > 0
      && DistinctIds(w.jobs) && w.fetchedAt <= clock
      && (forall k :: 0 <= k < |w.jobs| ==> w.jobs[k].id < nextMonitor && FetchedDue(w.jobs[k], w.fetchedAt))
      && (forall k :: 0 <= k < |w.jobs| && k !in w.persisted ==> Fresh(monitors, w.jobs[k]))
  }

  ghost predicate Inv(window: int, s: Sys) {
    && Linked(s.db)
    && Histories(s.db.nextMonitor, s.db.nextAlert, s.checks, s.log)
    && Recorded(s.archive, s.checks, s.db.nextResult)
    && LiveRows(s.db.monitors, s.checks, s.log, s.clock)
    && StoredAlerts(s.db.monitors, s.db.alerts, s.log)
    && StoredResults(s.db.results, s.archive, s.db.nextResult, s.db.monitors, s.db.nextMonitor, s.clock - window)
    && BatchOk(s.worker, s.clock, s.db.monitors, s.db.nextMonitor)
  }
}
