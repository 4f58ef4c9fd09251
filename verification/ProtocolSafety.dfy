/** The invariant of the protocol holds in every state of every run. */
module ProtocolSafety {
  import opened Schema
  import opened Fsm
  import opened Persist
  import opened Dispatcher
  import opened Retention
  import opened Protocol

  // ----- The clock, fetching and dispatching -----

  lemma TickKeeps(window: int, s: Sys, to: int)
    requires Inv(window, s) && s.clock <= to
    ensures Inv(window, s.(clock := to))
  {
    assert LiveRows(s.db.monitors, s.checks, s.log, to) by {
      forall id | id in s.db.monitors
        ensures RowMatches(s.db.monitors[id], Of(s.checks, id), Of(s.log, id), to)
      {
        assert RowMatches(s.db.monitors[id], Of(s.checks, id), Of(s.log, id), s.clock);
      }
    }
    LaterHorizon(s.db.results, s.archive, s.db.nextResult, s.db.monitors, s.db.nextMonitor,
      s.clock - window, to - window);
    assert BatchOk(s.worker, to, s.db.monitors, s.db.nextMonitor);
  }

  lemma LaterHorizon(results: map<nat, CheckResult>, archive: map<nat, CheckResult>, nextResult: nat,
                     monitors: map<nat, Monitor>, nextMonitor: nat, horizon: int, horizon': int)
    requires StoredResults(results, archive, nextResult, monitors, nextMonitor, horizon) && horizon <= horizon'
    ensures StoredResults(results, archive, nextResult, monitors, nextMonitor, horizon')
  {
  }

  lemma FetchedBatchOk(s: Sys, jobs: seq<Job>, limit: nat)
    requires Linked(s.db) && LiveRows(s.db.monitors, s.checks, s.log, s.clock)
    requires TimePassed(s.db, s.clock) && IsDueList(s.db, s.clock, jobs) && limit > 0
    ensures BatchOk(Running(jobs, s.clock, Open(|jobs|, limit), {}), s.clock, s.db.monitors, s.db.nextMonitor)
  {
    forall k | 0 <= k < |jobs| ensures FetchedDue(jobs[k], s.clock) {
      var id := jobs[k].id;
      assert RowMatches(s.db.monitors[id], Of(s.checks, id), Of(s.log, id), s.clock);
    }
  }

  lemma FetchKeeps(window: int, s: Sys, jobs: seq<Job>, limit: nat)
    requires Inv(window, s) && TimePassed(s.db, s.clock) && IsDueList(s.db, s.clock, jobs) && limit > 0
    ensures Inv(window, s.(worker := Running(jobs, s.clock, Open(|jobs|, limit), {})))
  {
    FetchedBatchOk(s, jobs, limit);
  }

  lemma DispatchKeeps(window: int, s: Sys, event: Event)
    requires Inv(window, s) && s.worker.Running? && Enabled(s.worker.cycle, event)
    ensures Inv(window, s.(worker := s.worker.(cycle := Step(s.worker.cycle, event))))
  {
    StepIsSound(s.worker.cycle, event);
  }

  lemma IdleKeeps(window: int, s: Sys)
    requires Inv(window, s)
    ensures Inv(window, s.(worker := Idle))
  {
  }

  // ----- Other writers -----

  lemma EnvironmentKeeps(window: int, s: Sys, db': Db)
    requires Inv(window, s) && Rely(s.db, db')
    ensures Inv(window, s.(db := db'))
  {
    RelyKeepsLinked(s.db, db');
    RelyKeepsRows(s, db');
    RelyKeepsAlerts(s, db');
    RelyKeepsResults(s, db', s.clock - window);
    RelyKeepsBatch(s, db');
  }

  lemma RelyKeepsRows(s: Sys, db': Db)
    requires Rely(s.db, db') && Histories(s.db.nextMonitor, s.db.nextAlert, s.checks, s.log)
    requires LiveRows(s.db.monitors, s.checks, s.log, s.clock)
    ensures Histories(db'.nextMonitor, db'.nextAlert, s.checks, s.log)
    ensures LiveRows(db'.monitors, s.checks, s.log, s.clock)
  {
    forall id | id in db'.monitors
      ensures RowMatches(db'.monitors[id], Of(s.checks, id), Of(s.log, id), s.clock)
    {
      if id in s.db.monitors {
        assert RowMatches(s.db.monitors[id], Of(s.checks, id), Of(s.log, id), s.clock);
      } else {
        assert id !in s.checks && id !in s.log;
      }
    }
  }

  lemma RelyKeepsAlerts(s: Sys, db': Db)
    requires Rely(s.db, db') && Histories(s.db.nextMonitor, s.db.nextAlert, s.checks, s.log)
    requires StoredAlerts(s.db.monitors, s.db.alerts, s.log) && Linked(s.db)
    ensures StoredAlerts(db'.monitors, db'.alerts, s.log)
  {
    forall id | id in db'.monitors ensures OwnLog(db'.alerts, id, Of(s.log, id)) {
      if id in s.db.monitors {
        assert OwnLog(s.db.alerts, id, Of(s.log, id));
      } else {
        assert id !in s.log;
      }
    }
  }

  lemma RelyKeepsResults(s: Sys, db': Db, horizon: int)
    requires Rely(s.db, db')
    requires StoredResults(s.db.results, s.archive, s.db.nextResult, s.db.monitors, s.db.nextMonitor, horizon)
    ensures StoredResults(db'.results, s.archive, db'.nextResult, db'.monitors, db'.nextMonitor, horizon)
  {
    forall r | r in s.archive ensures ResultIsOld(db'.monitors, s.archive[r]) {
      assert ResultIsOld(s.db.monitors, s.archive[r]);
    }
  }

  lemma RelyKeepsBatch(s: Sys, db': Db)
    requires Rely(s.db, db') && BatchOk(s.worker, s.clock, s.db.monitors, s.db.nextMonitor)
    ensures BatchOk(s.worker, s.clock, db'.monitors, db'.nextMonitor)
  {
    if s.worker.Running? {
      forall k | 0 <= k < |s.worker.jobs| && k !in s.worker.persisted
        ensures Fresh(db'.monitors, s.worker.jobs[k])
      {
        assert Fresh(s.db.monitors, s.worker.jobs[k]);
      }
    }
  }

  // ----- Retention -----

  lemma RetainResultsKeeps(window: int, s: Sys, taken: set<nat>, readAt: int, days: int)
    requires Inv(window, s) && readAt <= s.clock && window <= days * DAY
    requires taken <= Expired(StampsOf(s.db, CheckResults), Cutoff(readAt, days))
    ensures Inv(window, s.(db := Purge(s.db, CheckResults, taken)))
  {
    TakenIsOld(s.db, taken, Cutoff(readAt, days), s.clock - window);
    FewerResults(s.db.results, s.archive, s.db.nextResult, s.db.monitors, s.db.nextMonitor, s.clock - window, taken);
  }

  lemma TakenIsOld(db: Db, taken: set<nat>, cutoff: int, horizon: int)
    requires taken <= Expired(StampsOf(db, CheckResults), cutoff) && cutoff <= horizon
    ensures forall r :: r in taken && r in db.results ==> db.results[r].createdAt < horizon
  {
  }

  lemma FewerResults(results: map<nat, CheckResult>, archive: map<nat, CheckResult>, nextResult: nat,
                     monitors: map<nat, Monitor>, nextMonitor: nat, horizon: int, taken: set<nat>)
    requires StoredResults(results, archive, nextResult, monitors, nextMonitor, horizon)
    requires forall r :: r in taken && r in results ==> results[r].createdAt < horizon
    ensures StoredResults(results - taken, archive, nextResult, monitors, nextMonitor, horizon)
  {
  }

  /** Which alerts go does not matter here, locked ones skipped or not. */
  lemma RetainAlertsKeeps(window: int, s: Sys, taken: set<nat>)
    requires Inv(window, s)
    ensures Inv(window, s.(db := Purge(s.db, Alerts, taken)))
  {
    FewerAlerts(s.db.monitors, s.db.alerts, s.log, taken);
  }

  lemma FewerAlerts(monitors: map<nat, Monitor>, alerts: map<nat, Alert>, log: map<nat, seq<Entry>>, taken: set<nat>)
    requires StoredAlerts(monitors, alerts, log)
    ensures StoredAlerts(monitors, alerts - taken, log)
  {
    forall id | id in monitors ensures OwnLog(alerts - taken, id, Of(log, id)) {
      assert OwnLog(alerts, id, Of(log, id));
    }
  }

  // ----- A committed check -----

  /** One more check of a monitor, in its row and both its histories. */
  lemma OneMoreCheck(job: Job, row: Monitor, checks: seq<Check>, log: seq<Entry>, clock: int, fetchedAt: int,
                     e: Evaluation, check: Check, nextAlert: nat)
    requires Spaced(checks) && Alternates(log) && RowMatches(row, checks, log, clock)
    requires forall k :: 0 <= k < |log| ==> log[k].id < nextAlert
    requires forall k :: 0 <= k < |checks| ==> checks[k].id < check.id
    requires FetchedDue(job, fetchedAt) && fetchedAt <= check.at <= clock && check.frequency == job.row.frequency
    requires row.lastState == job.row.lastState && row.lastCheckedAt == job.row.lastCheckedAt
    requires IsTransition(row.lastState, e)
    ensures Spaced(checks + [check]) && Alternates(Logged(log, e, nextAlert, check.at))
    ensures RowMatches(Checked(row, e, check.at), checks + [check], Logged(log, e, nextAlert, check.at), clock)
  {
    SpacedMore(checks, check);
    if e.alert.Some? { AlternatesMore(log, Entry(nextAlert, e.alert.value, check.at)); }
    RowMatchesMore(row, checks, log, clock, e, check.at, nextAlert, check);
  }

  /** The alert of an evaluation is exactly a change of being down. */
  ghost predicate IsTransition(prior: Option<State>, e: Evaluation) {
    && (e.alert == Some(Down) <==> prior != Some(Unhealthy) && e.state == Some(Unhealthy))
    && (e.alert == Some(Recovery) <==> prior == Some(Unhealthy) && e.state != Some(Unhealthy))
  }

  /** The log after an evaluation. */
  function Logged(log: seq<Entry>, e: Evaluation, nextAlert: nat, at: int): seq<Entry> {
    if e.alert.None? then log else log + [Entry(nextAlert, e.alert.value, at)]
  }

  lemma RowMatchesMore(row: Monitor, checks: seq<Check>, log: seq<Entry>, clock: int, e: Evaluation, at: int,
                       nextAlert: nat, check: Check)
    requires RowMatches(row, checks, log, clock) && at <= clock && check.at == at && IsTransition(row.lastState, e)
    requires row.lastCheckedAt.Some? ==> row.lastCheckedAt.value <= at
    ensures RowMatches(Checked(row, e, at), checks + [check], Logged(log, e, nextAlert, at), clock)
  {
    assert e.alert.Some? ==> e.alert.value == Down || e.alert.value == Recovery;
  }

  lemma AlternatesMore(log: seq<Entry>, entry: Entry)
    requires Alternates(log) && InTurn(entry.kind, |log|)
    requires forall k :: 0 <= k < |log| ==> log[k].id < entry.id
    requires log != [] ==> log[|log| - 1].at <= entry.at
    ensures Alternates(log + [entry])
  {
    var longer := log + [entry];
    forall j, k | 0 <= j < k < |longer| ensures longer[j].id < longer[k].id && longer[j].at <= longer[k].at {
      if k == |log| {
        assert log[j].at <= log[|log| - 1].at;
      }
    }
  }

  lemma SpacedMore(checks: seq<Check>, c: Check)
    requires Spaced(checks)
    requires checks != [] ==>
      checks[|checks| - 1].at < c.at && checks[|checks| - 1].at + c.frequency * SECOND <= c.at
    requires forall k :: 0 <= k < |checks| ==> checks[k].id < c.id
    ensures Spaced(checks + [c])
  {
    var longer := checks + [c];
    forall k | 0 <= k < |longer| - 1 ensures longer[k].at + longer[k + 1].frequency * SECOND <= longer[k + 1].at {
      if k < |checks| - 1 {
        assert longer[k] == checks[k] && longer[k + 1] == checks[k + 1];
      }
    }
    forall j, k | 0 <= j < k < |longer| ensures longer[j].id < longer[k].id && longer[j].at < longer[k].at {
      if k == |checks| && j < |checks| - 1 { assert checks[j].at < checks[|checks| - 1].at; }
    }
  }

  lemma OfNewLog(log: map<nat, seq<Entry>>, id: nat, e: Evaluation, nextAlert: nat, at: int)
    ensures Of(NewLog(log, id, e, nextAlert, at), id) == Logged(Of(log, id), e, nextAlert, at)
    ensures forall i :: i != id ==> Of(NewLog(log, id, e, nextAlert, at), i) == Of(log, i)
  {
  }

  lemma RowUpdated(monitors: map<nat, Monitor>, checks: map<nat, seq<Check>>, log: map<nat, seq<Entry>>, clock: int,
                   id: nat, row: Monitor, checks': map<nat, seq<Check>>, log': map<nat, seq<Entry>>)
    requires LiveRows(monitors, checks, log, clock) && RowMatches(row, Of(checks', id), Of(log', id), clock)
    requires forall i :: i != id ==> Of(checks', i) == Of(checks, i) && Of(log', i) == Of(log, i)
    ensures LiveRows(monitors[id := row], checks', log', clock)
  {
    forall i | i in monitors[id := row]
      ensures RowMatches(monitors[id := row][i], Of(checks', i), Of(log', i), clock)
    {
      if i != id { assert RowMatches(monitors[i], Of(checks, i), Of(log, i), clock); }
    }
  }

  /** What a commit needs to know of its monitor. */
  ghost predicate MayCheck(monitors: map<nat, Monitor>, checks: map<nat, seq<Check>>, log: map<nat, seq<Entry>>,
                           nextAlert: nat, clock: int, job: Job, fetchedAt: int, check: Check) {
    && job.id in monitors && Fresh(monitors, job) && FetchedDue(job, fetchedAt)
    && fetchedAt <= check.at <= clock && check.frequency == job.row.frequency
    && Spaced(Of(checks, job.id)) && Alternates(Of(log, job.id))
    && (forall k :: 0 <= k < |Of(checks, job.id)| ==> Of(checks, job.id)[k].id < check.id)
    && (forall k :: 0 <= k < |Of(log, job.id)| ==> Of(log, job.id)[k].id < nextAlert)
    && RowMatches(monitors[job.id], Of(checks, job.id), Of(log, job.id), clock)
  }

  lemma RowsAfterCheck(monitors: map<nat, Monitor>, checks: map<nat, seq<Check>>, log: map<nat, seq<Entry>>,
                       nextAlert: nat, clock: int, job: Job, fetchedAt: int, check: Check, e: Evaluation)
    requires MayCheck(monitors, checks, log, nextAlert, clock, job, fetchedAt, check)
    requires LiveRows(monitors, checks, log, clock) && IsTransition(job.row.lastState, e)
    ensures LiveRows(monitors[job.id := Checked(monitors[job.id], e, check.at)],
                     checks[job.id := Of(checks, job.id) + [check]],
                     NewLog(log, job.id, e, nextAlert, check.at), clock)
  {
    var row := monitors[job.id];
    OneMoreCheck(job, row, Of(checks, job.id), Of(log, job.id), clock, fetchedAt, e, check, nextAlert);
    OfNewLog(log, job.id, e, nextAlert, check.at);
    RowUpdated(monitors, checks, log, clock, job.id, Checked(row, e, check.at),
      checks[job.id := Of(checks, job.id) + [check]], NewLog(log, job.id, e, nextAlert, check.at));
  }

  lemma HistoriesUpdated(nextMonitor: nat, nextAlert: nat, nextAlert': nat, checks: map<nat, seq<Check>>,
                         log: map<nat, seq<Entry>>, id: nat, ofId: seq<Check>, logOfId: seq<Entry>)
    requires Histories(nextMonitor, nextAlert, checks, log) && nextAlert <= nextAlert' && id < nextMonitor
    requires Spaced(ofId) && Alternates(logOfId) && forall k :: 0 <= k < |logOfId| ==> logOfId[k].id < nextAlert'
    ensures Histories(nextMonitor, nextAlert', checks[id := ofId], log)
    ensures Histories(nextMonitor, nextAlert', checks[id := ofId], log[id := logOfId])
  {
  }

  lemma HistoriesAfterCheck(monitors: map<nat, Monitor>, checks: map<nat, seq<Check>>, log: map<nat, seq<Entry>>,
                            nextMonitor: nat, nextAlert: nat, clock: int, job: Job, fetchedAt: int, check: Check,
                            e: Evaluation)
    requires MayCheck(monitors, checks, log, nextAlert, clock, job, fetchedAt, check)
    requires Histories(nextMonitor, nextAlert, checks, log) && job.id < nextMonitor
    requires IsTransition(job.row.lastState, e)
    ensures Histories(nextMonitor, nextAlert + (if e.alert.None? then 0 else 1),
                      checks[job.id := Of(checks, job.id) + [check]],
                      NewLog(log, job.id, e, nextAlert, check.at))
  {
    var logged := Logged(Of(log, job.id), e, nextAlert, check.at);
    OneMoreCheck(job, monitors[job.id], Of(checks, job.id), Of(log, job.id), clock, fetchedAt, e, check, nextAlert);
    HistoriesUpdated(nextMonitor, nextAlert, nextAlert + (if e.alert.None? then 0 else 1), checks, log, job.id,
      Of(checks, job.id) + [check], logged);
  }

  /** The new result is recorded under the new check. */
  lemma RecordedMore(archive: map<nat, CheckResult>, checks: map<nat, seq<Check>>, nextResult: nat, r: CheckResult,
                     check: Check)
    requires Recorded(archive, checks, nextResult)
    requires check.id == nextResult && r == CheckResult(r.monitorId, check.probe, check.at)
    ensures Recorded(archive[nextResult := r],
      checks[r.monitorId := Of(checks, r.monitorId) + [check]], nextResult + 1)
  {
    var m := r.monitorId;
    var archive', checks' := archive[nextResult := r], checks[m := Of(checks, m) + [check]];
    forall k | k in archive' ensures InChecks(Of(checks', archive'[k].monitorId), k, archive'[k].createdAt) {
      if k == nextResult {
        assert (Of(checks, m) + [check])[|Of(checks, m)|] == check;
      } else {
        StaysInChecks(Of(checks, archive[k].monitorId), Of(checks', archive[k].monitorId), k, archive[k].createdAt);
      }
    }
  }

  lemma StaysInChecks(checks: seq<Check>, checks': seq<Check>, r: nat, at: int)
    requires InChecks(checks, r, at) && checks <= checks'
    ensures InChecks(checks', r, at)
  {
    var k :| 0 <= k < |checks| && checks[k].id == r && checks[k].at == at;
    assert checks'[k] == checks[k];
  }

  lemma AlertAdded(monitors: map<nat, Monitor>, alerts: map<nat, Alert>, log: map<nat, seq<Entry>>, n: nat,
                   alert: Alert, monitors': map<nat, Monitor>)
    requires StoredAlerts(monitors, alerts, log) && monitors'.Keys == monitors.Keys
    requires n !in alerts && forall id, k :: id in log && 0 <= k < |log[id]| ==> log[id][k].id < n
    ensures StoredAlerts(monitors', alerts[n := alert],
      log[alert.monitorId := Of(log, alert.monitorId) + [Entry(n, alert.kind, alert.createdAt)]])
  {
    var m := alert.monitorId;
    var longer := Of(log, m) + [Entry(n, alert.kind, alert.createdAt)];
    var alerts', log' := alerts[n := alert], log[m := longer];
    forall a | a in alerts' ensures InLog(Of(log', alerts'[a].monitorId), a, alerts'[a]) {
      if a == n {
        assert longer[|Of(log, m)|] == Entry(n, alert.kind, alert.createdAt);
      } else {
        StaysInLog(Of(log, alerts[a].monitorId), Of(log', alerts[a].monitorId), a, alerts[a]);
      }
    }
    forall id | id in monitors' ensures OwnLog(alerts', id, Of(log', id)) {
      assert OwnLog(alerts, id, Of(log, id));
      LongerLog(alerts, Of(log, id), id, n, alert);
    }
  }

  lemma LongerLog(alerts: map<nat, Alert>, log: seq<Entry>, id: nat, n: nat, alert: Alert)
    requires OwnLog(alerts, id, log)
    requires forall k :: 0 <= k < |log| ==> log[k].id < n
    ensures var longer := log + [Entry(n, alert.kind, alert.createdAt)];
      && OwnLog(alerts[n := alert], id, log)
      && (id == alert.monitorId ==> OwnLog(alerts[n := alert], id, longer))
  {
  }

  lemma StaysInLog(log: seq<Entry>, log': seq<Entry>, a: nat, alert: Alert)
    requires InLog(log, a, alert) && log <= log'
    ensures InLog(log', a, alert)
  {
    var k :| 0 <= k < |log| && log[k] == Entry(a, alert.kind, alert.createdAt);
    assert log'[k] == log[k];
  }

  lemma SameAlerts(monitors: map<nat, Monitor>, alerts: map<nat, Alert>, log: map<nat, seq<Entry>>,
                   monitors': map<nat, Monitor>)
    requires StoredAlerts(monitors, alerts, log) && monitors'.Keys == monitors.Keys
    ensures StoredAlerts(monitors', alerts, log)
  {
  }

  lemma CommitKeepsAlerts(s: Sys, job: Job, probe: State, threshold: int, at: int)
    requires Linked(s.db) && job.id in s.db.monitors
    requires Histories(s.db.nextMonitor, s.db.nextAlert, s.checks, s.log)
    requires StoredAlerts(s.db.monitors, s.db.alerts, s.log)
    ensures var s' := Landed(s, job, probe, threshold, at);
      StoredAlerts(s'.db.monitors, s'.db.alerts, s'.log)
  {
    var s' := Landed(s, job, probe, threshold, at);
    var e := EvaluateFsm(job.row.lastState, job.row.failures, probe, threshold);
    assert s'.db.monitors.Keys == s.db.monitors.Keys;
    if e.alert.Some? {
      AlertAdded(s.db.monitors, s.db.alerts, s.log, s.db.nextAlert,
        Alert(job.id, e.alert.value, AlertMessage(job.row.name, e.alert.value), at), s'.db.monitors);
    } else {
      SameAlerts(s.db.monitors, s.db.alerts, s.log, s'.db.monitors);
    }
  }

  lemma ResultsAfterCheck(results: map<nat, CheckResult>, archive: map<nat, CheckResult>, nextResult: nat,
                          monitors: map<nat, Monitor>, nextMonitor: nat, horizon: int, id: nat, row: Monitor,
                          r: CheckResult)
    requires StoredResults(results, archive, nextResult, monitors, nextMonitor, horizon)
    requires id in monitors && id < nextMonitor && r.monitorId == id && row.lastCheckedAt == Some(r.createdAt)
    requires monitors[id].lastCheckedAt.Some? ==> monitors[id].lastCheckedAt.value <= r.createdAt
    ensures StoredResults(results[nextResult := r], archive[nextResult := r], nextResult + 1,
                          monitors[id := row], nextMonitor, horizon)
  {
    var archive', monitors' := archive[nextResult := r], monitors[id := row];
    forall k | k in archive' ensures ResultIsOld(monitors', archive'[k]) {
      if k in archive && k != nextResult { assert ResultIsOld(monitors, archive[k]); }
    }
  }

  ghost predicate AllFresh(jobs: seq<Job>, persisted: set<nat>, monitors: map<nat, Monitor>) {
    forall k :: 0 <= k < |jobs| && k !in persisted ==> Fresh(monitors, jobs[k])
  }

  lemma FreshAfterCheck(jobs: seq<Job>, persisted: set<nat>, monitors: map<nat, Monitor>, j: nat, row: Monitor)
    requires DistinctIds(jobs) && j < |jobs| && AllFresh(jobs, persisted, monitors) && jobs[j].id in monitors
    ensures AllFresh(jobs, persisted + {j}, monitors[jobs[j].id := row])
  {
    var monitors' := monitors[jobs[j].id := row];
    forall k | 0 <= k < |jobs| && k !in persisted + {j} ensures Fresh(monitors', jobs[k]) {
      assert Fresh(monitors, jobs[k]) && jobs[k].id != jobs[j].id;
    }
  }

  /** Job j may add its check, read at `at`, to the history of its monitor. */
  ghost predicate MayCommit(window: int, s: Sys, j: nat, at: int) {
    && Inv(window, s) && s.worker.Running? && j !in s.worker.persisted && j < |s.worker.jobs|
    && s.worker.jobs[j].id in s.db.monitors && s.worker.fetchedAt <= at <= s.clock
  }

  lemma InvMayCheck(window: int, s: Sys, j: nat, probe: State, threshold: int, at: int)
    requires MayCommit(window, s, j, at)
    ensures var job := s.worker.jobs[j];
      MayCheck(s.db.monitors, s.checks, s.log, s.db.nextAlert, s.clock, job, s.worker.fetchedAt,
               NextCheck(s, job, probe, threshold, at))
  {
    var job := s.worker.jobs[j];
    assert Fresh(s.db.monitors, job) && FetchedDue(job, s.worker.fetchedAt);
    assert RowMatches(s.db.monitors[job.id], Of(s.checks, job.id), Of(s.log, job.id), s.clock);
  }

  lemma CommitKeepsRows(window: int, s: Sys, j: nat, probe: State, threshold: int, at: int)
    requires MayCommit(window, s, j, at)
    ensures var s' := Committed(s, j, probe, threshold, at);
      && LiveRows(s'.db.monitors, s'.checks, s'.log, s'.clock)
      && Histories(s'.db.nextMonitor, s'.db.nextAlert, s'.checks, s'.log)
  {
    var job := s.worker.jobs[j];
    var check := NextCheck(s, job, probe, threshold, at);
    var e := EvaluateFsm(job.row.lastState, job.row.failures, probe, threshold);
    InvMayCheck(window, s, j, probe, threshold, at);
    AlertIsTransition(job.row.lastState, job.row.failures, probe, threshold);
    RowsAfterCheck(s.db.monitors, s.checks, s.log, s.db.nextAlert, s.clock, job, s.worker.fetchedAt, check, e);
    HistoriesAfterCheck(s.db.monitors, s.checks, s.log, s.db.nextMonitor, s.db.nextAlert, s.clock, job,
      s.worker.fetchedAt, check, e);
  }

  lemma CommitKeepsResults(s: Sys, job: Job, probe: State, threshold: int, at: int, horizon: int)
    requires job.id in s.db.monitors && job.id < s.db.nextMonitor
    requires s.db.monitors[job.id].lastCheckedAt.Some? ==> s.db.monitors[job.id].lastCheckedAt.value <= at
    requires StoredResults(s.db.results, s.archive, s.db.nextResult, s.db.monitors, s.db.nextMonitor, horizon)
    ensures var s' := Landed(s, job, probe, threshold, at);
      StoredResults(s'.db.results, s'.archive, s'.db.nextResult, s'.db.monitors, s'.db.nextMonitor, horizon)
  {
    var e := EvaluateFsm(job.row.lastState, job.row.failures, probe, threshold);
    ResultsAfterCheck(s.db.results, s.archive, s.db.nextResult, s.db.monitors, s.db.nextMonitor, horizon,
      job.id, Checked(s.db.monitors[job.id], e, at), CheckResult(job.id, probe, at));
  }

  lemma CommitKeepsBatch(window: int, s: Sys, j: nat, probe: State, threshold: int, at: int)
    requires MayCommit(window, s, j, at)
    ensures var s' := Committed(s, j, probe, threshold, at);
      BatchOk(s'.worker, s'.clock, s'.db.monitors, s'.db.nextMonitor)
  {
    var job := s.worker.jobs[j];
    var e := EvaluateFsm(job.row.lastState, job.row.failures, probe, threshold);
    FreshAfterCheck(s.worker.jobs, s.worker.persisted, s.db.monitors, j, Checked(s.db.monitors[job.id], e, at));
  }

  lemma CommitKeepsLinks(db: Db, job: Job, probe: State, threshold: int, at: int)
    requires Linked(db) && job.id in db.monitors
    ensures Linked(Persisted(db, job, probe, threshold, at))
  {
  }

  lemma CommitKeeps(window: int, s: Sys, j: nat, probe: State, threshold: int, at: int)
    requires MayCommit(window, s, j, at)
    ensures Inv(window, Committed(s, j, probe, threshold, at))
  {
    CommitKeepsLinks(s.db, s.worker.jobs[j], probe, threshold, at);
    CommitKeepsRows(window, s, j, probe, threshold, at);
    RecordedMore(s.archive, s.checks, s.db.nextResult, CheckResult(s.worker.jobs[j].id, probe, at),
      NextCheck(s, s.worker.jobs[j], probe, threshold, at));
    CommitKeepsAlerts(s, s.worker.jobs[j], probe, threshold, at);
    InvMayCheck(window, s, j, probe, threshold, at);
    CommitKeepsResults(s, s.worker.jobs[j], probe, threshold, at, s.clock - window);
    CommitKeepsBatch(window, s, j, probe, threshold, at);
  }

  // ----- Every run -----

  lemma NextKeeps(window: int, s: Sys, s': Sys, action: Action)
    requires Inv(window, s) && Next(window, s, s', action)
    ensures Inv(window, s')
  {
    match action
    case Tick(to) => TickKeeps(window, s, to);
    case Fetch(jobs, limit) => FetchKeeps(window, s, jobs, limit);
    case Commit(j, probe, threshold, at) => CommitKeeps(window, s, j, probe, threshold, at);
    case Dispatching(event) => DispatchKeeps(window, s, event);
    case EndCycle => IdleKeeps(window, s);
    case Restart => IdleKeeps(window, s);
    case Environment(db') => EnvironmentKeeps(window, s, db');
    case RetainResults(taken, readAt, days) => RetainResultsKeeps(window, s, taken, readAt, days);
    case RetainAlerts(taken, _, _, _, _) => RetainAlertsKeeps(window, s, taken);
  }

  lemma InitKeeps(window: int, s: Sys)
    requires Init(s)
    ensures Inv(window, s)
  {
  }

  /** The invariant holds in every state of every run. */
  lemma {:induction false} RunKeeps(window: int, run: seq<Sys>, i: nat)
    requires IsRun(window, run) && i < |run|
    ensures Inv(window, run[i])
  {
    if i == 0 {
      InitKeeps(window, run[0]);
    } else {
      RunKeeps(window, run, i - 1);
      assert FollowsAt(window, run, i - 1);
      var action :| Next(window, run[i - 1], run[i], action);
      NextKeeps(window, run[i - 1], run[i], action);
    }
  }
}
