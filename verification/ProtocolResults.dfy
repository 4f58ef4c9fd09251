/** What the invariant says of every run. */
module ProtocolResults {
  import opened Schema
  import opened Retention
  import opened Persist
  import opened Protocol
  import opened ProtocolSafety
  import opened PublicStatus
  import Config

  /** Every monitor's alerts read down, recovery, down, ..., and it is down now exactly when its
      stored state is unhealthy, whatever else wrote to the database in between. */
  lemma AlertsAlternate(window: int, run: seq<Sys>, i: nat, id: nat)
    requires IsRun(window, run) && i < |run|
    ensures var s := run[i];
      var log := Of(s.log, id);
      && (forall k :: 0 <= k < |log| ==> log[k].kind == if k % 2 == 0 then Down else Recovery)
      && (id in s.db.monitors ==>
            (log != [] && log[|log| - 1].kind == Down <==> s.db.monitors[id].lastState == Some(Unhealthy)))
  {
    RunKeeps(window, run, i);
    var s := run[i];
    if id in s.db.monitors {
      assert RowMatches(s.db.monitors[id], Of(s.checks, id), Of(s.log, id), s.clock);
    }
  }

  /** A fetch of any run lists exactly the monitors that are due then, with the rows they have. */
  lemma DueIsFetched(window: int, s: Sys, s': Sys, jobs: seq<Job>, limit: nat)
    requires Next(window, s, s', Fetch(jobs, limit))
    ensures s'.worker.Running? && ListsDue(s.db, s.clock, s'.worker.jobs)
    ensures forall k :: 0 <= k < |jobs| ==> jobs[k].id in s.db.monitors && jobs[k].row == s.db.monitors[jobs[k].id]
  {
    DueListIs(s.db, s.clock, jobs);
  }

  /** A job whose check has not been committed still has, in its snapshot, the state and the
      time its row has; a monitor has one job in the batch. */
  lemma NoLostUpdate(window: int, run: seq<Sys>, i: nat, k: nat)
    requires IsRun(window, run) && i < |run| && run[i].worker.Running? && k < |run[i].worker.jobs|
    ensures var s, w := run[i], run[i].worker;
      && (k !in w.persisted && w.jobs[k].id in s.db.monitors ==>
            && s.db.monitors[w.jobs[k].id].lastState == w.jobs[k].row.lastState
            && s.db.monitors[w.jobs[k].id].lastCheckedAt == w.jobs[k].row.lastCheckedAt)
      && (forall j :: 0 <= j < |w.jobs| && w.jobs[j].id == w.jobs[k].id ==> j == k)
  {
    RunKeeps(window, run, i);
    var s, w := run[i], run[i].worker;
    if k !in w.persisted { assert Fresh(s.db.monitors, w.jobs[k]); }
  }

  /** Successive checks of a monitor are later and later, each at least the frequency in force at
      its fetch after the one before; a live monitor's last check is its `last_checked_at`, and no
      stored result is newer. */
  lemma NeverCheckedTooOften(window: int, run: seq<Sys>, i: nat, id: nat)
    requires IsRun(window, run) && i < |run|
    ensures var s := run[i];
      var checks := Of(s.checks, id);
      && (forall k :: 0 <= k < |checks| - 1 ==>
            && checks[k].at < checks[k + 1].at
            && checks[k + 1].at - checks[k].at >= checks[k + 1].frequency * SECOND)
      && (id in s.db.monitors ==>
            s.db.monitors[id].lastCheckedAt == if checks == [] then None else Some(checks[|checks| - 1].at))
      && (id in s.db.monitors ==> forall r :: r in s.db.results && s.db.results[r].monitorId == id ==>
            checks != [] && s.db.results[r].createdAt <= checks[|checks| - 1].at)
  {
    RunKeeps(window, run, i);
    SpacedChecks(window, run[i], id);
    if id in run[i].db.monitors { ResultsAreOld(window, run[i], id); }
  }

  /** So the `created_at` of any two results of a monitor, in the order of their ids, strictly
      increase, and lie at least the frequency apart that was in force at the later one's fetch. */
  lemma ResultsAreSpaced(window: int, run: seq<Sys>, i: nat, a: nat, b: nat)
    requires IsRun(window, run) && i < |run| && a < b && a in run[i].db.results && b in run[i].db.results
    requires run[i].db.results[a].monitorId == run[i].db.results[b].monitorId
    ensures var results, checks := run[i].db.results, Of(run[i].checks, run[i].db.results[b].monitorId);
      && results[a].createdAt < results[b].createdAt
      && exists k :: 0 <= k < |checks| && checks[k].id == b && checks[k].at == results[b].createdAt
                     && results[b].createdAt - results[a].createdAt >= checks[k].frequency * SECOND
  {
    RunKeeps(window, run, i);
    var s := run[i];
    var checks := Of(s.checks, s.db.results[b].monitorId);
    StoredIsRecorded(window, s, a);
    StoredIsRecorded(window, s, b);
    SpacedChecks(window, s, s.db.results[b].monitorId);
    SpacedApart(checks, a, s.db.results[a].createdAt, b, s.db.results[b].createdAt);
  }

  lemma StoredIsRecorded(window: int, s: Sys, r: nat)
    requires Inv(window, s) && r in s.db.results
    ensures InChecks(Of(s.checks, s.db.results[r].monitorId), r, s.db.results[r].createdAt)
  {
    assert r in s.archive && s.archive[r] == s.db.results[r];
  }

  lemma SpacedApart(checks: seq<Check>, a: nat, atA: int, b: nat, atB: int)
    requires Spaced(checks) && InChecks(checks, a, atA) && InChecks(checks, b, atB) && a < b
    ensures atA < atB
    ensures exists k :: 0 <= k < |checks| && checks[k].id == b && checks[k].at == atB
                        && atB - atA >= checks[k].frequency * SECOND
  {
    var j :| 0 <= j < |checks| && checks[j].id == a && checks[j].at == atA;
    var k :| 0 <= k < |checks| && checks[k].id == b && checks[k].at == atB;
    OrderedById(checks, j, k);
    assert j < k - 1 ==> checks[j].at < checks[k - 1].at;
    assert checks[k - 1].at + checks[k - 1 + 1].frequency * SECOND <= checks[k - 1 + 1].at;
  }

  lemma OrderedById(checks: seq<Check>, j: nat, k: nat)
    requires Spaced(checks) && j < |checks| && k < |checks| && checks[j].id < checks[k].id
    ensures j < k
  {
  }

  lemma SpacedChecks(window: int, s: Sys, id: nat)
    requires Inv(window, s)
    ensures Spaced(Of(s.checks, id))
    ensures id in s.db.monitors ==>
      s.db.monitors[id].lastCheckedAt ==
        if Of(s.checks, id) == [] then None else Some(Of(s.checks, id)[|Of(s.checks, id)| - 1].at)
  {
    if id in s.db.monitors { assert RowMatches(s.db.monitors[id], Of(s.checks, id), Of(s.log, id), s.clock); }
  }

  lemma ResultsAreOld(window: int, s: Sys, id: nat)
    requires Inv(window, s) && id in s.db.monitors
    ensures forall r :: r in s.db.results && s.db.results[r].monitorId == id ==>
      Of(s.checks, id) != [] && s.db.results[r].createdAt <= Of(s.checks, id)[|Of(s.checks, id)| - 1].at
  {
    SpacedChecks(window, s, id);
    forall r | r in s.db.results && s.db.results[r].monitorId == id
      ensures Of(s.checks, id) != [] && s.db.results[r].createdAt <= Of(s.checks, id)[|Of(s.checks, id)| - 1].at
    {
      assert ResultIsOld(s.db.monitors, s.archive[r]);
    }
  }

  /** Results and alerts always reference live monitors. */
  lemma HistoryIsLinked(window: int, run: seq<Sys>, i: nat)
    requires IsRun(window, run) && i < |run|
    ensures forall r :: r in run[i].db.results ==> run[i].db.results[r].monitorId in run[i].db.monitors
    ensures forall a :: a in run[i].db.alerts ==> run[i].db.alerts[a].monitorId in run[i].db.monitors
  {
    RunKeeps(window, run, i);
  }

  /** Retention is invisible: at any later time, and for any window no longer than what
      retention keeps, the public status is what it would be had no result been deleted. */
  lemma RetentionIsInvisible(window: int, run: seq<Sys>, i: nat, span: int, now: int)
    requires IsRun(window, run) && i < |run| && span <= window && run[i].clock <= now
    ensures StatusAt(run[i].db, run[i].db.results, span, now) == StatusAt(run[i].db, run[i].archive, span, now)
  {
    var s := run[i];
    StoredInRun(window, run, i);
    forall id | id in s.db.monitors
      ensures Window(s.db.results, id, now - span, now) == Window(s.archive, id, now - span, now)
    {
      WindowIsWhole(s.db.results, s.archive, s.db.nextResult, s.db.monitors, s.db.nextMonitor, s.clock - window, id,
        now - span, now);
    }
    SameWindowsSameStatus(s.db, s.archive, span, now);
  }

  lemma StoredInRun(window: int, run: seq<Sys>, i: nat)
    requires IsRun(window, run) && i < |run|
    ensures var s := run[i];
      StoredResults(s.db.results, s.archive, s.db.nextResult, s.db.monitors, s.db.nextMonitor, s.clock - window)
  {
    RunKeeps(window, run, i);
  }

  lemma WindowIsWhole(results: map<nat, CheckResult>, archive: map<nat, CheckResult>, nextResult: nat,
                      monitors: map<nat, Monitor>, nextMonitor: nat, horizon: int, id: nat, lo: int, hi: int)
    requires StoredResults(results, archive, nextResult, monitors, nextMonitor, horizon)
    requires id in monitors && horizon <= lo
    ensures Window(results, id, lo, hi) == Window(archive, id, lo, hi)
  {
  }

  lemma SameWindowsSameStatus(db: Db, archive: map<nat, CheckResult>, span: int, now: int)
    requires forall id :: id in db.monitors ==>
      Window(db.results, id, now - span, now) == Window(archive, id, now - span, now)
    ensures StatusAt(db, db.results, span, now) == StatusAt(db, archive, span, now)
  {
  }

  const HOUR := 3_600_000_000

  /** The guard at startup is what keeps it so: under any accepted settings, retention at the
      configured age leaves the whole configured window in place. */
  lemma GuardedStatusIsWhole(s: Config.Settings, run: seq<Sys>, i: nat, now: int)
    requires Config.ValidSettings(s) && IsRun(s.retention.checkDays * DAY, run) && i < |run| && run[i].clock <= now
    ensures var span := s.retention.uptimeHours * HOUR;
      StatusAt(run[i].db, run[i].db.results, span, now) == StatusAt(run[i].db, run[i].archive, span, now)
  {
    RetentionIsInvisible(s.retention.checkDays * DAY, run, i, s.retention.uptimeHours * HOUR, now);
  }

  /** One public monitor with a single check at `at`. */
  function OneCheck(at: int): Db {
    Db(map[1 := User("owner", false, false, "")],
       map[1 := Monitor(1, None, "m", "t", "http", 60, true, true, Some(Healthy), Some(at), 0)],
       map[1 := CheckResult(1, Healthy, at)], map[], 2, 2, 2, 1)
  }

  /** And the guard is needed: for any other pair of settings there is a database in which the
      deletion of one expired result changes the public status. */
  lemma GuardIsNeeded(days: nat, hours: nat) returns (db: Db, taken: set<nat>)
    requires days * 24 < hours
    ensures Linked(db) && taken <= Expired(StampsOf(db, CheckResults), Cutoff(0, days))
    ensures StatusAt(Purge(db, CheckResults, taken), Purge(db, CheckResults, taken).results, hours * HOUR, 0)
      != StatusAt(db, db.results, hours * HOUR, 0)
  {
    var at := -(days * DAY) - 1;
    db, taken := OneCheck(at), {1};
    var kept := Purge(db, CheckResults, taken);
    assert 1 in Window(db.results, 1, -(hours * HOUR), 0);
    assert |Window(db.results, 1, -(hours * HOUR), 0)| > 0;
    assert Window(kept.results, 1, -(hours * HOUR), 0) == map[];
    assert StatusAt(kept, kept.results, hours * HOUR, 0)[1].summary.total == 0;
    assert StatusAt(db, db.results, hours * HOUR, 0)[1].summary.total > 0;
  }
}
