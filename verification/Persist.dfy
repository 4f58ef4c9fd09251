/** One check of one monitor: probe, evaluate, and commit result, row and alert together
    (sentinel-worker/internal/worker/loop.go, checkAndPersist). */
module Persist {
  import opened Schema
  import opened Fsm

  /** A due monitor as it was fetched: its id and the row at that moment. */
  datatype Job = Job(id: nat, row: Monitor)

  datatype Probe = Probed(state: State) | ProbeFailed

  /** What the work function returns: nil, a monitorCheckError, or any other error. */
  datatype Outcome = Completed | CheckFailed | DbFailed

  // ----- The committed effect -----

  function AlertMessage(name: string, kind: AlertKind): string {
    match kind
    case Down => name + " esta caído"
    case Recovery => name + " se recuperó"
  }

  /** The row after an evaluation. */
  function Checked(row: Monitor, e: Evaluation, at: int): Monitor {
    row.(lastState := e.state, lastCheckedAt := Some(at), failures := e.failures)
  }

  /** The database after a committed check.  The new state comes from the fetched row,
      every other column from the row as it is now. */
  function Persisted(db: Db, job: Job, probe: State, threshold: int, at: int): Db
    requires job.id in db.monitors
  {
    var e := EvaluateFsm(job.row.lastState, job.row.failures, probe, threshold);
    var row := Checked(db.monitors[job.id], e, at);
    var checked := db.(
      results := db.results[db.nextResult := CheckResult(job.id, probe, at)],
      nextResult := db.nextResult + 1,
      monitors := db.monitors[job.id := row]);
    if e.alert.None? then checked
    else checked.(
      alerts := db.alerts[db.nextAlert := Alert(job.id, e.alert.value, AlertMessage(job.row.name, e.alert.value), at)],
      nextAlert := db.nextAlert + 1)
  }

  /** What a committed check leaves in the row: the counter is zero after a healthy probe and one
      more than the fetched one after any other, and the columns of other writers stay as they are now. */
  lemma PersistedRow(db: Db, job: Job, probe: State, threshold: int, at: int)
    requires job.id in db.monitors
    ensures var row, row' := db.monitors[job.id], Persisted(db, job, probe, threshold, at).monitors[job.id];
      var limit := if threshold > 0 then threshold else 3;
      && row'.failures == (if probe == Healthy then 0 else if job.row.failures > 0 then job.row.failures + 1 else 1)
      && row'.lastCheckedAt == Some(at)
      && row'.lastState == (if probe == Healthy then Some(Healthy)
                            else if job.row.lastState == Some(Unhealthy) || row'.failures >= limit
                            then Some(Unhealthy) else job.row.lastState)
      && (row'.owner, row'.seedKey, row'.name, row'.target, row'.checkType) ==
           (row.owner, row.seedKey, row.name, row.target, row.checkType)
      && (row'.frequency, row'.active, row'.isPublic) == (row.frequency, row.active, row.isPublic)
  {
    AlertIsTransition(job.row.lastState, job.row.failures, probe, threshold);
  }

  /** A committed check adds one result, that of the probe, at most one alert, exactly when
      `last_state` becomes or stops being unhealthy, and touches nothing of any other monitor. */
  lemma PersistedEffect(db: Db, job: Job, probe: State, threshold: int, at: int)
    requires Linked(db) && job.id in db.monitors
    requires job.row.lastState == db.monitors[job.id].lastState
    ensures var db' := Persisted(db, job, probe, threshold, at);
      var wasDown := db.monitors[job.id].lastState == Some(Unhealthy);
      var isDown := db'.monitors[job.id].lastState == Some(Unhealthy);
      && Linked(db')
      && |db'.results| == |db.results| + 1 && |db'.alerts| == |db.alerts| + (if wasDown != isDown then 1 else 0)
      && db.results.Items <= db'.results.Items && db.alerts.Items <= db'.alerts.Items
      && (forall a :: a in db'.alerts && a !in db.alerts ==>
            && db'.alerts[a].monitorId == job.id && db'.alerts[a].createdAt == at
            && db'.alerts[a].kind == (if isDown then Down else Recovery)
            && db'.alerts[a].message == job.row.name + if isDown then " esta caído" else " se recuperó")
      && (forall r :: r in db'.results && r !in db.results ==> db'.results[r] == CheckResult(job.id, probe, at))
      && db'.users == db.users && db'.nextUser == db.nextUser && db'.nextMonitor == db.nextMonitor
      && (forall id :: id in db.monitors && id != job.id ==> id in db'.monitors && db'.monitors[id] == db.monitors[id])
  {
    AlertIsTransition(job.row.lastState, job.row.failures, probe, threshold);
    PersistedSizes(db, job, probe, threshold, at);
    PersistedAlert(db, job, probe, threshold, at);
  }

  lemma PersistedSizes(db: Db, job: Job, probe: State, threshold: int, at: int)
    requires Linked(db) && job.id in db.monitors
    ensures var db' := Persisted(db, job, probe, threshold, at);
      var e := EvaluateFsm(job.row.lastState, job.row.failures, probe, threshold);
      && |db'.results| == |db.results| + 1 && |db'.alerts| == |db.alerts| + (if e.alert.None? then 0 else 1)
      && db.results.Items <= db'.results.Items && db.alerts.Items <= db'.alerts.Items
  {
    assert db.nextResult !in db.results && db.nextAlert !in db.alerts;
  }

  lemma PersistedAlert(db: Db, job: Job, probe: State, threshold: int, at: int)
    requires Linked(db) && job.id in db.monitors
    ensures var db' := Persisted(db, job, probe, threshold, at);
      var e := EvaluateFsm(job.row.lastState, job.row.failures, probe, threshold);
      && Linked(db')
      && forall a :: a in db'.alerts && a !in db.alerts ==>
          e.alert.Some? && db'.alerts[a].monitorId == job.id && db'.alerts[a].createdAt == at
          && db'.alerts[a].kind == e.alert.value && db'.alerts[a].message == AlertMessage(job.row.name, e.alert.value)
  {
  }

  // ----- The transaction -----

  datatype Write =
    | InsertResult(result: CheckResult)
    | UpdateMonitor(id: nat, state: Option<State>, failures: int, at: int)
    | InsertAlert(alert: Alert)

  function ApplyWrite(db: Db, w: Write): Db {
    match w
    case InsertResult(r) => db.(results := db.results[db.nextResult := r], nextResult := db.nextResult + 1)
    case UpdateMonitor(id, state, failures, at) =>
      if id !in db.monitors then db
      else db.(monitors := db.monitors[id :=
        db.monitors[id].(lastState := state, lastCheckedAt := Some(at), failures := failures)])
    case InsertAlert(a) => db.(alerts := db.alerts[db.nextAlert := a], nextAlert := db.nextAlert + 1)
  }

  function ApplyWrites(db: Db, ws: seq<Write>): Db {
    if ws == [] then db else ApplyWrite(ApplyWrites(db, ws[..|ws| - 1]), ws[|ws| - 1])
  }

  datatype DeletePoint = Never | BeforeInsert | BeforeUpdate | BeforeAlert

  /** A commit that reports an error may or may not have taken effect. */
  datatype CommitReply = CommitOk | CommitLost | CommitApplied

  /** Which statements fail, what the commit replies, and where another session deletes the monitor. */
  datatype Faults = Faults(begin: bool, insert: bool, update: bool, alert: bool,
                           commit: CommitReply, deleted: DeletePoint)

  /** The check reaches its commit, and the commit takes effect. */
  ghost predicate Commits(db: Db, job: Job, alerting: bool, faults: Faults) {
    && job.id in db.monitors
    && !faults.begin && !faults.insert && !faults.update && !faults.commit.CommitLost?
    && (faults.deleted == Never || (faults.deleted == BeforeAlert && !alerting))
    && (alerting ==> !faults.alert)
  }

  /** The other session's delete comes before a statement that is reached. */
  ghost predicate Deletes(db: Db, job: Job, alerting: bool, faults: Faults) {
    && !faults.begin
    && (faults.deleted == BeforeInsert
        || (faults.deleted == BeforeUpdate && !faults.insert && job.id in db.monitors)
        || (faults.deleted == BeforeAlert && !faults.insert && !faults.update && alerting && job.id in db.monitors))
  }

  /** All or nothing under every pattern of faults: the check is committed whole exactly when
      nothing stopped it, and otherwise leaves the database as it was, but for the other
      session's delete.  A nil error means the check is recorded or its monitor is gone; any
      other outcome has its cause. */
  method CheckAndPersist(store: Database, job: Job, known: bool, probe: Probe, threshold: int, at: int,
                         faults: Faults) returns (outcome: Outcome)
    modifies store
    ensures outcome == CheckFailed <==> !known || probe.ProbeFailed?
    ensures outcome == CheckFailed ==> store.committed == old(store.committed)
    ensures outcome == DbFailed ==>
      faults.begin || faults.insert || faults.update || faults.alert || faults.commit != CommitOk
    ensures outcome != CheckFailed ==>
      var alerting := EvaluateFsm(job.row.lastState, job.row.failures, probe.state, threshold).alert.Some?;
      if Commits(old(store.committed), job, alerting, faults) then
        && store.committed == Persisted(old(store.committed), job, probe.state, threshold, at)
        && (outcome == Completed <==> faults.commit == CommitOk)
      else
        && store.committed == (if Deletes(old(store.committed), job, alerting, faults)
                               then Without(old(store.committed), {job.id}) else old(store.committed))
        && (outcome == Completed ==> job.id !in store.committed.monitors)
  {
    if !known { return CheckFailed; }
    if probe.ProbeFailed? { return CheckFailed; }
    var limit := if threshold > 0 then threshold else 3;
    var evaluation := EvaluateFsm(job.row.lastState, job.row.failures, probe.state, limit);
    if faults.begin { return DbFailed; }
    var staged: seq<Write> := [];

    if faults.deleted == BeforeInsert { store.committed := Without(store.committed, {job.id}); }
    if faults.insert { return DbFailed; }
    if job.id !in store.committed.monitors { return Completed; }  // foreign key violation 23503
    staged := [InsertResult(CheckResult(job.id, probe.state, at))];

    if faults.deleted == BeforeUpdate { store.committed := Without(store.committed, {job.id}); }
    if faults.update { return DbFailed; }
    if job.id !in store.committed.monitors { return Completed; }  // zero rows affected
    staged := staged + [UpdateMonitor(job.id, evaluation.state, evaluation.failures, at)];

    if evaluation.alert.Some? {
      if faults.deleted == BeforeAlert { store.committed := Without(store.committed, {job.id}); }
      if faults.alert { return DbFailed; }
      if job.id !in store.committed.monitors { return Completed; }  // foreign key violation 23503
      var kind := evaluation.alert.value;
      staged := staged + [InsertAlert(Alert(job.id, kind, AlertMessage(job.row.name, kind), at))];
    }

    if faults.commit == CommitLost { return DbFailed; }
    StagedIsPersisted(store.committed, job, probe.state, threshold, at, staged);
    store.committed := ApplyWrites(store.committed, staged);
    outcome := if faults.commit == CommitOk then Completed else DbFailed;
  }

  lemma StagedIsPersisted(db: Db, job: Job, probe: State, threshold: int, at: int, staged: seq<Write>)
    requires job.id in db.monitors
    requires var e := EvaluateFsm(job.row.lastState, job.row.failures, probe, threshold);
      staged ==
        [InsertResult(CheckResult(job.id, probe, at)), UpdateMonitor(job.id, e.state, e.failures, at)] +
        (if e.alert.None? then [] else
           [InsertAlert(Alert(job.id, e.alert.value, AlertMessage(job.row.name, e.alert.value), at))])
    ensures ApplyWrites(db, staged) == Persisted(db, job, probe, threshold, at)
  {
    var first := ApplyWrite(db, staged[0]);
    assert ApplyWrites(db, staged[..1]) == first by {
      assert staged[..1][..0] == [] && staged[..1][0] == staged[0];
    }
    var second := ApplyWrite(first, staged[1]);
    assert ApplyWrites(db, staged[..2]) == second by {
      assert staged[..2][..1] == staged[..1] && staged[..2][1] == staged[1];
    }
    if |staged| == 2 {
      assert staged == staged[..2];
    } else {
      assert staged[..|staged| - 1] == staged[..2];
    }
  }
}
