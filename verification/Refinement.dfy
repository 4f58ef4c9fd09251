/** The methods of the worker are steps of the protocol, so what holds of its runs holds of them. */
module Refinement {
  import opened Schema
  import opened Fsm
  import opened Persist
  import opened Retention
  import opened Protocol
  import opened ProtocolSafety
  import opened ProtocolResults

  // ----- Paths -----

  ghost predicate IsPath(window: int, path: seq<Sys>) {
    path != [] && forall i :: 0 <= i < |path| - 1 ==> FollowsAt(window, path, i)
  }

  /** Some sequence of steps leads from the one state to the other. */
  ghost predicate Leads(window: int, s: Sys, s': Sys) {
    exists path :: IsPath(window, path) && path[0] == s && path[|path| - 1] == s'
  }

  lemma NoStep(window: int, s: Sys)
    ensures Leads(window, s, s)
  {
    assert IsPath(window, [s]);
  }

  lemma OneStep(window: int, s: Sys, s': Sys, action: Action)
    requires Next(window, s, s', action)
    ensures Leads(window, s, s')
  {
    assert Follows(window, s, s');
    var path := [s, s'];
    assert IsPath(window, path) && path[0] == s && path[|path| - 1] == s';
  }

  lemma JoinPaths(window: int, p: seq<Sys>, q: seq<Sys>)
    requires IsPath(window, p) && IsPath(window, q) && p[|p| - 1] == q[0]
    ensures IsPath(window, p + q[1..]) && Leads(window, p[0], q[|q| - 1])
  {
    var path := p + q[1..];
    forall i | 0 <= i < |path| - 1 ensures FollowsAt(window, path, i) {
      if i < |p| - 1 {
        assert FollowsAt(window, p, i);
      } else {
        assert FollowsAt(window, q, i - (|p| - 1));
      }
    }
    assert path[0] == p[0] && path[|path| - 1] == q[|q| - 1];
  }

  /** What a run leads to is the last state of a run. */
  lemma RunLeadsOn(window: int, run: seq<Sys>, s: Sys) returns (longer: seq<Sys>)
    requires IsRun(window, run) && Leads(window, run[|run| - 1], s)
    ensures IsRun(window, longer) && longer[|longer| - 1] == s && run <= longer
  {
    var path :| IsPath(window, path) && path[0] == run[|run| - 1] && path[|path| - 1] == s;
    assert IsPath(window, run);
    JoinPaths(window, run, path);
    longer := run + path[1..];
  }

  lemma MoreSteps(window: int, a: Sys, b: Sys, c: Sys)
    requires Leads(window, a, b) && Leads(window, b, c)
    ensures Leads(window, a, c)
  {
    var p :| IsPath(window, p) && p[0] == a && p[|p| - 1] == b;
    var q :| IsPath(window, q) && q[0] == b && q[|q| - 1] == c;
    JoinPaths(window, p, q);
  }

  /** So every state the methods lead to has its alerts in order. */
  lemma AlertsStayInOrder(window: int, run: seq<Sys>, s: Sys, id: nat)
    requires IsRun(window, run) && Leads(window, run[|run| - 1], s)
    ensures var log := Of(s.log, id);
      && (forall k :: 0 <= k < |log| ==> log[k].kind == if k % 2 == 0 then Down else Recovery)
      && (id in s.db.monitors ==>
            (log != [] && log[|log| - 1].kind == Down <==> s.db.monitors[id].lastState == Some(Unhealthy)))
  {
    var longer := RunLeadsOn(window, run, s);
    AlertsAlternate(window, longer, |longer| - 1, id);
  }

  lemma {:induction false} PathKeepsInv(window: int, path: seq<Sys>)
    requires IsPath(window, path) && Inv(window, path[0])
    ensures Inv(window, path[|path| - 1])
  {
    if |path| > 1 {
      var before := path[..|path| - 1];
      assert FollowsAt(window, path, |path| - 2);
      assert IsPath(window, before) by {
        forall i | 0 <= i < |before| - 1 ensures FollowsAt(window, before, i) {
          assert FollowsAt(window, path, i);
        }
      }
      PathKeepsInv(window, before);
      StepKeepsInv(window, path[|path| - 2], path[|path| - 1]);
    }
  }

  lemma StepKeepsInv(window: int, s: Sys, s': Sys)
    requires Inv(window, s) && Follows(window, s, s')
    ensures Inv(window, s')
  {
    var action :| Next(window, s, s', action);
    NextKeeps(window, s, s', action);
  }

  lemma LeadsKeepsInv(window: int, s: Sys, s': Sys)
    requires Leads(window, s, s') && Inv(window, s)
    ensures Inv(window, s')
  {
    var path :| IsPath(window, path) && path[0] == s && path[|path| - 1] == s';
    PathKeepsInv(window, path);
  }

  // ----- A check -----

  lemma DeleteIsStep(window: int, s: Sys, gone: set<nat>)
    requires Linked(s.db)
    ensures Linked(Without(s.db, gone)) && Leads(window, s, s.(db := Without(s.db, gone)))
  {
    DeletingMeetsRely(s.db, gone);
    RelyKeepsLinked(s.db, Without(s.db, gone));
    OneStep(window, s, s.(db := Without(s.db, gone)), Environment(Without(s.db, gone)));
  }

  /** Whatever happens to the check of an active job, the database goes through steps of the
      protocol: the commit, another session's delete, or none. */
  method CheckRefines(store: Database, ghost window: int, ghost s: Sys, ghost j: nat, job: Job, known: bool,
                      probe: Probe, threshold: int, at: int, faults: Faults)
    returns (outcome: Outcome, ghost s': Sys)
    requires s.db == store.committed && Linked(s.db) && s.worker.Running?
    requires j in s.worker.cycle.active && j !in s.worker.persisted && j < |s.worker.jobs| && s.worker.jobs[j] == job
    requires s.worker.fetchedAt <= at <= s.clock
    modifies store
    ensures Leads(window, s, s') && s'.db == store.committed
    ensures s'.worker.Running? && s'.worker.cycle == s.worker.cycle && s'.worker.jobs == s.worker.jobs
    ensures s'.worker.fetchedAt == s.worker.fetchedAt && s'.clock == s.clock
    ensures s.worker.persisted <= s'.worker.persisted <= s.worker.persisted + {j}
    ensures Linked(s'.db) && s'.db.nextMonitor == s.db.nextMonitor && s'.db.monitors.Keys <= s.db.monitors.Keys
    ensures outcome == Completed ==> j in s'.worker.persisted || job.id !in s'.db.monitors
  {
    outcome := CheckAndPersist(store, job, known, probe, threshold, at, faults);
    s' := s.(db := store.committed);
    NoStep(window, s);
    if outcome != CheckFailed {
      ghost var e := EvaluateFsm(job.row.lastState, job.row.failures, probe.state, threshold);
      if Commits(s.db, job, e.alert.Some?, faults) {
        s' := Committed(s, j, probe.state, threshold, at);
        CommitKeepsLinks(s.db, job, probe.state, threshold, at);
        OneStep(window, s, s', Commit(j, probe.state, threshold, at));
      } else if store.committed != s.db {
        DeleteIsStep(window, s, {job.id});
      }
    }
  }

  // ----- A cleanup -----

  function Purging(s: Sys, trail: seq<Db>): (states: seq<Sys>)
    ensures |states| == |trail| && forall k :: 0 <= k < |trail| ==> states[k] == s.(db := trail[k])
  {
    seq(|trail|, k requires 0 <= k < |trail| => s.(db := trail[k]))
  }

  lemma StatementIsStep(window: int, s: Sys, db: Db, db': Db, table: Table, readAt: int, days: int, limit: nat,
                        locked: set<nat>)
    requires IsStatement(db, db', table, Cutoff(readAt, days), limit, locked)
    requires readAt <= s.clock && (table == CheckResults ==> window <= days * DAY)
    ensures Follows(window, s.(db := db), s.(db := db'))
  {
    var stamps := StampsOf(db, table);
    var batch :| Batch(stamps, Expired(stamps, Cutoff(readAt, days)) - locked, limit, batch)
      && db' == Purge(db, table, batch);
    var action := if table == CheckResults then RetainResults(batch, readAt, days)
                  else RetainAlerts(batch, readAt, days, limit, locked);
    assert Next(window, s.(db := db), s.(db := db'), action);
  }

  /** A cleanup, for any failure and any locked rows, is a path of the protocol, one step for each
      statement that takes effect. */
  method CleanupRefines(store: Database, table: Table, days: int, batchSize: nat, maxBatches: nat, now: nat -> int,
                        locked: nat -> set<nat>, fate: nat -> Fate, ghost window: int, ghost s: Sys)
    returns (ok: bool, ghost path: seq<Sys>)
    requires s.db == store.committed && batchSize > 0 && (table == CheckResults ==> window <= days * DAY)
    requires forall k: nat :: now(k) <= s.clock
    modifies store
    ensures IsPath(window, path) && path[0] == s && path[|path| - 1] == s.(db := store.committed)
  {
    ghost var taken, trail;
    ok, taken, trail := CleanTable(store, table, days, batchSize, maxBatches, now, locked, fate);
    path := Purging(s, trail);
    forall k | 0 <= k < |path| - 1 ensures FollowsAt(window, path, k) {
      assert IsStatement(trail[k], trail[k + 1], table, Cutoff(now(k), days), batchSize, locked(k));
      StatementIsStep(window, s, trail[k], trail[k + 1], table, now(k), days, batchSize, locked(k));
    }
  }
}
