/** What the assumption that commits are settled is for.  Here a commit may land at any time and from
    any snapshot, as when its reply is lost and the server applies it after the monitor was fetched
    again (sentinel-worker/internal/worker/loop.go, checkAndPersist). */
module LateCommits {
  import opened Schema
  import opened Fsm
  import opened Persist
  import opened Dispatcher
  import opened Protocol

  /** The check of a job lands that was fetched at move `fetch`, or anything but a commit happens. */
  datatype Move =
    | Lands(fetch: nat, job: Job, probe: State, threshold: int, at: int)
    | Moves(action: Action)

  ghost predicate NextMove(window: int, s: Sys, s': Sys, m: Move) {
    match m
    case Lands(_, job, probe, threshold, at) =>
      job.id in s.db.monitors && s' == Landed(s, job, probe, threshold, at)
    case Moves(action) => !action.Commit? && Next(window, s, s', action)
  }

  /** Only jobs that were fetched earlier land, and each at most once. */
  ghost predicate WasFetched(moves: seq<Move>, k: nat)
    requires k < |moves|
  {
    moves[k].Lands? ==>
      && moves[k].fetch < k && moves[moves[k].fetch].Moves? && moves[moves[k].fetch].action.Fetch?
      && moves[k].job in moves[moves[k].fetch].action.jobs
      && forall j :: 0 <= j < k && moves[j].Lands? ==>
          moves[j].fetch != moves[k].fetch || moves[j].job != moves[k].job
  }

  ghost predicate IsLateRun(window: int, run: seq<Sys>, moves: seq<Move>) {
    && |run| == |moves| + 1 && Init(run[0])
    && (forall i :: 0 <= i < |moves| ==> NextMove(window, run[i], run[i + 1], moves[i]))
    && (forall k :: 0 <= k < |moves| ==> WasFetched(moves, k))
  }

  predicate IsDown(row: Monitor) { row.lastState == Some(Unhealthy) }

  /** The monitor's alerts alternate, down first, and end with down exactly when it is down. */
  ghost predicate InStep(s: Sys, id: nat) {
    DownFirst(Of(s.log, id)) && (id in s.db.monitors ==> (IsDown(s.db.monitors[id]) <==> |Of(s.log, id)| % 2 == 1))
  }

  /** The snapshot agrees with the row about being down. */
  predicate Alike(s: Sys, job: Job)
    requires job.id in s.db.monitors
  {
    IsDown(job.row) <==> IsDown(s.db.monitors[job.id])
  }

  ghost predicate Known(s: Sys) {
    && (forall id :: id in s.db.monitors ==> id < s.db.nextMonitor)
    && (forall id :: id in s.log ==> id < s.db.nextMonitor)
  }

  lemma LoggedIff(log: seq<Entry>, wasDown: bool, snapshotDown: bool, entry: Entry, alerts: bool, down: bool)
    requires DownFirst(log) && (wasDown <==> |log| % 2 == 1)
    requires alerts <==> snapshotDown != down
    requires alerts ==> (entry.kind == Down <==> down)
    ensures var log' := if alerts then log + [entry] else log;
      DownFirst(log') && (down <==> |log'| % 2 == 1) <==> (snapshotDown <==> wasDown)
  {
    var longer := log + [entry];
    assert longer[|log|] == entry;
    assert forall k :: 0 <= k < |log| ==> longer[k] == log[k];
  }

  lemma SnapshotAlerts(job: Job, probe: State, threshold: int)
    ensures var e := EvaluateFsm(job.row.lastState, job.row.failures, probe, threshold);
      && (e.alert.Some? <==> IsDown(job.row) != (e.state == Some(Unhealthy)))
      && (e.alert.Some? ==> (e.alert.value == Down <==> e.state == Some(Unhealthy)))
  {
    AlertIsTransition(job.row.lastState, job.row.failures, probe, threshold);
  }

  /** One landing keeps its monitor in step if and only if its snapshot is right about being down. */
  lemma LandingKeepsStep(s: Sys, job: Job, probe: State, threshold: int, at: int)
    requires job.id in s.db.monitors && InStep(s, job.id)
    ensures InStep(Landed(s, job, probe, threshold, at), job.id) <==> Alike(s, job)
  {
    var e := EvaluateFsm(job.row.lastState, job.row.failures, probe, threshold);
    var s' := Landed(s, job, probe, threshold, at);
    SnapshotAlerts(job, probe, threshold);
    assert s'.db.monitors[job.id].lastState == e.state;
    var entry := Entry(s.db.nextAlert, if e.alert.Some? then e.alert.value else Down, at);
    LoggedIff(Of(s.log, job.id), IsDown(s.db.monitors[job.id]), IsDown(job.row), entry, e.alert.Some?,
      e.state == Some(Unhealthy));
  }

  lemma LandingLeavesOthers(s: Sys, job: Job, probe: State, threshold: int, at: int, id: nat)
    requires job.id in s.db.monitors && id != job.id && InStep(s, id)
    ensures InStep(Landed(s, job, probe, threshold, at), id)
  {
  }

  lemma LandingIsKnown(s: Sys, job: Job, probe: State, threshold: int, at: int)
    requires job.id in s.db.monitors && Known(s)
    ensures Known(Landed(s, job, probe, threshold, at))
  {
  }

  /** Nothing but a commit touches the step of a monitor. */
  lemma OthersKeepStep(window: int, s: Sys, s': Sys, action: Action, id: nat)
    requires Known(s) && InStep(s, id) && !action.Commit? && Next(window, s, s', action)
    ensures Known(s') && InStep(s', id)
  {
    match action
    case Environment(db') => EnvironmentKeepsStep(s, db', id);
    case _ =>
  }

  lemma EnvironmentKeepsStep(s: Sys, db': Db, id: nat)
    requires Known(s) && InStep(s, id) && Rely(s.db, db')
    ensures Known(s.(db := db')) && InStep(s.(db := db'), id)
  {
    forall i | i in db'.monitors ensures i < db'.nextMonitor {
      if i in s.db.monitors { assert i < s.db.nextMonitor; }
    }
  }

  /** A commit of the monitor that lands from a snapshot that is wrong about its being down. */
  ghost predicate Misses(s: Sys, m: Move, id: nat) {
    m.Lands? && m.job.id == id && id in s.db.monitors && !Alike(s, m.job)
  }

  lemma MoveKeepsStep(window: int, s: Sys, s': Sys, m: Move, id: nat)
    requires Known(s) && InStep(s, id) && NextMove(window, s, s', m)
    ensures Known(s') && (InStep(s', id) <==> !Misses(s, m, id))
  {
    match m
    case Lands(_, job, probe, threshold, at) =>
      LandingIsKnown(s, job, probe, threshold, at);
      if job.id == id {
        LandingKeepsStep(s, job, probe, threshold, at);
      } else {
        LandingLeavesOthers(s, job, probe, threshold, at, id);
      }
    case Moves(action) => OthersKeepStep(window, s, s', action, id);
  }

  lemma {:induction false} InStepUpTo(window: int, run: seq<Sys>, moves: seq<Move>, id: nat, i: nat)
    requires IsLateRun(window, run, moves) && i < |run|
    requires forall k :: 0 <= k < i ==> !Misses(run[k], moves[k], id)
    ensures Known(run[i]) && InStep(run[i], id)
  {
    if i > 0 {
      InStepUpTo(window, run, moves, id, i - 1);
      MoveKeepsStep(window, run[i - 1], run[i], moves[i - 1], id);
    }
  }

  /** Over every run in which commits land whenever they will: a monitor's alerts always alternate
      and agree with its state if and only if each of its commits lands from a snapshot that is
      right about its being down. */
  lemma AlternatesIffAlike(window: int, run: seq<Sys>, moves: seq<Move>, id: nat)
    requires IsLateRun(window, run, moves)
    ensures (forall i :: 0 <= i < |run| ==> InStep(run[i], id))
      <==> (forall k :: 0 <= k < |moves| ==> !Misses(run[k], moves[k], id))
  {
    if k :| 0 <= k < |moves| && Misses(run[k], moves[k], id) {
      FirstMiss(window, run, moves, id, k);
    } else {
      forall i | 0 <= i < |run| ensures InStep(run[i], id) {
        InStepUpTo(window, run, moves, id, i);
      }
    }
  }

  lemma {:induction false} FirstMiss(window: int, run: seq<Sys>, moves: seq<Move>, id: nat, k: nat)
    requires IsLateRun(window, run, moves) && k < |moves| && Misses(run[k], moves[k], id)
    ensures exists i :: 0 <= i < |run| && !InStep(run[i], id)
  {
    if j :| 0 <= j < k && Misses(run[j], moves[j], id) {
      FirstMiss(window, run, moves, id, j);
    } else {
      InStepUpTo(window, run, moves, id, k);
      MoveKeepsStep(window, run[k], run[k + 1], moves[k], id);
      assert !InStep(run[k + 1], id);
    }
  }

  // ----- A second down -----

  function NewRow(): Monitor { Monitor(1, None, "m", "t", "http", 10, true, false, None, None, 0) }

  function Snapshot(): Job { Job(1, NewRow()) }

  function Start(): Sys { Sys(EMPTY_DB, 0, Idle, map[], map[], map[]) }

  function Created(): Sys { Start().(db := Insert(EMPTY_DB, NewRow())) }

  function Fetched(): Sys { Created().(worker := Running([Snapshot()], 0, Open(1, 1), {})) }

  /** The commit was sent, its reply lost: the job is over for the worker. */
  function Returned(): Sys { Created().(worker := Running([Snapshot()], 0, Step(Open(1, 1), Finish(0)), {})) }

  function Once(): Sys
    requires 1 in Fetched().db.monitors
  {
    Landed(Fetched(), Snapshot(), Unhealthy, 1, 0)
  }

  function Twice(): Sys
    requires 1 in Fetched().db.monitors && 1 in Once().db.monitors
  {
    Landed(Once(), Snapshot(), Unhealthy, 1, 0)
  }

  lemma OnceIsDown()
    ensures 1 in Fetched().db.monitors && 1 in Once().db.monitors
    ensures Of(Once().log, 1) == [Entry(1, Down, 0)] && Once().db.nextAlert == 2
  {
    assert EvaluateFsm(None, 0, Unhealthy, 1) == Evaluation(Some(Unhealthy), 1, Some(Down));
  }

  lemma CreationIsMove(window: int)
    ensures Next(window, Start(), Created(), Environment(Created().db))
  {
    InsertMeetsRely(EMPTY_DB, NewRow());
  }

  lemma FetchIsMove(window: int)
    ensures Next(window, Created(), Fetched(), Fetch([Snapshot()], 1))
  {
    var jobs := [Snapshot()];
    assert jobs[0].id == 1;
    assert Created().db.monitors == map[1 := NewRow()];
    assert IsDueList(Created().db, 0, jobs);
  }

  lemma ReturnIsMove(window: int)
    ensures Next(window, Fetched(), Returned(), Dispatching(Finish(0)))
    ensures Next(window, Returned(), Created(), EndCycle)
  {
    assert Open(1, 1).active == {0};
  }

  function TwoFetches(): seq<Move> {
    [Moves(Environment(Created().db)), Moves(Fetch([Snapshot()], 1)), Moves(Dispatching(Finish(0))), Moves(EndCycle),
     Moves(Fetch([Snapshot()], 1)), Lands(1, Snapshot(), Unhealthy, 1, 0), Lands(4, Snapshot(), Unhealthy, 1, 0)]
  }

  lemma BothWereFetched(k: nat)
    requires k < |TwoFetches()|
    ensures WasFetched(TwoFetches(), k)
  {
    var jobs := [Snapshot()];
    assert jobs[0] == Snapshot();
  }

  function TwoFetchesRun(): seq<Sys>
    requires 1 in Fetched().db.monitors && 1 in Once().db.monitors
  {
    [Start(), Created(), Fetched(), Returned(), Created(), Fetched(), Once(), Twice()]
  }

  lemma EachIsMove(window: int, k: nat)
    requires 1 in Fetched().db.monitors && 1 in Once().db.monitors && k < |TwoFetches()|
    ensures NextMove(window, TwoFetchesRun()[k], TwoFetchesRun()[k + 1], TwoFetches()[k])
  {
    if k == 0 {
      CreationIsMove(window);
    } else if k == 1 || k == 4 {
      FetchIsMove(window);
    } else if k < 4 {
      ReturnIsMove(window);
    }
  }

  /** A cycle ends with the reply to its commit lost; the next one fetches the row, still as it was
      created; then both commits land, and the monitor goes down twice. */
  lemma SecondDown(window: int) returns (run: seq<Sys>)
    ensures IsLateRun(window, run, TwoFetches())
    ensures Of(run[|run| - 1].log, 1) == [Entry(1, Down, 0), Entry(2, Down, 0)]
  {
    OnceIsDown();
    TwiceIsDown();
    run := TwoFetchesRun();
    forall k | 0 <= k < |TwoFetches()|
      ensures NextMove(window, run[k], run[k + 1], TwoFetches()[k]) && WasFetched(TwoFetches(), k)
    {
      EachIsMove(window, k);
      BothWereFetched(k);
    }
  }

  lemma TwiceIsDown()
    requires 1 in Fetched().db.monitors && 1 in Once().db.monitors
    ensures Of(Twice().log, 1) == [Entry(1, Down, 0), Entry(2, Down, 0)]
  {
    OnceIsDown();
  }
}
