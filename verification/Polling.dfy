/** The poll loop with everything in it: fetch, dispatch, checks that commit while others are still
    running, and other sessions that write in between (sentinel-worker/internal/worker/loop.go,
    runWithHealth, runPollCycle and checkAndPersist together). */
module Polling {
  import opened Schema
  import opened Persist
  import opened Dispatcher
  import opened Protocol
  import opened Refinement

  /** What another session makes of the database, whenever it commits. */
  type Others = (int, Db) -> Db

  ghost predicate MeetRely(others: Others) {
    forall k, db :: Linked(db) ==> Rely(db, others(k, db))
  }

  /** The outcomes so far, as the work function of the dispatcher. */
  function WorkOf(outcomes: seq<Outcome>): nat -> Outcome {
    (j: nat) => if j < |outcomes| then outcomes[j] else Completed
  }

  // ----- Outcomes that are still to come -----

  ghost predicate AgreeOn(jobs: seq<nat>, a: seq<Outcome>, b: seq<Outcome>) {
    |a| == |b| && forall j :: j in jobs && j < |a| ==> a[j] == b[j]
  }

  lemma {:induction false} SameCounts(jobs: seq<nat>, a: seq<Outcome>, b: seq<Outcome>)
    requires AgreeOn(jobs, a, b)
    ensures CountBeats(jobs, WorkOf(a)) == CountBeats(jobs, WorkOf(b))
    ensures Failures(jobs, WorkOf(a)) == Failures(jobs, WorkOf(b))
  {
    if jobs != [] {
      SameCounts(jobs[..|jobs| - 1], a, b);
      assert jobs[|jobs| - 1] in jobs;
    }
  }

  /** `b` differs from `a` only for jobs of this set. */
  ghost predicate DifferOn(jobs: set<nat>, a: seq<Outcome>, b: seq<Outcome>) {
    |a| == |b| && forall j: nat :: j < |a| && a[j] != b[j] ==> j in jobs
  }

  lemma ActiveNotFinished(events: seq<Event>, c: Cycle, j: nat)
    requires At(events, c) && j in c.active
    ensures j !in Finished(events)
  {
    DispatchInvariant(c.n, c.limit, events);
  }

  /** The outcome of an active job does not matter to the loop yet. */
  lemma HeadKeeps(n: nat, limit: nat, a: seq<Outcome>, b: seq<Outcome>, ctx: Context, c: Cycle, events: seq<Event>,
                  started: seq<nat>, heartbeats: nat, workErrors: seq<nat>, reports: nat)
    requires AtHead(n, limit, WorkOf(a), ctx, c, events, started, heartbeats, workErrors, reports)
    requires DifferOn(c.active, a, b)
    ensures AtHead(n, limit, WorkOf(b), ctx, c, events, started, heartbeats, workErrors, reports)
  {
    forall j | j in Finished(events) && j < |a| ensures a[j] == b[j] {
      if j in c.active { ActiveNotFinished(events, c, j); }
    }
    SameCounts(Finished(events), a, b);
  }

  // ----- The state of the protocol -----

  /** A nil outcome of a check that is over means it is recorded, or its monitor is gone. */
  ghost predicate Settled(jobs: seq<Job>, outcomes: seq<Outcome>, checked: set<nat>, persisted: set<nat>, db: Db) {
    && |outcomes| == |jobs|
    && (forall k :: 0 <= k < |jobs| ==> jobs[k].id < db.nextMonitor)
    && (forall j :: j in checked ==> j < |jobs|)
    && (forall j :: j in checked && outcomes[j] == Completed ==> j in persisted || jobs[j].id !in db.monitors)
  }

  lemma OthersKeepSettled(jobs: seq<Job>, outcomes: seq<Outcome>, checked: set<nat>, persisted: set<nat>,
                          db: Db, db': Db)
    requires Settled(jobs, outcomes, checked, persisted, db) && Rely(db, db')
    ensures Settled(jobs, outcomes, checked, persisted, db')
  {
  }

  lemma CheckKeepsSettled(jobs: seq<Job>, outcomes: seq<Outcome>, checked: set<nat>, persisted: set<nat>, db: Db,
                          j: nat, outcome: Outcome, persisted': set<nat>, db': Db)
    requires Settled(jobs, outcomes, checked, persisted, db) && j < |jobs| && j !in checked
    requires db'.nextMonitor == db.nextMonitor && db'.monitors.Keys <= db.monitors.Keys && persisted <= persisted'
    requires outcome == Completed ==> j in persisted' || jobs[j].id !in db'.monitors
    ensures Settled(jobs, outcomes[j := outcome], checked + {j}, persisted', db')
  {
  }

  /** In the middle of a cycle that started from `s0`: the database is at `s`, the dispatcher at `cycle`. */
  ghost predicate Between(window: int, s0: Sys, s: Sys, db: Db, jobs: seq<Job>, fetchedAt: int, now: int, cycle: Cycle,
                          checked: set<nat>, outcomes: seq<Outcome>) {
    && Leads(window, s0, s) && s.db == db && Linked(db) && s.clock == now && fetchedAt <= now
    && s.worker.Running? && s.worker.jobs == jobs && s.worker.fetchedAt == fetchedAt && s.worker.cycle == cycle
    && s.worker.persisted <= checked && Settled(jobs, outcomes, checked, s.worker.persisted, db)
  }

  lemma TimePasses(window: int, s0: Sys, s: Sys, db: Db, jobs: seq<Job>, fetchedAt: int, now: int, cycle: Cycle,
                   checked: set<nat>, outcomes: seq<Outcome>, later: int)
    requires Between(window, s0, s, db, jobs, fetchedAt, now, cycle, checked, outcomes) && now <= later
    ensures Between(window, s0, s.(clock := later), db, jobs, fetchedAt, later, cycle, checked, outcomes)
  {
    OneStep(window, s, s.(clock := later), Tick(later));
    MoreSteps(window, s0, s, s.(clock := later));
  }

  lemma OthersWrite(window: int, s0: Sys, s: Sys, db: Db, jobs: seq<Job>, fetchedAt: int, now: int, cycle: Cycle,
                    checked: set<nat>, outcomes: seq<Outcome>, db': Db)
    requires Between(window, s0, s, db, jobs, fetchedAt, now, cycle, checked, outcomes) && Rely(db, db')
    ensures Between(window, s0, s.(db := db'), db', jobs, fetchedAt, now, cycle, checked, outcomes)
  {
    RelyKeepsLinked(db, db');
    OneStep(window, s, s.(db := db'), Environment(db'));
    MoreSteps(window, s0, s, s.(db := db'));
    OthersKeepSettled(jobs, outcomes, checked, s.worker.persisted, db, db');
  }

  function WithCycle(s: Sys, cycle: Cycle): Sys
    requires s.worker.Running?
  {
    s.(worker := s.worker.(cycle := cycle))
  }

  /** The dispatcher moves on. */
  lemma EventHappens(window: int, s0: Sys, s: Sys, db: Db, jobs: seq<Job>, fetchedAt: int, now: int, cycle: Cycle,
                     checked: set<nat>, outcomes: seq<Outcome>, e: Event)
    requires Between(window, s0, s, db, jobs, fetchedAt, now, cycle, checked, outcomes) && Enabled(cycle, e)
    ensures Between(window, s0, WithCycle(s, Step(cycle, e)), db, jobs, fetchedAt, now, Step(cycle, e), checked,
                    outcomes)
  {
    OneStep(window, s, WithCycle(s, Step(cycle, e)), Dispatching(e));
    MoreSteps(window, s0, s, WithCycle(s, Step(cycle, e)));
  }

  /** A result is read, a cancellation seen at it or not. */
  lemma ReportHappens(window: int, s0: Sys, s: Sys, db: Db, jobs: seq<Job>, fetchedAt: int, now: int, cycle: Cycle,
                      checked: set<nat>, outcomes: seq<Outcome>, seen: bool, job: nat)
    requires Between(window, s0, s, db, jobs, fetchedAt, now, cycle, checked, outcomes)
    requires !cycle.cancelled && job in cycle.active
    ensures var c := Step(cycle.(cancelled := seen), Finish(job));
      Between(window, s0, WithCycle(s, c), db, jobs, fetchedAt, now, c, checked, outcomes)
  {
    if seen {
      EventHappens(window, s0, s, db, jobs, fetchedAt, now, cycle, checked, outcomes, Cancel);
      EventHappens(window, s0, WithCycle(s, Step(cycle, Cancel)), db, jobs, fetchedAt, now, Step(cycle, Cancel),
        checked, outcomes, Finish(job));
    } else {
      EventHappens(window, s0, s, db, jobs, fetchedAt, now, cycle, checked, outcomes, Finish(job));
    }
  }

  /** All events from the k-th on. */
  lemma {:induction false} EventsHappen(window: int, s0: Sys, s: Sys, db: Db, jobs: seq<Job>, fetchedAt: int, now: int,
                                        c0: Cycle, events: seq<Event>, k: nat, checked: set<nat>,
                                        outcomes: seq<Outcome>)
    requires k <= |events| && Legal(c0, events)
    requires Between(window, s0, s, db, jobs, fetchedAt, now, Run(c0, events[..k]), checked, outcomes)
    ensures Between(window, s0, WithCycle(s, Run(c0, events)), db, jobs, fetchedAt, now, Run(c0, events), checked,
                    outcomes)
    decreases |events|
  {
    if k == |events| {
      assert events[..k] == events;
      assert WithCycle(s, Run(c0, events)) == s;
    } else {
      var before, e := events[..|events| - 1], events[|events| - 1];
      assert before[..k] == events[..k];
      EventsHappen(window, s0, s, db, jobs, fetchedAt, now, c0, before, k, checked, outcomes);
      EventHappens(window, s0, WithCycle(s, Run(c0, before)), db, jobs, fetchedAt, now, Run(c0, before), checked,
        outcomes, e);
    }
  }

  // ----- While jobs are running -----

  /** The check of an active job runs to its end. */
  method CheckJob(store: Database, jobs: seq<Job>, j: nat, outcomes: seq<Outcome>, now: int, threshold: int,
                  fetchedAt: int, ghost window: int, ghost s0: Sys, ghost s: Sys, ghost cycle: Cycle,
                  ghost checked: set<nat>)
    returns (outcomes': seq<Outcome>, ghost s': Sys)
    requires Between(window, s0, s, store.committed, jobs, fetchedAt, now, cycle, checked, outcomes)
    requires j in cycle.active && j !in checked && j < |jobs|
    modifies store
    ensures Between(window, s0, s', store.committed, jobs, fetchedAt, now, cycle, checked + {j}, outcomes')
    ensures DifferOn({j}, outcomes, outcomes')
  {
    // whatever the probe gives and whichever statement fails
    var known: bool, probe: Probe, faults: Faults := *, *, *;
    // the clock was read at some time since the fetch
    var at: int := *;
    if at < fetchedAt || now < at { at := now; }
    var outcome;
    outcome, s' := CheckRefines(store, window, s, j, jobs[j], known, probe, threshold, at, faults);
    outcomes' := outcomes[j := outcome];
    MoreSteps(window, s0, s, s');
    CheckKeepsSettled(jobs, outcomes, checked, s.worker.persisted, s.db, j, outcome, s'.worker.persisted, s'.db);
  }

  /** Time passes, and another session commits. */
  method Elsewhere(store: Database, ghost jobs: seq<Job>, now: int, others: Others, ghost fetchedAt: int,
                   ghost window: int, ghost s0: Sys, ghost s: Sys, ghost cycle: Cycle, ghost checked: set<nat>,
                   ghost outcomes: seq<Outcome>)
    returns (now': int, ghost s': Sys)
    requires Between(window, s0, s, store.committed, jobs, fetchedAt, now, cycle, checked, outcomes) && MeetRely(others)
    modifies store
    ensures Between(window, s0, s', store.committed, jobs, fetchedAt, now', cycle, checked, outcomes) && now <= now'
  {
    var pause: int, k: int := *, *;
    now' := if pause < 0 then now else now + pause;
    TimePasses(window, s0, s, store.committed, jobs, fetchedAt, now, cycle, checked, outcomes, now');
    OthersWrite(window, s0, s.(clock := now'), store.committed, jobs, fetchedAt, now', cycle, checked, outcomes,
      others(k, store.committed));
    store.committed := others(k, store.committed);
    s' := s.(clock := now').(db := store.committed);
  }

  /** Time passes, other sessions commit, and some of the active jobs come to their end. */
  method Meanwhile(store: Database, jobs: seq<Job>, running: set<nat>, checked: set<nat>, outcomes: seq<Outcome>,
                   now: int, threshold: int, others: Others, fetchedAt: int, ghost window: int, ghost s0: Sys,
                   ghost s: Sys, ghost cycle: Cycle)
    returns (checked': set<nat>, outcomes': seq<Outcome>, now': int, ghost s': Sys)
    requires Between(window, s0, s, store.committed, jobs, fetchedAt, now, cycle, checked, outcomes)
    requires MeetRely(others) && running == cycle.active && forall j :: j in running ==> j < |jobs|
    modifies store
    ensures Between(window, s0, s', store.committed, jobs, fetchedAt, now', cycle, checked', outcomes')
    ensures checked <= checked' && now <= now' && DifferOn(running, outcomes, outcomes')
  {
    checked', outcomes', now', s' := checked, outcomes, now, s;
    var steps: int := *;
    while steps > 0
      invariant Between(window, s0, s', store.committed, jobs, fetchedAt, now', cycle, checked', outcomes')
      invariant checked <= checked' && now <= now' && DifferOn(running, outcomes, outcomes')
      decreases steps
    {
      steps := steps - 1;
      now', s' := Elsewhere(store, jobs, now', others, fetchedAt, window, s0, s', cycle, checked', outcomes');
      var ends: bool := *;
      if ends && running - checked' != {} {
        var j :| j in running - checked';
        ghost var before := outcomes';
        outcomes', s' := CheckJob(store, jobs, j, outcomes', now', threshold, fetchedAt, window, s0, s', cycle,
                                 checked');
        DifferMore(running, outcomes, before, {j}, outcomes');
        checked' := checked' + {j};
      }
    }
  }

  lemma DifferMore(running: set<nat>, a: seq<Outcome>, b: seq<Outcome>, more: set<nat>, c: seq<Outcome>)
    requires DifferOn(running, a, b) && DifferOn(more, b, c) && more <= running
    ensures DifferOn(running, a, c)
  {
  }

  /** Some time later, this job has come to its end. */
  method AwaitJob(store: Database, jobs: seq<Job>, job: nat, running: set<nat>, checked: set<nat>,
                  outcomes: seq<Outcome>, now: int, threshold: int, others: Others, fetchedAt: int, ghost window: int,
                  ghost s0: Sys, ghost s: Sys, ghost cycle: Cycle)
    returns (checked': set<nat>, outcomes': seq<Outcome>, now': int, ghost s': Sys)
    requires Between(window, s0, s, store.committed, jobs, fetchedAt, now, cycle, checked, outcomes)
    requires MeetRely(others) && running == cycle.active && (forall j :: j in running ==> j < |jobs|) && job in running
    modifies store
    ensures Between(window, s0, s', store.committed, jobs, fetchedAt, now', cycle, checked', outcomes')
    ensures checked + {job} <= checked' && now <= now' && DifferOn(running, outcomes, outcomes')
  {
    checked', outcomes', now', s' := Meanwhile(store, jobs, running, checked, outcomes, now, threshold, others,
                                               fetchedAt, window, s0, s, cycle);
    if job !in checked' {
      ghost var before := outcomes';
      outcomes', s' := CheckJob(store, jobs, job, outcomes', now', threshold, fetchedAt, window, s0, s', cycle,
                                 checked');
      DifferMore(running, outcomes, before, {job}, outcomes');
      checked' := checked' + {job};
    }
  }

  /** All of these jobs come to their end. */
  method AwaitAll(store: Database, jobs: seq<Job>, running: set<nat>, checked: set<nat>, outcomes: seq<Outcome>,
                  now: int, threshold: int, others: Others, fetchedAt: int, ghost window: int, ghost s0: Sys,
                  ghost s: Sys, ghost cycle: Cycle)
    returns (checked': set<nat>, outcomes': seq<Outcome>, now': int, ghost s': Sys)
    requires Between(window, s0, s, store.committed, jobs, fetchedAt, now, cycle, checked, outcomes)
    requires MeetRely(others) && running == cycle.active && forall j :: j in running ==> j < |jobs|
    modifies store
    ensures Between(window, s0, s', store.committed, jobs, fetchedAt, now', cycle, checked', outcomes')
    ensures checked + running <= checked' && now <= now' && DifferOn(running, outcomes, outcomes')
  {
    checked', outcomes', now', s' := checked, outcomes, now, s;
    while running - checked' != {}
      invariant Between(window, s0, s', store.committed, jobs, fetchedAt, now', cycle, checked', outcomes')
      invariant checked <= checked' && now <= now' && DifferOn(running, outcomes, outcomes')
      decreases |running - checked'|
    {
      ghost var was, before := checked', outcomes';
      var j :| j in running - checked';
      checked', outcomes', now', s' := AwaitJob(store, jobs, j, running, checked', outcomes', now', threshold, others,
                                                fetchedAt, window, s0, s', cycle);
      DifferMore(running, outcomes, before, running, outcomes');
      FewerLeft(running, was, checked', j);
    }
    NothingLeft(running, checked');
  }

  lemma FewerLeft(running: set<nat>, was: set<nat>, checked: set<nat>, j: nat)
    requires was + {j} <= checked && j in running && j !in was
    ensures |running - checked| < |running - was|
  {
    assert running - was == (running - checked) + ((running - was) * checked);
    assert j in (running - was) * checked;
  }

  lemma NothingLeft(running: set<nat>, checked: set<nat>)
    requires running - checked == {}
    ensures running <= checked
  {
    forall j | j in running ensures j in checked {
      assert j !in running - checked;
    }
  }

  // ----- A cycle -----

  /** Every job that was started and is not active any more has come to its end. */
  ghost predicate OthersDone(c: Cycle, checked: set<nat>) {
    forall j: nat :: j < c.next ==> j in c.active || j in checked
  }

  lemma OpenDone(n: nat, limit: nat)
    ensures OthersDone(Open(n, limit), {})
  {
  }

  lemma ReportDone(c: Cycle, checked: set<nat>, seen: bool, job: nat)
    requires OthersDone(c, checked) && job in checked
    ensures OthersDone(Step(c.(cancelled := seen), Finish(job)), checked)
  {
  }

  lemma MoreDone(c: Cycle, checked: set<nat>, checked': set<nat>)
    requires OthersDone(c, checked) && checked <= checked'
    ensures OthersDone(c, checked')
  {
  }

  lemma ActiveAreJobs(events: seq<Event>, c: Cycle)
    requires At(events, c)
    ensures forall j :: j in c.active ==> j < c.next <= c.n
  {
  }

  /** What a cycle came to, with its effects: the dispatcher's part is as specified for the outcomes
      there were, and each job that was started has come to its end. */
  ghost predicate CycleCameTo(window: int, s0: Sys, s: Sys, db: Db, jobs: seq<Job>, limit: nat, fetchedAt: int,
                              now: int, checked: set<nat>, outcomes: seq<Outcome>, ctx: Context, err: CycleError,
                              heartbeats: nat, started: seq<nat>, events: seq<Event>) {
    && CycleDone(|jobs|, limit, WorkOf(outcomes), ctx, err, heartbeats, started, events)
    && Between(window, s0, s, db, jobs, fetchedAt, now, Run(Open(|jobs|, limit), events), checked, outcomes)
    && (forall j: nat :: j < |started| ==> j in checked)
  }

  /** The head of the loop: where the dispatcher is, and the protocol with it. */
  ghost predicate AtTop(window: int, s0: Sys, s: Sys, db: Db, jobs: seq<Job>, limit: nat, fetchedAt: int, now: int,
                        ctx: Context, cycle: Cycle, checked: set<nat>, outcomes: seq<Outcome>, events: seq<Event>,
                        started: seq<nat>, heartbeats: nat, workErrors: seq<nat>, reports: nat) {
    && AtHead(|jobs|, limit, WorkOf(outcomes), ctx, cycle, events, started, heartbeats, workErrors, reports)
    && Between(window, s0, s, db, jobs, fetchedAt, now, cycle, checked, outcomes)
    && OthersDone(cycle, checked)
  }

  lemma Awaited(window: int, s0: Sys, s: Sys, db: Db, jobs: seq<Job>, limit: nat, fetchedAt: int, now: int,
                ctx: Context, cycle: Cycle, checked: set<nat>, outcomes: seq<Outcome>, events: seq<Event>,
                started: seq<nat>, heartbeats: nat, workErrors: seq<nat>, reports: nat,
                s': Sys, db': Db, now': int, checked': set<nat>, outcomes': seq<Outcome>)
    requires AtTop(window, s0, s, db, jobs, limit, fetchedAt, now, ctx, cycle, checked, outcomes, events, started,
                   heartbeats, workErrors, reports)
    requires Between(window, s0, s', db', jobs, fetchedAt, now', cycle, checked', outcomes')
    requires checked <= checked' && DifferOn(cycle.active, outcomes, outcomes')
    ensures AtTop(window, s0, s', db', jobs, limit, fetchedAt, now', ctx, cycle, checked', outcomes', events, started,
                  heartbeats, workErrors, reports)
  {
    HeadKeeps(|jobs|, limit, outcomes, outcomes', ctx, cycle, events, started, heartbeats, workErrors, reports);
    MoreDone(cycle, checked, checked');
  }

  lemma ReportRead(window: int, s0: Sys, s: Sys, db: Db, jobs: seq<Job>, limit: nat, fetchedAt: int, now: int,
                   ctx: Context, cycle: Cycle, checked: set<nat>, outcomes: seq<Outcome>, events: seq<Event>,
                   started: seq<nat>, heartbeats: nat, workErrors: seq<nat>, reports: nat, job: nat)
    requires AtTop(window, s0, s, db, jobs, limit, fetchedAt, now, ctx, cycle, checked, outcomes, events, started,
                   heartbeats, workErrors, reports)
    requires limit > 0 && !cycle.cancelled && !ctx(2 * reports)
    requires job in cycle.active && job in checked && job < |outcomes|
    ensures var seen := ctx(2 * reports + 1);
      var c := Step(cycle.(cancelled := seen), Finish(job));
      AtTop(window, s0, WithCycle(s, c), db, jobs, limit, fetchedAt, now, ctx, c, checked, outcomes,
            Reported(events, seen, job), if !seen && cycle.next < cycle.n then started + [cycle.next] else started,
            if Beats(outcomes[job]) then heartbeats + 1 else heartbeats,
            if Beats(outcomes[job]) then workErrors else workErrors + [job], reports + 1)
  {
    OneReport(|jobs|, limit, WorkOf(outcomes), ctx, cycle, events, started, heartbeats, workErrors, reports, job);
    ReportHappens(window, s0, s, db, jobs, fetchedAt, now, cycle, checked, outcomes, ctx(2 * reports + 1), job);
    ReportDone(cycle, checked, ctx(2 * reports + 1), job);
  }

  lemma AllRead(window: int, s0: Sys, s: Sys, db: Db, jobs: seq<Job>, limit: nat, fetchedAt: int, now: int,
                ctx: Context, cycle: Cycle, checked: set<nat>, outcomes: seq<Outcome>, events: seq<Event>,
                started: seq<nat>, heartbeats: nat, workErrors: seq<nat>, reports: nat)
    requires AtTop(window, s0, s, db, jobs, limit, fetchedAt, now, ctx, cycle, checked, outcomes, events, started,
                   heartbeats, workErrors, reports)
    requires jobs != [] && limit > 0 && StaysCancelled(ctx) && cycle.active == {}
    ensures CycleCameTo(window, s0, s, db, jobs, limit, fetchedAt, now, checked, outcomes, ctx,
      if ctx(2 * reports) then Cancelled else if workErrors != [] then WorkErrors(workErrors) else NoError,
      heartbeats, started, events)
  {
    LoopDone(|jobs|, limit, WorkOf(outcomes), ctx, cycle, events, started, heartbeats, workErrors, reports);
  }

  lemma AtOpen(window: int, s0: Sys, s: Sys, db: Db, jobs: seq<Job>, limit: nat, fetchedAt: int, ctx: Context,
               outcomes: seq<Outcome>, started: seq<nat>)
    requires Between(window, s0, s, db, jobs, fetchedAt, fetchedAt, Open(|jobs|, limit), {}, outcomes)
    requires |started| == Min(|jobs|, limit) && InSequence(started)
    ensures AtTop(window, s0, s, db, jobs, limit, fetchedAt, fetchedAt, ctx, Open(|jobs|, limit), {}, outcomes, [],
                  started, 0, [], 0)
  {
    OpenIsTracked(|jobs|, limit, started, WorkOf(outcomes));
    OpenDone(|jobs|, limit);
  }

  method RunChecks(store: Database, jobs: seq<Job>, limit: nat, now0: int, threshold: int, ctx: Context, others: Others,
                   ghost window: int, ghost s0: Sys, ghost s1: Sys)
    returns (err: CycleError, heartbeats: nat, now: int, outcomes: seq<Outcome>, started: seq<nat>,
             events: seq<Event>, ghost checked: set<nat>, ghost s: Sys)
    requires jobs != [] && limit > 0 && StaysCancelled(ctx) && MeetRely(others)
    requires Between(window, s0, s1, store.committed, jobs, now0, now0, Open(|jobs|, limit), {},
                     seq(|jobs|, _ => Completed))
    modifies store
    ensures CycleCameTo(window, s0, s, store.committed, jobs, limit, now0, now, checked, outcomes, ctx, err, heartbeats,
                        started, events)
  {
    var n := |jobs|;
    heartbeats, now, outcomes := 0, now0, seq(|jobs|, _ => Completed);
    s, events := s1, [];
    var done: set<nat> := {};
    var workErrors: seq<nat>, reports := [], 0;
    var running: set<nat>, next: nat;
    started, running, next := FillSlots(n, limit);
    ghost var cycle := Open(n, limit);
    AtOpen(window, s0, s, store.committed, jobs, limit, now0, ctx, outcomes, started);
    while running != {}
      invariant cycle == Cycle(n, limit, next, running, cycle.cancelled)
      invariant AtTop(window, s0, s, store.committed, jobs, limit, now0, now, ctx, cycle, done, outcomes, events,
                      started, heartbeats, workErrors, reports)
      decreases n - reports
    {
      NotCancelledYet(window, s0, s, store.committed, jobs, limit, now0, now, ctx, cycle, done, outcomes, events,
        started, heartbeats, workErrors, reports);
      if ctx(2 * reports) {
        events, now, outcomes, done, s :=
          GiveUp(store, jobs, limit, now0, now, threshold, ctx, others, running, done, outcomes, events,
                 window, s0, s, cycle, started, heartbeats, workErrors, reports);
        return Cancelled, heartbeats, now, outcomes, started, events, done, s;
      }
      var job :| job in running;
      done, outcomes, now, s :=
        AwaitResult(store, jobs, limit, job, now0, now, threshold, ctx, others, running, done, outcomes,
                    window, s0, s, cycle, events, started, heartbeats, workErrors, reports);
      started, heartbeats, workErrors, running, next, events, s, cycle :=
        TakeResult(jobs, limit, job, ctx(2 * reports + 1), outcomes, started, heartbeats, workErrors, running, next,
                   events, now0, now, ctx, reports, done, store.committed, window, s0, s, cycle);
      reports := reports + 1;
    }
    AllRead(window, s0, s, store.committed, jobs, limit, now0, now, ctx, cycle, done, outcomes, events, started,
      heartbeats, workErrors, reports);
    checked := done;
    err := if ctx(2 * reports) then Cancelled
           else if workErrors != [] then WorkErrors(workErrors) else NoError;
  }

  /** A result is read: a heartbeat or an error, and the next job in the slot unless a cancellation is seen. */
  method TakeResult(jobs: seq<Job>, limit: nat, job: nat, seen: bool, outcomes: seq<Outcome>, started: seq<nat>,
                    heartbeats: nat, workErrors: seq<nat>, running: set<nat>, next: nat, events: seq<Event>,
                    ghost fetchedAt: int, ghost now: int, ghost ctx: Context, ghost reports: nat,
                    ghost checked: set<nat>, ghost db: Db, ghost window: int, ghost s0: Sys, ghost s: Sys,
                    ghost cycle: Cycle)
    returns (started': seq<nat>, heartbeats': nat, workErrors': seq<nat>, running': set<nat>, next': nat,
             events': seq<Event>, ghost s': Sys, ghost cycle': Cycle)
    requires AtTop(window, s0, s, db, jobs, limit, fetchedAt, now, ctx, cycle, checked, outcomes, events, started,
                   heartbeats, workErrors, reports)
    requires limit > 0 && cycle == Cycle(|jobs|, limit, next, running, false) && !ctx(2 * reports)
    requires job in running && job in checked && job < |outcomes| && seen == ctx(2 * reports + 1)
    ensures cycle' == Cycle(|jobs|, limit, next', running', cycle'.cancelled)
    ensures AtTop(window, s0, s', db, jobs, limit, fetchedAt, now, ctx, cycle', checked, outcomes, events', started',
                  heartbeats', workErrors', reports + 1)
  {
    ReportRead(window, s0, s, db, jobs, limit, fetchedAt, now, ctx, cycle, checked, outcomes, events, started,
      heartbeats, workErrors, reports, job);
    events' := Reported(events, seen, job);
    cycle' := Step(cycle.(cancelled := seen), Finish(job));
    s' := WithCycle(s, cycle');
    running', next', started' := running - {job}, next, started;
    heartbeats', workErrors' := heartbeats, workErrors;
    if Beats(outcomes[job]) { heartbeats' := heartbeats + 1; } else { workErrors' := workErrors + [job]; }
    if !seen && next < |jobs| {
      started', running', next' := started + [next], running' + {next}, next + 1;
    }
  }

  lemma NotCancelledYet(window: int, s0: Sys, s: Sys, db: Db, jobs: seq<Job>, limit: nat, fetchedAt: int, now: int,
                        ctx: Context, cycle: Cycle, checked: set<nat>, outcomes: seq<Outcome>, events: seq<Event>,
                        started: seq<nat>, heartbeats: nat, workErrors: seq<nat>, reports: nat)
    requires AtTop(window, s0, s, db, jobs, limit, fetchedAt, now, ctx, cycle, checked, outcomes, events, started,
                   heartbeats, workErrors, reports)
    requires StaysCancelled(ctx)
    ensures !ctx(2 * reports) ==> !cycle.cancelled
    ensures reports <= |jobs| && (cycle.active != {} ==> reports < |jobs|)
    ensures forall j :: j in cycle.active ==> j < |jobs|
  {
    ActiveAreJobs(events, cycle);
  }

  /** Some time later, the result of this job is there. */
  method AwaitResult(store: Database, jobs: seq<Job>, ghost limit: nat, job: nat, fetchedAt: int, now: int,
                     threshold: int, ghost ctx: Context, others: Others, running: set<nat>, checked: set<nat>,
                     outcomes: seq<Outcome>, ghost window: int, ghost s0: Sys, ghost s: Sys, ghost cycle: Cycle,
                     ghost events: seq<Event>, ghost started: seq<nat>, ghost heartbeats: nat,
                     ghost workErrors: seq<nat>, ghost reports: nat)
    returns (checked': set<nat>, outcomes': seq<Outcome>, now': int, ghost s': Sys)
    requires AtTop(window, s0, s, store.committed, jobs, limit, fetchedAt, now, ctx, cycle, checked, outcomes, events,
                   started, heartbeats, workErrors, reports)
    requires MeetRely(others) && running == cycle.active && (forall j :: j in running ==> j < |jobs|) && job in running
    modifies store
    ensures AtTop(window, s0, s', store.committed, jobs, limit, fetchedAt, now', ctx, cycle, checked', outcomes',
                  events, started, heartbeats, workErrors, reports)
    ensures job in checked' && job < |outcomes'|
  {
    ghost var db := store.committed;
    checked', outcomes', now', s' := AwaitJob(store, jobs, job, running, checked, outcomes, now, threshold, others,
                                              fetchedAt, window, s0, s, cycle);
    Awaited(window, s0, s, db, jobs, limit, fetchedAt, now, ctx, cycle, checked, outcomes, events, started,
      heartbeats, workErrors, reports, s', store.committed, now', checked', outcomes');
  }

  /** After a cancellation: every active job comes to its end, and the results are read. */
  method GiveUp(store: Database, jobs: seq<Job>, limit: nat, fetchedAt: int, now: int, threshold: int,
                ghost ctx: Context, others: Others, running: set<nat>, checked: set<nat>, outcomes: seq<Outcome>,
                before: seq<Event>, ghost window: int, ghost s0: Sys, ghost s: Sys, ghost cycle: Cycle,
                ghost started: seq<nat>, ghost heartbeats: nat, ghost workErrors: seq<nat>, ghost reports: nat)
    returns (events: seq<Event>, now': int, outcomes': seq<Outcome>, checked': set<nat>, ghost s': Sys)
    requires AtTop(window, s0, s, store.committed, jobs, limit, fetchedAt, now, ctx, cycle, checked, outcomes, before,
                   started, heartbeats, workErrors, reports)
    requires limit > 0 && running != {} && running == cycle.active && ctx(2 * reports)
    requires MeetRely(others) && forall j :: j in running ==> j < |jobs|
    modifies store
    ensures CycleCameTo(window, s0, s', store.committed, jobs, limit, fetchedAt, now', checked', outcomes', ctx,
                        Cancelled, heartbeats, started, events)
  {
    ghost var db := store.committed;
    checked', outcomes', now', s' := AwaitAll(store, jobs, running, checked, outcomes, now, threshold, others,
                                              fetchedAt, window, s0, s, cycle);
    Awaited(window, s0, s, db, jobs, limit, fetchedAt, now, ctx, cycle, checked, outcomes, before, started,
      heartbeats, workErrors, reports, s', store.committed, now', checked', outcomes');
    events, s' := ReadAll(jobs, limit, fetchedAt, now', ctx, started, heartbeats, workErrors, reports, running, before,
                          store.committed, checked', outcomes', window, s0, s', cycle);
  }

  method ReadAll(jobs: seq<Job>, limit: nat, ghost fetchedAt: int, ghost now: int, ghost ctx: Context,
                 ghost started: seq<nat>, ghost heartbeats: nat, ghost workErrors: seq<nat>, ghost reports: nat,
                 running: set<nat>, before: seq<Event>, ghost db: Db, ghost checked: set<nat>,
                 ghost outcomes: seq<Outcome>, ghost window: int, ghost s0: Sys, ghost s: Sys, ghost cycle: Cycle)
    returns (events: seq<Event>, ghost s': Sys)
    requires limit > 0 && running != {} && cycle.active == running && ctx(2 * reports) && running <= checked
    requires AtTop(window, s0, s, db, jobs, limit, fetchedAt, now, ctx, cycle, checked, outcomes, before, started,
                   heartbeats, workErrors, reports)
    ensures CycleCameTo(window, s0, s', db, jobs, limit, fetchedAt, now, checked, outcomes, ctx, Cancelled, heartbeats,
                        started, events)
  {
    events := Drain(|jobs|, limit, WorkOf(outcomes), ctx, cycle, started, heartbeats, workErrors, reports, running,
                    before);
    s' := WithCycle(s, Run(Open(|jobs|, limit), events));
    RestHappens(window, s0, s, db, jobs, limit, fetchedAt, now, ctx, cycle, checked, outcomes, before, started,
      heartbeats, workErrors, reports, events);
  }

  /** The events of the drain, after those before it. */
  lemma RestHappens(window: int, s0: Sys, s: Sys, db: Db, jobs: seq<Job>, limit: nat, fetchedAt: int, now: int,
                    ctx: Context, cycle: Cycle, checked: set<nat>, outcomes: seq<Outcome>, before: seq<Event>,
                    started: seq<nat>, heartbeats: nat, workErrors: seq<nat>, reports: nat, events: seq<Event>)
    requires AtTop(window, s0, s, db, jobs, limit, fetchedAt, now, ctx, cycle, checked, outcomes, before, started,
                   heartbeats, workErrors, reports)
    requires cycle.active <= checked && before <= events
    requires CycleDone(|jobs|, limit, WorkOf(outcomes), ctx, Cancelled, heartbeats, started, events)
    ensures CycleCameTo(window, s0, WithCycle(s, Run(Open(|jobs|, limit), events)), db, jobs, limit, fetchedAt, now,
                        checked, outcomes, ctx, Cancelled, heartbeats, started, events)
  {
    assert events[..|before|] == before;
    EventsHappen(window, s0, s, db, jobs, fetchedAt, now, Open(|jobs|, limit), events, |before|, checked, outcomes);
    StartedAreChecked(jobs, limit, ctx, cycle, checked, outcomes, before, started, heartbeats, workErrors, reports);
  }

  lemma StartedAreChecked(jobs: seq<Job>, limit: nat, ctx: Context, cycle: Cycle, checked: set<nat>,
                          outcomes: seq<Outcome>, events: seq<Event>, started: seq<nat>, heartbeats: nat,
                          workErrors: seq<nat>, reports: nat)
    requires AtHead(|jobs|, limit, WorkOf(outcomes), ctx, cycle, events, started, heartbeats, workErrors, reports)
    requires OthersDone(cycle, checked) && cycle.active <= checked
    ensures forall j: nat :: j < |started| ==> j in checked
  {
  }

  /** The checks that completed or failed as checks. */
  ghost function GoodOutcomes(outcomes: seq<Outcome>): set<nat> {
    set j: nat | j < |outcomes| && (outcomes[j] == Completed || outcomes[j] == CheckFailed)
  }

  /** A heartbeat for each of these, and an error that lists the checks that were not persisted, each
      once; none when there are none. */
  ghost predicate Tells(outcomes: seq<Outcome>, err: CycleError, heartbeats: nat) {
    && heartbeats == |GoodOutcomes(outcomes)|
    && (err == NoError <==> forall j: nat :: j < |outcomes| ==> outcomes[j] != DbFailed)
    && (err != NoError ==>
          && err.WorkErrors?
          && (forall j: nat :: j in err.jobs <==> j < |outcomes| && outcomes[j] == DbFailed)
          && (forall j, k :: 0 <= j < k < |err.jobs| ==> err.jobs[j] != err.jobs[k]))
  }

  lemma UncancelledTells(limit: nat, outcomes: seq<Outcome>, ctx: Context, err: CycleError, heartbeats: nat,
                         started: seq<nat>, events: seq<Event>)
    requires outcomes != [] && limit > 0
    requires CycleDone(|outcomes|, limit, WorkOf(outcomes), ctx, err, heartbeats, started, events)
    ensures (forall k: nat :: k <= 2 * |outcomes| ==> !ctx(k)) ==> Tells(outcomes, err, heartbeats)
  {
    if forall k: nat :: k <= 2 * |outcomes| ==> !ctx(k) {
      UncancelledCycle(|outcomes|, limit, WorkOf(outcomes), ctx, err, heartbeats, started, events);
      OutcomesTell(outcomes, Finished(events), err, heartbeats);
    }
  }

  lemma OutcomesTell(outcomes: seq<Outcome>, reports: seq<nat>, err: CycleError, heartbeats: nat)
    requires var n, work := |outcomes|, WorkOf(outcomes);
      && heartbeats == |GoodJobs(n, work)|
      && (err == NoError <==> forall i: nat :: i < n ==> work(i) != DbFailed)
      && (err != NoError ==> err.WorkErrors? && ReportsFailed(n, work, reports, err.jobs))
    ensures Tells(outcomes, err, heartbeats)
  {
    forall j: nat | j < |outcomes| ensures WorkOf(outcomes)(j) == outcomes[j] {
    }
    assert GoodJobs(|outcomes|, WorkOf(outcomes)) == GoodOutcomes(outcomes);
  }

  /** One poll cycle, from idle to idle: over every schedule, fault and cancellation, and whatever
      other sessions write, it goes through steps of the protocol, and what it returns is as
      specified for the outcomes there were. */
  method PollOnce(store: Database, concurrency: int, now0: int, threshold: int, fails: nat, early: bool, ctx: Context,
                  others: Others, ghost window: int, ghost s0: Sys)
    returns (err: CycleError, heartbeats: nat, now: int, ghost jobs: seq<Job>, outcomes: seq<Outcome>,
             started: seq<nat>, ghost events: seq<Event>, ghost persisted: set<nat>, ghost s: Sys)
    requires s0.db == store.committed && s0.clock == now0 && s0.worker.Idle? && Linked(s0.db)
    requires TimePassed(s0.db, now0) && StaysCancelled(ctx) && MeetRely(others)
    modifies store
    ensures Leads(window, s0, s) && s.db == store.committed && s.clock == now && s.worker.Idle?
    ensures fails < |DueIds(s0.db, now0)| ==> err == FetchError && heartbeats == 0 && s == s0
    ensures fails >= |DueIds(s0.db, now0)| && early ==> err == CycleError.Cancelled && heartbeats == 0 && s == s0
    ensures fails >= |DueIds(s0.db, now0)| == 0 && !early ==> err == NoError && heartbeats == 1 && s == s0
    ensures fails >= |DueIds(s0.db, now0)| > 0 && !early ==>
      && IsDueList(s0.db, now0, jobs) && ListsDue(s0.db, now0, jobs) && |outcomes| == |jobs|
      && CycleDone(|jobs|, if concurrency < 1 then 1 else concurrency, WorkOf(outcomes), ctx, err, heartbeats, started,
                   events)
      && (forall j: nat :: j < |started| && j < |jobs| && outcomes[j] == Completed ==>
            j in persisted || jobs[j].id !in s.db.monitors)
      && ((forall k: nat :: k <= 2 * |jobs| ==> !ctx(k)) ==> Tells(outcomes, err, heartbeats))
  {
    now, outcomes, started, events, persisted, s := now0, [], [], [], {}, s0;
    heartbeats := 0;
    NoStep(window, s0);
    var ok, fetched := FetchDueMonitors(store.committed, now0, fails);
    jobs := fetched;
    if !ok { return FetchError, 0, now, jobs, outcomes, started, events, persisted, s; }
    DueListSize(s0.db, now0, fetched);
    if early { return CycleError.Cancelled, 0, now, jobs, outcomes, started, events, persisted, s; }
    if fetched == [] { return NoError, 1, now, jobs, outcomes, started, events, persisted, s; }
    var limit: nat := if concurrency < 1 then 1 else concurrency;
    s := s0.(worker := Running(fetched, now0, Open(|fetched|, limit), {}));
    FetchBegins(window, s0, fetched, limit);
    ghost var checked;
    err, heartbeats, now, outcomes, started, events, checked, s :=
      RunChecks(store, fetched, limit, now0, threshold, ctx, others, window, s0, s);
    UncancelledTells(limit, outcomes, ctx, err, heartbeats, started, events);
    persisted := s.worker.persisted;
    CycleReturns(window, s0, s);
    s := s.(worker := Idle);
  }

  lemma FetchBegins(window: int, s0: Sys, jobs: seq<Job>, limit: nat)
    requires s0.worker.Idle? && Linked(s0.db) && TimePassed(s0.db, s0.clock) && IsDueList(s0.db, s0.clock, jobs)
    requires jobs != [] && limit > 0
    ensures var s := s0.(worker := Running(jobs, s0.clock, Open(|jobs|, limit), {}));
      Between(window, s0, s, s0.db, jobs, s0.clock, s0.clock, Open(|jobs|, limit), {}, seq(|jobs|, _ => Completed))
  {
    OneStep(window, s0, s0.(worker := Running(jobs, s0.clock, Open(|jobs|, limit), {})), Fetch(jobs, limit));
  }

  lemma CycleReturns(window: int, s0: Sys, s: Sys)
    requires Leads(window, s0, s) && s.worker.Running? && s.worker.cycle.active == {}
    ensures Leads(window, s0, s.(worker := Idle))
  {
    OneStep(window, s, s.(worker := Idle), EndCycle);
    MoreSteps(window, s0, s, s.(worker := Idle));
  }

  function JobIds(jobs: seq<Job>): set<nat> {
    if jobs == [] then {} else JobIds(jobs[..|jobs| - 1]) + {jobs[|jobs| - 1].id}
  }

  lemma {:induction false} JobIdsAre(jobs: seq<Job>, id: nat)
    ensures id in JobIds(jobs) <==> Lists(jobs, id)
  {
    if jobs != [] {
      var before, last := jobs[..|jobs| - 1], jobs[|jobs| - 1];
      JobIdsAre(before, id);
      assert jobs == before + [last];
      ListsMore(before, last);
      if k :| 0 <= k < |jobs| && jobs[k].id == id && k < |before| { assert before[k].id == id; }
    }
  }

  lemma LastIsNew(jobs: seq<Job>)
    requires DistinctIds(jobs) && jobs != []
    ensures !Lists(jobs[..|jobs| - 1], jobs[|jobs| - 1].id)
  {
    var before := jobs[..|jobs| - 1];
    assert forall k :: 0 <= k < |before| ==> before[k].id != jobs[|jobs| - 1].id;
  }

  lemma {:induction false} JobIdsSize(jobs: seq<Job>)
    requires DistinctIds(jobs)
    ensures |JobIds(jobs)| == |jobs|
  {
    if jobs != [] {
      var before, last := jobs[..|jobs| - 1], jobs[|jobs| - 1];
      assert DistinctIds(before);
      JobIdsSize(before);
      JobIdsAre(before, last.id);
      LastIsNew(jobs);
    }
  }

  lemma DueListSize(db: Db, now: int, jobs: seq<Job>)
    requires IsDueList(db, now, jobs)
    ensures |jobs| == |DueIds(db, now)|
  {
    JobIdsSize(jobs);
    forall id ensures id in JobIds(jobs) <==> id in DueIds(db, now) {
      JobIdsAre(jobs, id);
    }
    assert JobIds(jobs) == DueIds(db, now);
  }

  // ----- The loop -----

  lemma ClockAhead(window: int, s: Sys, now: int)
    requires Inv(window, s) && s.clock < now
    ensures TimePassed(s.db, now)
  {
    forall id | id in s.db.monitors && s.db.monitors[id].lastCheckedAt.Some?
      ensures s.db.monitors[id].lastCheckedAt.value < now
    {
      assert RowMatches(s.db.monitors[id], Of(s.checks, id), Of(s.log, id), s.clock);
    }
  }

  /** Ticks and cycles, up to the first that is cancelled: the state is always one the protocol
      leads to, and the invariant holds in it. */
  method Poll(store: Database, concurrency: int, now0: int, threshold: int, contexts: nat -> Context, others: Others,
              cycles: nat, ghost window: int, ghost s0: Sys)
    returns (now: int, ghost s: Sys)
    requires s0.db == store.committed && s0.clock == now0 && s0.worker.Idle? && Inv(window, s0) && MeetRely(others)
    requires forall k: nat :: StaysCancelled(contexts(k))
    modifies store
    ensures Leads(window, s0, s) && Inv(window, s) && s.db == store.committed && s.clock == now && s.worker.Idle?
  {
    now, s := now0, s0;
    NoStep(window, s0);
    for k := 0 to cycles
      invariant Leads(window, s0, s) && Inv(window, s) && s.db == store.committed && s.clock == now && s.worker.Idle?
    {
      // the ticker, and other sessions while it waits
      var pause: int, write: int := *, *;
      if pause < 0 { pause := 0; }
      s := Waits(window, s0, s, now + pause + 1, others, write);
      store.committed := others(write, store.committed);
      now := now + pause + 1;
      var fails: int, early: bool := *, *;
      if fails < 0 { fails := 0; }
      ghost var jobs, events, persisted, s';
      var err, heartbeats, outcomes, started;
      err, heartbeats, now, jobs, outcomes, started, events, persisted, s' :=
        PollOnce(store, concurrency, now, threshold, fails, early, contexts(k), others, window, s);
      MoreSteps(window, s0, s, s');
      LeadsKeepsInv(window, s, s');
      s := s';
      if err == CycleError.Cancelled { return; }
    }
  }

  lemma Waits(window: int, s0: Sys, s: Sys, later: int, others: Others, write: int) returns (s': Sys)
    requires Leads(window, s0, s) && Inv(window, s) && s.worker.Idle? && s.clock < later && MeetRely(others)
    ensures Leads(window, s0, s') && Inv(window, s') && s'.worker.Idle? && s'.clock == later
    ensures s'.db == others(write, s.db) && Linked(s'.db) && TimePassed(s'.db, later)
  {
    var written := s.(db := others(write, s.db));
    s' := written.(clock := later);
    OneStep(window, s, written, Environment(others(write, s.db)));
    OneStep(window, written, s', Tick(later));
    MoreSteps(window, s0, s, written);
    MoreSteps(window, s0, written, s');
    LeadsKeepsInv(window, s, written);
    ClockAhead(window, written, later);
    LeadsKeepsInv(window, written, s');
  }
}
