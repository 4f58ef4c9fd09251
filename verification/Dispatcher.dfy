/** The bounded dispatcher of one poll cycle (sentinel-worker/internal/worker/loop.go, runPollCycle):
    a machine of two events, and the loop that refines it. */
module Dispatcher {
  import opened Arithmetic
  import opened Persist

  // ----- The machine -----

  /** Jobs 0..next have been started, in order; `active` ones have not reported yet. */
  datatype Cycle = Cycle(n: nat, limit: nat, next: nat, active: set<nat>, cancelled: bool)

  /** Job `job` reports its result, or the context is cancelled. */
  datatype Event = Finish(job: nat) | Cancel

  function Min(a: nat, b: nat): nat { if a < b then a else b }

  /** The jobs 0..k. */
  function FirstJobs(k: nat): (jobs: set<nat>)
    ensures |jobs| == k && forall i: nat :: i in jobs <==> i < k
  {
    if k == 0 then {} else FirstJobs(k - 1) + {k - 1}
  }

  function Open(n: nat, limit: nat): Cycle {
    Cycle(n, limit, Min(n, limit), FirstJobs(Min(n, limit)), false)
  }

  predicate Enabled(c: Cycle, e: Event) {
    match e
    case Finish(job) => job in c.active
    case Cancel => !c.cancelled
  }

  /** A freed slot goes to the next job, unless the context is cancelled. */
  function Step(c: Cycle, e: Event): Cycle {
    match e
    case Finish(job) =>
      if !c.cancelled && c.next < c.n
      then c.(active := c.active - {job} + {c.next}, next := c.next + 1)
      else c.(active := c.active - {job})
    case Cancel => c.(cancelled := true)
  }

  function Run(c: Cycle, events: seq<Event>): Cycle {
    if events == [] then c else Step(Run(c, events[..|events| - 1]), events[|events| - 1])
  }

  /** Every event was possible when it happened. */
  predicate Legal(c: Cycle, events: seq<Event>) {
    events == [] || (Legal(c, events[..|events| - 1])
                     && Enabled(Run(c, events[..|events| - 1]), events[|events| - 1]))
  }

  function Finished(events: seq<Event>): seq<nat> {
    if events == [] then []
    else
      var rest := Finished(events[..|events| - 1]);
      match events[|events| - 1]
      case Finish(job) => rest + [job]
      case Cancel => rest
  }

  /** Never more than `limit` active; and until cancellation, all slots are in use or all jobs started. */
  ghost predicate Sound(c: Cycle) {
    && c.next <= c.n
    && (forall i :: i in c.active ==> i < c.next)
    && |c.active| <= c.limit
    && (!c.cancelled ==> c.next == c.n || |c.active| == c.limit)
  }

  lemma StepIsSound(c: Cycle, e: Event)
    requires Sound(c) && Enabled(c, e)
    ensures Sound(Step(c, e))
  {
  }

  /** Jobs reported so far, and how they relate to the cycle. */
  ghost predicate Accounted(c: Cycle, finished: seq<nat>) {
    && (forall i: nat :: i < c.next ==> (i in finished <==> i !in c.active))
    && (forall i :: i in finished ==> i < c.next)
    && (forall j, k :: 0 <= j < k < |finished| ==> finished[j] != finished[k])
    && |finished| + |c.active| == c.next
  }

  lemma AccountedStep(c: Cycle, e: Event, finished: seq<nat>)
    requires Sound(c) && Enabled(c, e) && Accounted(c, finished)
    ensures Accounted(Step(c, e), if e.Finish? then finished + [e.job] else finished)
  {
    if e.Finish? {
      var finished' := finished + [e.job];
      var c' := Step(c, e);
      assert e.job !in finished;
      forall i: nat | i < c'.next ensures i in finished' <==> i !in c'.active {
        assert i in finished' <==> i in finished || i == e.job;
      }
      assert c.next !in c.active;
    }
  }

  /** Over every run of the machine: the limit holds, slots are never left idle before
      cancellation, no job reports twice, and the run is over within `n + 1` events. */
  lemma {:induction false} DispatchInvariant(n: nat, limit: nat, events: seq<Event>)
    requires Legal(Open(n, limit), events)
    ensures var c := Run(Open(n, limit), events);
      && c.n == n && c.limit == limit
      && Sound(c) && Accounted(c, Finished(events))
      && (c.cancelled <==> Cancel in events)
      && |events| == |Finished(events)| + (if c.cancelled then 1 else 0) <= n + 1
  {
    if events == [] {
    } else {
      var before, e := events[..|events| - 1], events[|events| - 1];
      DispatchInvariant(n, limit, before);
      var c := Run(Open(n, limit), before);
      StepIsSound(c, e);
      AccountedStep(c, e, Finished(before));
      assert Cancel in events <==> Cancel in before || e == Cancel;
    }
  }

  /** When no job is active any more, an uncancelled run has finished each job exactly once. */
  lemma DrainedMeansDone(n: nat, limit: nat, events: seq<Event>)
    requires limit > 0 && Legal(Open(n, limit), events)
    requires Run(Open(n, limit), events).active == {}
    ensures var c := Run(Open(n, limit), events);
      && (!c.cancelled ==> c.next == n)
      && |Finished(events)| == c.next
      && (forall i: nat :: i in Finished(events) <==> i < c.next)
  {
    DispatchInvariant(n, limit, events);
  }

  lemma Extend(c: Cycle, events: seq<Event>, e: Event)
    requires Legal(c, events) && Enabled(Run(c, events), e)
    ensures Legal(c, events + [e]) && Run(c, events + [e]) == Step(Run(c, events), e)
    ensures Finished(events + [e]) == Finished(events) + (if e.Finish? then [e.job] else [])
  {
    assert (events + [e])[..|events|] == events;
  }

  // ----- The loop -----

  datatype Fetched = FetchFailed | Rows(count: nat)

  datatype CycleError = NoError | FetchError | Cancelled | WorkErrors(jobs: seq<nat>)

  /** Does this outcome of the work function write a heartbeat? */
  predicate Beats(o: Outcome) { !o.DbFailed? }

  function CountBeats(jobs: seq<nat>, work: nat -> Outcome): nat {
    if jobs == [] then 0
    else CountBeats(jobs[..|jobs| - 1], work) + (if Beats(work(jobs[|jobs| - 1])) then 1 else 0)
  }

  /** The jobs of a sequence whose outcome is a reported error. */
  function Failures(jobs: seq<nat>, work: nat -> Outcome): seq<nat> {
    if jobs == [] then []
    else Failures(jobs[..|jobs| - 1], work) + (if Beats(work(jobs[|jobs| - 1])) then [] else [jobs[|jobs| - 1]])
  }

  /** The reports of a sequence that are nil or a monitor's check error. */
  ghost function Good(jobs: seq<nat>, work: nat -> Outcome): set<nat> {
    set k: nat | k < |jobs| && (work(jobs[k]) == Completed || work(jobs[k]) == CheckFailed)
  }

  lemma GoodMore(jobs: seq<nat>, job: nat, work: nat -> Outcome)
    ensures |Good(jobs + [job], work)| == |Good(jobs, work)| + (if work(job) == DbFailed then 0 else 1)
  {
    var longer := jobs + [job];
    forall k: nat ensures k in Good(longer, work) <==>
      k in Good(jobs, work) || (k == |jobs| && work(job) != DbFailed)
    {
      if k < |jobs| { assert longer[k] == jobs[k]; }
    }
    assert Good(longer, work) == Good(jobs, work) + if work(job) == DbFailed then {} else {|jobs|};
  }

  /** `at` says which of the jobs are the failed ones, in the order of the jobs. */
  ghost predicate PickedAt(jobs: seq<nat>, work: nat -> Outcome, picked: seq<nat>, at: seq<nat>) {
    && |at| == |picked|
    && (forall k :: 0 <= k < |at| ==> at[k] < |jobs| && picked[k] == jobs[at[k]])
    && (forall j, k :: 0 <= j < k < |at| ==> at[j] < at[k])
    && (forall k: nat :: k < |jobs| ==> (k in at <==> work(jobs[k]) == DbFailed))
  }

  lemma PickedMore(jobs: seq<nat>, job: nat, work: nat -> Outcome, picked: seq<nat>, at: seq<nat>)
    requires PickedAt(jobs, work, picked, at)
    ensures if work(job) == DbFailed then PickedAt(jobs + [job], work, picked + [job], at + [|jobs|])
            else PickedAt(jobs + [job], work, picked, at)
  {
    var longer := jobs + [job];
    forall k: nat | k < |longer|
      ensures work(job) == DbFailed ==> (k in at + [|jobs|] <==> work(longer[k]) == DbFailed)
      ensures work(job) != DbFailed ==> (k in at <==> work(longer[k]) == DbFailed)
    {
      if k < |jobs| { assert longer[k] == jobs[k]; }
    }
  }

  /** Heartbeats count the reports that are nil or a monitor's check error, and the reported errors
      are those of the persistence, each in its place. */
  lemma {:induction false} BeatsAndFailures(jobs: seq<nat>, work: nat -> Outcome) returns (at: seq<nat>)
    ensures CountBeats(jobs, work) == |Good(jobs, work)|
    ensures PickedAt(jobs, work, Failures(jobs, work), at)
    ensures CountBeats(jobs, work) + |Failures(jobs, work)| == |jobs|
  {
    if jobs == [] {
      at := [];
    } else {
      var before, job := jobs[..|jobs| - 1], jobs[|jobs| - 1];
      at := BeatsAndFailures(before, work);
      assert jobs == before + [job];
      GoodMore(before, job, work);
      PickedMore(before, job, work, Failures(before, work), at);
      if work(job) == DbFailed { at := at + [|before|]; }
    }
  }

  lemma OneMoreReport(jobs: seq<nat>, job: nat, work: nat -> Outcome)
    ensures CountBeats(jobs + [job], work) == CountBeats(jobs, work) + (if Beats(work(job)) then 1 else 0)
    ensures Failures(jobs + [job], work) == Failures(jobs, work) + (if Beats(work(job)) then [] else [job])
  {
    assert (jobs + [job])[..|jobs|] == jobs;
  }

  /** The machine, fed the events so far, is in this state. */
  ghost predicate At(events: seq<Event>, c: Cycle) {
    Legal(Open(c.n, c.limit), events) && Run(Open(c.n, c.limit), events) == c && Sound(c)
  }

  lemma Advance(events: seq<Event>, c: Cycle, e: Event)
    requires At(events, c) && Enabled(c, e)
    ensures At(events + [e], Step(c, e))
    ensures Finished(events + [e]) == Finished(events) + (if e.Finish? then [e.job] else [])
  {
    Extend(Open(c.n, c.limit), events, e);
    StepIsSound(c, e);
  }

  /** The loop's state: where the machine is, and what was started, counted and reported. */
  ghost predicate Tracks(events: seq<Event>, c: Cycle, started: seq<nat>, heartbeats: nat, workErrors: seq<nat>,
                         work: nat -> Outcome) {
    && At(events, c)
    && |started| == c.next && InSequence(started)
    && heartbeats == CountBeats(Finished(events), work)
    && workErrors == Failures(Finished(events), work)
  }

  lemma TrackCancel(events: seq<Event>, c: Cycle, started: seq<nat>, heartbeats: nat, workErrors: seq<nat>,
                    work: nat -> Outcome)
    requires Tracks(events, c, started, heartbeats, workErrors, work) && !c.cancelled
    ensures Tracks(events + [Cancel], c.(cancelled := true), started, heartbeats, workErrors, work)
  {
    Advance(events, c, Cancel);
  }

  lemma TrackFinish(events: seq<Event>, c: Cycle, started: seq<nat>, heartbeats: nat, workErrors: seq<nat>,
                    work: nat -> Outcome, job: nat)
    requires Tracks(events, c, started, heartbeats, workErrors, work) && job in c.active
    ensures Tracks(events + [Finish(job)], Step(c, Finish(job)),
      if !c.cancelled && c.next < c.n then started + [c.next] else started,
      if Beats(work(job)) then heartbeats + 1 else heartbeats,
      if Beats(work(job)) then workErrors else workErrors + [job], work)
  {
    Advance(events, c, Finish(job));
    OneMoreReport(Finished(events), job, work);
  }

  ghost predicate InSequence(started: seq<nat>) {
    forall k :: 0 <= k < |started| ==> started[k] == k
  }

  /** A context, as what the dispatcher sees when it looks at it for the k-th time: 2i is the look
      at the head of the loop after i reports, with the select that follows; 2i + 1 the one before
      the next start; 2n the one after the loop.  Once cancelled it stays cancelled. */
  type Context = nat -> bool

  ghost predicate StaysCancelled(ctx: Context) {
    forall j: nat, k: nat :: j <= k && ctx(j) ==> ctx(k)
  }

  /** The first look that sees the cancellation, or `bound`. */
  function FirstLook(ctx: Context, bound: nat): (j: nat)
    ensures j <= bound && (forall k: nat :: k < j ==> !ctx(k)) && (j < bound ==> ctx(j))
  {
    if bound == 0 then 0
    else
      var j := FirstLook(ctx, bound - 1);
      if j == bound - 1 && !ctx(j) then bound else j
  }

  lemma FirstLookIs(ctx: Context, bound: nat, j: nat)
    requires j <= bound && (forall k: nat :: k < j ==> !ctx(k)) && (j < bound ==> ctx(j))
    ensures FirstLook(ctx, bound) == j
  {
  }

  /** What a cycle over `n > 0` jobs comes to when look j is the first that sees a cancellation:
      half of j reports made room for another start, half of j + 1 reports were counted, and every
      job started is awaited in any case. */
  ghost predicate CycleIs(n: nat, limit: nat, work: nat -> Outcome, j: nat, err: CycleError, heartbeats: nat,
                          started: seq<nat>, events: seq<Event>) {
    var reports := Finished(events);
    var counted := Min(n, (j + 1) / 2);
    && Legal(Open(n, limit), events) && Run(Open(n, limit), events).active == {}
    && (Cancel in events <==> j < 2 * n)
    && |started| == |reports| == Min(n, limit + j / 2) && InSequence(started)
    && counted <= |reports| && heartbeats == CountBeats(reports[..counted], work)
    && err == (if j <= 2 * n then Cancelled
               else if Failures(reports, work) == [] then NoError else WorkErrors(Failures(reports, work)))
  }

  ghost predicate CycleDone(n: nat, limit: nat, work: nat -> Outcome, ctx: Context, err: CycleError, heartbeats: nat,
                            started: seq<nat>, events: seq<Event>) {
    CycleIs(n, limit, work, FirstLook(ctx, 2 * n + 1), err, heartbeats, started, events)
  }

  /** The jobs of 0..n whose outcome is nil or a monitor's check error. */
  ghost function GoodJobs(n: nat, work: nat -> Outcome): set<nat> {
    set i: nat | i < n && (work(i) == Completed || work(i) == CheckFailed)
  }

  /** The error lists exactly the failed jobs of 0..n, each once, in the order of their reports. */
  ghost predicate ReportsFailed(n: nat, work: nat -> Outcome, reports: seq<nat>, failed: seq<nat>) {
    && (forall i: nat :: i in failed <==> i < n && work(i) == DbFailed)
    && (forall j, k :: 0 <= j < k < |failed| ==> failed[j] != failed[k])
    && (exists at :: PickedAt(reports, work, failed, at))
  }

  /** In particular, a cycle that is never cancelled runs each job once, writes a heartbeat for each
      that completed or whose check failed, and reports each whose persistence failed. */
  lemma UncancelledCycle(n: nat, limit: nat, work: nat -> Outcome, ctx: Context, err: CycleError, heartbeats: nat,
                         started: seq<nat>, events: seq<Event>)
    requires n > 0 && limit > 0 && CycleDone(n, limit, work, ctx, err, heartbeats, started, events)
    requires forall k: nat :: k <= 2 * n ==> !ctx(k)
    ensures |started| == n && (forall i: nat :: i < n ==> i in Finished(events)) && |Finished(events)| == n
    ensures heartbeats == |GoodJobs(n, work)|
    ensures err == NoError <==> forall i: nat :: i < n ==> work(i) != DbFailed
    ensures err != NoError ==> err.WorkErrors? && ReportsFailed(n, work, Finished(events), err.jobs)
  {
    FirstLookIs(ctx, 2 * n + 1, 2 * n + 1);
    AllStarted(n, limit, work, err, heartbeats, started, events);
    EachJobOnce(n, limit, events);
    GoodJobsCount(n, work, Finished(events));
    FailuresAreJobs(n, work, Finished(events));
  }

  /** The jobs 0..n, each reported once. */
  ghost predicate AllReports(n: nat, reports: seq<nat>) {
    && (forall i: nat :: i < n <==> i in reports)
    && (forall j, k :: 0 <= j < k < |reports| ==> reports[j] != reports[k])
  }

  lemma GoodJobsCount(n: nat, work: nat -> Outcome, reports: seq<nat>)
    requires AllReports(n, reports)
    ensures CountBeats(reports, work) == |GoodJobs(n, work)|
  {
    var at := BeatsAndFailures(reports, work);
    forall i | i in GoodJobs(n, work) ensures exists k :: k in Good(reports, work) && k < |reports| && reports[k] == i {
      assert i in reports;
      var k :| 0 <= k < |reports| && reports[k] == i;
      assert k in Good(reports, work);
    }
    forall k | k in Good(reports, work) ensures reports[k] in GoodJobs(n, work) {
      assert reports[k] in reports;
    }
    AsMany(reports, Good(reports, work), GoodJobs(n, work));
  }

  lemma FailuresAreJobs(n: nat, work: nat -> Outcome, reports: seq<nat>)
    requires AllReports(n, reports)
    ensures ReportsFailed(n, work, reports, Failures(reports, work))
    ensures Failures(reports, work) == [] <==> forall i: nat :: i < n ==> work(i) != DbFailed
  {
    var at := BeatsAndFailures(reports, work);
    PickedAreFailed(n, work, reports, Failures(reports, work), at);
  }

  lemma PickedAreFailed(n: nat, work: nat -> Outcome, reports: seq<nat>, failed: seq<nat>, at: seq<nat>)
    requires AllReports(n, reports) && PickedAt(reports, work, failed, at)
    ensures ReportsFailed(n, work, reports, failed)
    ensures failed == [] <==> forall i: nat :: i < n ==> work(i) != DbFailed
  {
    forall i: nat | i < n && work(i) == DbFailed ensures i in failed {
      assert i in reports;
      var k :| 0 <= k < |reports| && reports[k] == i;
      assert k in at;
      var m :| 0 <= m < |at| && at[m] == k;
      assert failed[m] == i;
    }
    forall m | 0 <= m < |failed| ensures failed[m] < n && work(failed[m]) == DbFailed {
      assert at[m] in at && reports[at[m]] in reports;
    }
    forall j, k | 0 <= j < k < |failed| ensures failed[j] != failed[k] {
      assert at[j] < at[k] < |reports|;
    }
    if failed != [] { assert failed[0] in failed; }
  }

  lemma AllStarted(n: nat, limit: nat, work: nat -> Outcome, err: CycleError, heartbeats: nat, started: seq<nat>,
                   events: seq<Event>)
    requires n > 0 && CycleIs(n, limit, work, 2 * n + 1, err, heartbeats, started, events)
    ensures |started| == |Finished(events)| == n && heartbeats == CountBeats(Finished(events), work)
    ensures err == if Failures(Finished(events), work) == [] then NoError
                   else WorkErrors(Failures(Finished(events), work))
    ensures Legal(Open(n, limit), events)
  {
    assert Finished(events)[..n] == Finished(events);
  }

  lemma EachJobOnce(n: nat, limit: nat, events: seq<Event>)
    requires Legal(Open(n, limit), events) && |Finished(events)| == n
    ensures AllReports(n, Finished(events))
  {
    DispatchInvariant(n, limit, events);
    var c := Run(Open(n, limit), events);
    assert |c.active| == 0;
  }

  /** The counters after `reports` results; a cancellation may have been seen at the last. */
  ghost predicate Counters(n: nat, limit: nat, ctx: Context, c: Cycle, reports: nat) {
    && c.n == n && c.limit == limit && reports <= n && reports + |c.active| == c.next
    && (c.cancelled <==> reports > 0 && ctx(2 * reports - 1))
    && (forall k: nat :: k < 2 * reports - 1 ==> !ctx(k))
    && c.next == Min(n, limit + (if c.cancelled then reports - 1 else reports))
  }

  /** Where the loop is, after `reports` results. */
  ghost predicate AtHead(n: nat, limit: nat, work: nat -> Outcome, ctx: Context, c: Cycle, events: seq<Event>,
                         started: seq<nat>, heartbeats: nat, workErrors: seq<nat>, reports: nat) {
    && Tracks(events, c, started, heartbeats, workErrors, work)
    && |Finished(events)| == reports && (c.cancelled <==> Cancel in events)
    && Counters(n, limit, ctx, c, reports)
  }

  /** The events of one report. */
  function Reported(events: seq<Event>, seen: bool, job: nat): seq<Event> {
    (if seen then events + [Cancel] else events) + [Finish(job)]
  }

  /** One result read and handled. */
  lemma OneReport(n: nat, limit: nat, work: nat -> Outcome, ctx: Context, c: Cycle, events: seq<Event>,
                  started: seq<nat>, heartbeats: nat, workErrors: seq<nat>, reports: nat, job: nat)
    requires AtHead(n, limit, work, ctx, c, events, started, heartbeats, workErrors, reports)
    requires limit > 0 && !c.cancelled && !ctx(2 * reports) && job in c.active
    ensures var seen := ctx(2 * reports + 1);
      AtHead(n, limit, work, ctx, Step(c.(cancelled := seen), Finish(job)), Reported(events, seen, job),
             if !seen && c.next < c.n then started + [c.next] else started,
             if Beats(work(job)) then heartbeats + 1 else heartbeats,
             if Beats(work(job)) then workErrors else workErrors + [job], reports + 1)
  {
    var seen := ctx(2 * reports + 1);
    var mid, before := c.(cancelled := seen), if seen then events + [Cancel] else events;
    if seen { TrackCancel(events, c, started, heartbeats, workErrors, work); }
    TrackFinish(before, mid, started, heartbeats, workErrors, work, job);
    CountReport(n, limit, ctx, c, reports, job);
    ReportIsFinished(events, seen, job);
  }

  lemma ReportIsFinished(events: seq<Event>, seen: bool, job: nat)
    ensures Finished(Reported(events, seen, job)) == Finished(events) + [job]
    ensures Cancel in Reported(events, seen, job) <==> seen || Cancel in events
  {
    var before := if seen then events + [Cancel] else events;
    assert (events + [Cancel])[..|events|] == events;
    assert (before + [Finish(job)])[..|before|] == before;
  }

  lemma CountReport(n: nat, limit: nat, ctx: Context, c: Cycle, reports: nat, job: nat)
    requires Counters(n, limit, ctx, c, reports) && Sound(c) && job in c.active
    requires limit > 0 && !c.cancelled && !ctx(2 * reports)
    ensures Counters(n, limit, ctx, Step(c.(cancelled := ctx(2 * reports + 1)), Finish(job)), reports + 1)
  {
    var seen := ctx(2 * reports + 1);
    OneSlot(c.(cancelled := seen), job);
    NextStart(n, limit, c.next, |c.active|, reports, seen);
    NotSeenYet(ctx, reports);
  }

  /** Jobs started and active after one more report. */
  lemma NextStart(n: nat, limit: nat, next: nat, active: nat, reports: nat, seen: bool)
    requires limit > 0 && active > 0 && next == Min(n, limit + reports) && reports + active == next
    ensures var next' := if !seen && next < n then next + 1 else next;
      && reports + 1 <= n && reports + 1 + (active - 1 + next' - next) == next'
      && next' == Min(n, limit + (if seen then reports else reports + 1))
  {
  }

  lemma OneSlot(c: Cycle, job: nat)
    requires Sound(c) && job in c.active
    ensures |Step(c, Finish(job)).active| + 1 == |c.active| + (if !c.cancelled && c.next < c.n then 1 else 0)
    ensures |c.active| > 0
  {
    assert c.next !in c.active;
  }

  lemma NotSeenYet(ctx: Context, reports: nat)
    requires forall k: nat :: k < 2 * reports - 1 ==> !ctx(k)
    requires (reports > 0 ==> !ctx(2 * reports - 1)) && !ctx(2 * reports)
    ensures forall k: nat :: k < 2 * reports + 1 ==> !ctx(k)
  {
  }

  /** One cycle over every order of completions: `work` gives the outcome of each job, `early` the
      look at the context after the fetch, `ctx` those of the dispatcher. */
  method RunPollCycle(concurrency: int, fetched: Fetched, work: nat -> Outcome, early: bool, ctx: Context)
    returns (err: CycleError, heartbeats: nat, started: seq<nat>, events: seq<Event>)
    requires StaysCancelled(ctx)
    ensures fetched.FetchFailed? ==> err == FetchError && heartbeats == 0 && started == [] && events == []
    ensures fetched.Rows? && early ==> err == Cancelled && heartbeats == 0 && started == [] && events == []
    ensures fetched == Rows(0) && !early ==> err == NoError && heartbeats == 1 && started == [] && events == []
    ensures fetched.Rows? && fetched.count > 0 && !early ==>
      CycleDone(fetched.count, if concurrency < 1 then 1 else concurrency, work, ctx, err, heartbeats, started, events)
  {
    var limit: nat := if concurrency < 1 then 1 else concurrency;
    if fetched.FetchFailed? { return FetchError, 0, [], []; }
    if early { return Cancelled, 0, [], []; }
    if fetched.count == 0 { return NoError, 1, [], []; }
    err, heartbeats, started, events := Dispatch(fetched.count, limit, work, ctx);
  }

  method Dispatch(n: nat, limit: nat, work: nat -> Outcome, ctx: Context)
    returns (err: CycleError, heartbeats: nat, started: seq<nat>, events: seq<Event>)
    requires n > 0 && limit > 0 && StaysCancelled(ctx)
    ensures CycleDone(n, limit, work, ctx, err, heartbeats, started, events)
  {
    heartbeats, events := 0, [];
    var workErrors: seq<nat>, reports := [], 0;
    var running: set<nat>, next: nat;
    started, running, next := FillSlots(n, limit);
    ghost var cycle := Open(n, limit);
    OpenIsTracked(n, limit, started, work);
    while running != {}
      invariant cycle == Cycle(n, limit, next, running, cycle.cancelled)
      invariant AtHead(n, limit, work, ctx, cycle, events, started, heartbeats, workErrors, reports)
      decreases n - reports
    {
      // ctx.Err(), or the case <-ctx.Done() of the select
      if ctx(2 * reports) {
        events := Drain(n, limit, work, ctx, cycle, started, heartbeats, workErrors, reports, running, events);
        return Cancelled, heartbeats, started, events;
      }
      // case result := <-results
      var job :| job in running;
      OneReport(n, limit, work, ctx, cycle, events, started, heartbeats, workErrors, reports, job);
      events := Reported(events, ctx(2 * reports + 1), job);
      cycle := Step(cycle.(cancelled := ctx(2 * reports + 1)), Finish(job));
      running := running - {job};
      if Beats(work(job)) { heartbeats := heartbeats + 1; } else { workErrors := workErrors + [job]; }
      if !ctx(2 * reports + 1) && next < n {
        started := started + [next];
        running := running + {next};
        next := next + 1;
      }
      reports := reports + 1;
    }
    LoopDone(n, limit, work, ctx, cycle, events, started, heartbeats, workErrors, reports);
    err := if ctx(2 * reports) then Cancelled
           else if workErrors != [] then WorkErrors(workErrors) else NoError;
  }

  lemma LoopDone(n: nat, limit: nat, work: nat -> Outcome, ctx: Context, c: Cycle, events: seq<Event>,
                 started: seq<nat>, heartbeats: nat, workErrors: seq<nat>, reports: nat)
    requires n > 0 && limit > 0 && StaysCancelled(ctx) && c.active == {}
    requires AtHead(n, limit, work, ctx, c, events, started, heartbeats, workErrors, reports)
    ensures CycleDone(n, limit, work, ctx,
      if ctx(2 * reports) then Cancelled else if workErrors != [] then WorkErrors(workErrors) else NoError,
      heartbeats, started, events)
  {
    var j := LookAtEnd(n, limit, ctx, c, reports);
    AllReported(n, limit, work, j, heartbeats, started, events, workErrors);
  }

  lemma AllReported(n: nat, limit: nat, work: nat -> Outcome, j: nat, heartbeats: nat, started: seq<nat>,
                    events: seq<Event>, workErrors: seq<nat>)
    requires Legal(Open(n, limit), events) && Run(Open(n, limit), events).active == {}
    requires (Cancel in events <==> j < 2 * n) && InSequence(started)
    requires |started| == |Finished(events)| == Min(n, (j + 1) / 2) == Min(n, limit + j / 2)
    requires heartbeats == CountBeats(Finished(events), work) && workErrors == Failures(Finished(events), work)
    ensures CycleIs(n, limit, work, j,
      if j <= 2 * n then Cancelled else if workErrors != [] then WorkErrors(workErrors) else NoError,
      heartbeats, started, events)
  {
    assert Finished(events)[..|started|] == Finished(events);
  }

  lemma LookAtEnd(n: nat, limit: nat, ctx: Context, c: Cycle, reports: nat) returns (j: nat)
    requires n > 0 && limit > 0 && StaysCancelled(ctx) && c.active == {} && Counters(n, limit, ctx, c, reports)
    ensures j == FirstLook(ctx, 2 * n + 1) && (j + 1) / 2 >= reports && Min(n, (j + 1) / 2) == reports
    ensures (c.cancelled <==> j < 2 * n) && (ctx(2 * reports) <==> j <= 2 * n) && reports == Min(n, limit + j / 2)
  {
    if c.cancelled {
      j := 2 * reports - 1;
      assert ctx(2 * reports);
    } else {
      assert reports == n;
      j := if ctx(2 * n) then 2 * n else 2 * n + 1;
    }
    FirstLookIs(ctx, 2 * n + 1, j);
  }

  method FillSlots(n: nat, limit: nat) returns (started: seq<nat>, running: set<nat>, next: nat)
    ensures Open(n, limit) == Cycle(n, limit, next, running, false)
    ensures |started| == next && InSequence(started)
  {
    started, running, next := [], {}, 0;
    while next < n && |running| < limit
      invariant next <= n && next <= limit && Filled(started, running, next)
    {
      NextJob(next, started, running);
      started := started + [next];
      running := running + {next};
      next := next + 1;
    }
    assert next == Min(n, limit);
  }

  ghost predicate Filled(started: seq<nat>, running: set<nat>, next: nat) {
    running == FirstJobs(next) && |running| == next && |started| == next && InSequence(started)
  }

  lemma NextJob(next: nat, started: seq<nat>, running: set<nat>)
    requires Filled(started, running, next)
    ensures Filled(started + [next], running + {next}, next + 1)
  {
    assert FirstJobs(next + 1) == FirstJobs(next) + {next};
  }

  lemma OpenIsTracked(n: nat, limit: nat, started: seq<nat>, work: nat -> Outcome)
    requires |started| == Min(n, limit) && InSequence(started)
    ensures Tracks([], Open(n, limit), started, 0, [], work)
  {
  }

  /** While draining: the results counted before stay the first ones reported. */
  ghost predicate Draining(work: nat -> Outcome, c: Cycle, events: seq<Event>, heartbeats: nat, reports: nat) {
    && c.cancelled && At(events, c) && Cancel in events
    && reports <= |Finished(events)| && |Finished(events)| + |c.active| == c.next
    && heartbeats == CountBeats(Finished(events)[..reports], work)
  }

  lemma StartDraining(n: nat, limit: nat, work: nat -> Outcome, ctx: Context, c: Cycle, events: seq<Event>,
                      started: seq<nat>, heartbeats: nat, workErrors: seq<nat>, reports: nat)
    requires AtHead(n, limit, work, ctx, c, events, started, heartbeats, workErrors, reports)
    ensures Draining(work, c.(cancelled := true), if Cancel in events then events else events + [Cancel],
                     heartbeats, reports)
  {
    assert Finished(events)[..reports] == Finished(events);
    if !c.cancelled { Advance(events, c, Cancel); }
  }

  lemma DrainMore(work: nat -> Outcome, c: Cycle, events: seq<Event>, heartbeats: nat, reports: nat, job: nat)
    requires Draining(work, c, events, heartbeats, reports) && job in c.active
    ensures Draining(work, c.(active := c.active - {job}), events + [Finish(job)], heartbeats, reports)
  {
    Advance(events, c, Finish(job));
    assert (Finished(events) + [job])[..reports] == Finished(events)[..reports];
  }

  lemma DrainDone(n: nat, limit: nat, work: nat -> Outcome, ctx: Context, c: Cycle, started: seq<nat>,
                  heartbeats: nat, reports: nat, events: seq<Event>)
    requires limit > 0 && c.active != {} && ctx(2 * reports) && Counters(n, limit, ctx, c, reports)
    requires Draining(work, c.(active := {}, cancelled := true), events, heartbeats, reports)
    requires |started| == c.next && InSequence(started)
    ensures CycleDone(n, limit, work, ctx, Cancelled, heartbeats, started, events)
  {
    var j := LookAtDrain(n, limit, ctx, c, reports);
    AllDrained(n, limit, work, j, heartbeats, started, events, reports);
  }

  lemma AllDrained(n: nat, limit: nat, work: nat -> Outcome, j: nat, heartbeats: nat, started: seq<nat>,
                   events: seq<Event>, reports: nat)
    requires Legal(Open(n, limit), events) && Run(Open(n, limit), events).active == {}
    requires Cancel in events && j < 2 * n && InSequence(started)
    requires |started| == |Finished(events)| == Min(n, limit + j / 2)
    requires reports == Min(n, (j + 1) / 2) <= |Finished(events)|
    requires heartbeats == CountBeats(Finished(events)[..reports], work)
    ensures CycleIs(n, limit, work, j, Cancelled, heartbeats, started, events)
  {
  }

  lemma LookAtDrain(n: nat, limit: nat, ctx: Context, c: Cycle, reports: nat) returns (j: nat)
    requires limit > 0 && c.active != {} && ctx(2 * reports) && Counters(n, limit, ctx, c, reports)
    ensures j == FirstLook(ctx, 2 * n + 1) && Min(n, (j + 1) / 2) == reports && j < 2 * n
    ensures c.next == Min(n, limit + j / 2)
  {
    assert reports < n;
    j := if c.cancelled then 2 * reports - 1 else 2 * reports;
    FirstLookIs(ctx, 2 * n + 1, j);
  }

  /** After a cancellation: read every outstanding result, start nothing, write no heartbeat. */
  method Drain(n: nat, limit: nat, ghost work: nat -> Outcome, ghost ctx: Context, ghost c: Cycle,
               ghost started: seq<nat>, ghost heartbeats: nat, ghost workErrors: seq<nat>, ghost reports: nat,
               active: set<nat>, before: seq<Event>)
    returns (events: seq<Event>)
    requires limit > 0 && active != {} && c.active == active && ctx(2 * reports)
    requires AtHead(n, limit, work, ctx, c, before, started, heartbeats, workErrors, reports)
    ensures CycleDone(n, limit, work, ctx, Cancelled, heartbeats, started, events) && before <= events
  {
    StartDraining(n, limit, work, ctx, c, before, started, heartbeats, workErrors, reports);
    events := if Cancel in before then before else before + [Cancel];
    var running := active;
    while running != {}
      invariant Draining(work, c.(active := running, cancelled := true), events, heartbeats, reports)
      invariant before <= events
      decreases |running|
    {
      var job :| job in running;
      DrainMore(work, c.(active := running, cancelled := true), events, heartbeats, reports, job);
      events, running := events + [Finish(job)], running - {job};
    }
    DrainDone(n, limit, work, ctx, c, started, heartbeats, reports, events);
  }
}
