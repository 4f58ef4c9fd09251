/** The worker's heartbeat: the published timestamp (sentinel-worker/internal/health/health.go) and
    the gaps the worker leaves between two of them (sentinel-worker/internal/worker/loop.go). */
module Heartbeat {
  import opened Schema
  import opened Dispatcher
  import opened Config

  // ----- The timestamp file -----

  datatype Verdict = Fresh | Unreadable | Malformed | InFuture | Stale

  /** time.Time.Sub saturates at the limits of 64 bits. */
  function Sub(a: int, b: int): int {
    if a - b > MAX_INT64 then MAX_INT64 else if a - b < MIN_INT64 then MIN_INT64 else a - b
  }

  /** A file whose content is replaced whole: None while there is no file, Some(None) when empty. */
  class Cell {
    var content: Option<Option<int>>

    constructor ()
      ensures content == None
    {
      content := None;
    }

    method Write(now: int)
      modifies this
      ensures content == Some(Some(now))
    {
      content := Some(Some(now));
    }

    /** Invalidates the heartbeat of an earlier process. */
    method Reset()
      modifies this
      ensures content == Some(None)
    {
      content := Some(None);
    }

    /** Fresh exactly when there is a timestamp whose true age is within bounds.  The saturating
        subtraction would take an endless age for fresh only at the largest 64-bit `maxAge`. */
    method Check(now: int, maxAge: int) returns (v: Verdict)
      requires maxAge <= MAX_INT64
      ensures v == Unreadable <==> content == None
      ensures v == Malformed <==> content == Some(None)
      ensures v == InFuture <==> content.Some? && content.value.Some? && now < content.value.value
      ensures maxAge < MAX_INT64 ==>
        (v == Fresh <==> content.Some? && content.value.Some? && 0 <= now - content.value.value <= maxAge)
      ensures maxAge == MAX_INT64 ==> v != Stale
    {
      if content.None? { return Unreadable; }
      if content.value.None? { return Malformed; }
      var age := Sub(now, content.value.value);
      if age < 0 { return InFuture; }
      if age > maxAge { return Stale; }
      return Fresh;
    }
  }

  // ----- The worker in time -----

  /** Deadlines: `db` of every database operation, `lag` by which anything may be late. */
  datatype Limits = Limits(db: nat, lag: nat)

  const POLL_INTERVAL: int := 2 * SECOND
  const PROBE_CAP: int := 15 * SECOND

  /** The longest a job takes: a probe, a transaction and its deferred rollback. */
  function JobCap(l: Limits): int { PROBE_CAP + 2 * l.db + l.lag }

  datatype Phase = Waiting(since: int) | Fetching(since: int) | Dispatching(cycle: Cycle, starts: seq<int>)

  /** `last` is the time of the last heartbeat, or that of the start until `beaten`. */
  datatype Worker = Worker(phase: Phase, last: int, beaten: bool, now: int)

  datatype Event = Tick(at: int) | Fetched(at: int, rows: nat) | Report(at: int, job: nat)

  function Begin(at: int): Worker { Worker(Waiting(at), at, false, at) }

  ghost predicate WellTimed(w: Worker) {
    w.phase.Dispatching? ==>
      var c := w.phase.cycle;
      Sound(c) && !c.cancelled && c.limit > 0 && |w.phase.starts| == c.next && c.active != {}
  }

  /** It can be `at` now: time moves forward, and nothing is overdue. */
  ghost predicate OnTime(w: Worker, at: int, l: Limits)
    requires WellTimed(w)
  {
    w.now <= at &&
    match w.phase
    case Waiting(since) => at <= since + POLL_INTERVAL + l.lag
    case Fetching(since) => at <= since + l.db + l.lag
    case Dispatching(c, starts) => forall i :: i in c.active ==> at <= starts[i] + JobCap(l)
  }

  ghost predicate Possible(w: Worker, e: Event)
    requires WellTimed(w)
  {
    match e
    case Tick(_) => w.phase.Waiting?
    case Fetched(_, _) => w.phase.Fetching?
    case Report(_, job) => w.phase.Dispatching? && job in w.phase.cycle.active
  }

  /** Without persistence errors every report writes a heartbeat, as does an empty batch. */
  ghost function After(w: Worker, e: Event, limit: nat): Worker
    requires WellTimed(w) && Possible(w, e)
  {
    match e
    case Tick(at) => w.(phase := Fetching(at), now := at)
    case Fetched(at, rows) =>
      if rows == 0 then Worker(Waiting(at), at, true, at)
      else w.(phase := Dispatching(Open(rows, limit), seq(Min(rows, limit), _ => at)), now := at)
    case Report(at, job) =>
      var c := w.phase.cycle;
      var c' := Step(c, Finish(job));
      Worker(if c'.active == {} then Waiting(at)
             else Dispatching(c', if c.next < c.n then w.phase.starts + [at] else w.phase.starts), at, true, at)
  }

  /** States of a worker that has always been on time. */
  ghost predicate Reaches(start: int, limit: nat, l: Limits, events: seq<Event>, w: Worker)
    requires limit > 0
    decreases |events|, 1
  {
    if events == [] then w == Begin(start)
    else exists before :: StepsTo(start, limit, l, events, before, w)
  }

  ghost predicate StepsTo(start: int, limit: nat, l: Limits, events: seq<Event>, before: Worker, w: Worker)
    requires limit > 0 && events != []
    decreases |events|, 0
  {
    var e := events[|events| - 1];
    && Reaches(start, limit, l, events[..|events| - 1], before)
    && WellTimed(before) && Possible(before, e) && OnTime(before, e.at, l)
    && w == After(before, e, limit)
  }

  /** Where the last heartbeat is, phase by phase. */
  ghost predicate Recent(w: Worker, l: Limits) {
    && WellTimed(w) && w.last <= w.now
    && match w.phase
       case Waiting(since) => since == w.last
       case Fetching(since) => since <= w.last + POLL_INTERVAL + l.lag
       case Dispatching(c, starts) =>
         forall i :: i in c.active ==> starts[i] <= w.last + POLL_INTERVAL + l.db + 2 * l.lag
  }

  lemma NonEmpty(k: nat)
    requires k > 0
    ensures FirstJobs(k) != {}
  {
    assert 0 in FirstJobs(k);
  }

  lemma StaysRecent(w: Worker, e: Event, limit: nat, l: Limits)
    requires limit > 0 && Recent(w, l) && Possible(w, e) && OnTime(w, e.at, l)
    ensures Recent(After(w, e, limit), l)
  {
    match e
    case Tick(_) =>
    case Fetched(at, rows) =>
      if rows > 0 { NonEmpty(Min(rows, limit)); }
    case Report(at, job) =>
      StepIsSound(w.phase.cycle, Finish(job));
      ReportStaysRecent(w, at, job, limit, l);
  }

  lemma ReportStaysRecent(w: Worker, at: int, job: nat, limit: nat, l: Limits)
    requires Recent(w, l) && Possible(w, Report(at, job)) && OnTime(w, at, l)
    requires Sound(Step(w.phase.cycle, Finish(job)))
    ensures Recent(After(w, Report(at, job), limit), l)
  {
  }

  lemma {:induction false} AlwaysRecent(start: int, limit: nat, l: Limits, events: seq<Event>, w: Worker)
    requires limit > 0 && Reaches(start, limit, l, events, w)
    ensures Recent(w, l)
    decreases |events|
  {
    if events != [] {
      var before :| StepsTo(start, limit, l, events, before, w);
      AlwaysRecent(start, limit, l, events[..|events| - 1], before);
      StaysRecent(before, events[|events| - 1], limit, l);
    }
  }

  /** Over every run that is on time, the last heartbeat (before the first, the start) is never
      older than three deadlines, the probe cap and the poll interval. */
  lemma GapBound(start: int, limit: nat, l: Limits, events: seq<Event>, w: Worker, now: int)
    requires limit > 0 && Reaches(start, limit, l, events, w) && WellTimed(w) && OnTime(w, now, l)
    ensures 0 <= now - w.last <= 3 * l.db + 17 * SECOND + 3 * l.lag
  {
    AlwaysRecent(start, limit, l, events, w);
    if w.phase.Dispatching? {
      var i :| i in w.phase.cycle.active;
      assert now <= w.phase.starts[i] + JobCap(l);
    }
  }

  lemma OneMoreEvent(start: int, limit: nat, l: Limits, events: seq<Event>, before: Worker, e: Event, w: Worker)
    requires limit > 0 && Reaches(start, limit, l, events, before)
    requires WellTimed(before) && Possible(before, e) && OnTime(before, e.at, l) && w == After(before, e, limit)
    ensures Reaches(start, limit, l, events + [e], w)
  {
    assert (events + [e])[..|events|] == events;
    assert StepsTo(start, limit, l, events + [e], before, w);
  }

  /** An empty batch at once, then one job fetched as late as the deadlines allow. */
  function SlowFetch(db: nat): seq<Event> {
    [] + [Tick(0)] + [Fetched(0, 0)] + [Tick(POLL_INTERVAL)] + [Fetched(POLL_INTERVAL + db, 1)]
  }

  function SlowWorker(db: nat): Worker {
    Worker(Dispatching(Open(1, 1), [POLL_INTERVAL + db]), 0, true, POLL_INTERVAL + db)
  }

  lemma SlowFetchIsOnTime(db: nat)
    ensures Reaches(0, 1, Limits(db, 0), SlowFetch(db), SlowWorker(db)) && WellTimed(SlowWorker(db))
  {
    var l := Limits(db, 0);
    var idle, beaten := Begin(0), Worker(Waiting(0), 0, true, 0);
    OneMoreEvent(0, 1, l, [], idle, Tick(0), Worker(Fetching(0), 0, false, 0));
    OneMoreEvent(0, 1, l, [] + [Tick(0)], Worker(Fetching(0), 0, false, 0), Fetched(0, 0), beaten);
    OneMoreEvent(0, 1, l, [] + [Tick(0)] + [Fetched(0, 0)], beaten, Tick(POLL_INTERVAL),
      Worker(Fetching(POLL_INTERVAL), 0, true, POLL_INTERVAL));
    NonEmpty(1);
    SlowStarts(db);
    OneMoreEvent(0, 1, l, [] + [Tick(0)] + [Fetched(0, 0)] + [Tick(POLL_INTERVAL)],
      Worker(Fetching(POLL_INTERVAL), 0, true, POLL_INTERVAL), Fetched(POLL_INTERVAL + db, 1), SlowWorker(db));
  }

  lemma SlowStarts(db: nat)
    ensures seq(Min(1, 1), _ => POLL_INTERVAL + db) == [POLL_INTERVAL + db]
  {
  }

  /** The bound is attained, so no smaller budget than three deadlines and 17 seconds would do. */
  lemma GapIsAttained(db: nat)
    ensures exists events, w :: (
      && Reaches(0, 1, Limits(db, 0), events, w) && WellTimed(w) && w.beaten
      && OnTime(w, w.last + 3 * db + 17 * SECOND, Limits(db, 0)))
  {
    SlowFetchIsOnTime(db);
    SlowIsOnTime(db);
  }

  lemma SlowIsOnTime(db: nat)
    requires WellTimed(SlowWorker(db))
    ensures OnTime(SlowWorker(db), SlowWorker(db).last + 3 * db + 17 * SECOND, Limits(db, 0))
  {
    assert forall i :: i in Open(1, 1).active ==> i == 0;
  }

  /** Whatever the environment, a worker that is on time is never reported stale once it wrote its
      first heartbeat, and writes that within the same age of its start; the margin left for
      lateness is ten seconds and one deadline. */
  lemma NeverStale(s: Settings, start: int, limit: nat, lag: nat, events: seq<Event>, w: Worker, now: int)
    requires ValidSettings(s) && 3 * lag <= s.dbTimeout + 10 * SECOND
    requires limit > 0
    requires Reaches(start, limit, Limits(s.dbTimeout, lag), events, w) && WellTimed(w)
    requires OnTime(w, now, Limits(s.dbTimeout, lag))
    ensures 0 <= now - w.last <= s.heartbeatMaxAge < MAX_INT64
    ensures !w.beaten ==> now - start <= s.heartbeatMaxAge
  {
    GapBound(start, limit, Limits(s.dbTimeout, lag), events, w, now);
    StartIsLast(start, limit, Limits(s.dbTimeout, lag), events, w);
  }

  /** The time of the last heartbeat these events write, if any. */
  function LastBeat(events: seq<Event>): Option<int> {
    if events == [] then None
    else
      match events[|events| - 1]
      case Fetched(at, 0) => Some(at)
      case Report(at, _) => Some(at)
      case _ => LastBeat(events[..|events| - 1])
  }

  lemma {:induction false} LastBeatIs(start: int, limit: nat, l: Limits, events: seq<Event>, w: Worker)
    requires limit > 0 && Reaches(start, limit, l, events, w)
    ensures LastBeat(events) == if w.beaten then Some(w.last) else None
    decreases |events|
  {
    if events != [] {
      var before :| StepsTo(start, limit, l, events, before, w);
      LastBeatIs(start, limit, l, events[..|events| - 1], before);
    }
  }

  /** A worker's life in its file: the heartbeat of an earlier process is invalidated, then each
      empty batch and each report publishes the time. */
  method PublishHeartbeats(cell: Cell, events: seq<Event>)
    modifies cell
    ensures cell.content == Some(LastBeat(events))
  {
    cell.Reset();
    for i := 0 to |events|
      invariant cell.content == Some(LastBeat(events[..i]))
    {
      assert events[..i + 1][..i] == events[..i];
      match events[i]
      case Tick(_) =>
      case Fetched(at, rows) => if rows == 0 { cell.Write(at); }
      case Report(at, _) => cell.Write(at);
    }
    assert events[..|events|] == events;
  }

  /** So the health check of a worker that is on time never finds a stale heartbeat: it succeeds
      from the first one on, and before that finds the file empty, whatever an earlier process left. */
  method LiveWorkerIsFresh(cell: Cell, s: Settings, ghost start: int, ghost limit: nat, ghost lag: nat,
                           events: seq<Event>, ghost w: Worker, now: int)
    returns (v: Verdict)
    requires ValidSettings(s) && 3 * lag <= s.dbTimeout + 10 * SECOND && limit > 0
    requires Reaches(start, limit, Limits(s.dbTimeout, lag), events, w) && WellTimed(w)
    requires OnTime(w, now, Limits(s.dbTimeout, lag))
    modifies cell
    ensures v == if w.beaten then Fresh else Malformed
  {
    PublishHeartbeats(cell, events);
    LastBeatIs(start, limit, Limits(s.dbTimeout, lag), events, w);
    NeverStale(s, start, limit, lag, events, w, now);
    v := cell.Check(now, s.heartbeatMaxAge);
  }

  lemma {:induction false} StartIsLast(start: int, limit: nat, l: Limits, events: seq<Event>, w: Worker)
    requires limit > 0 && Reaches(start, limit, l, events, w)
    ensures !w.beaten ==> w.last == start
    decreases |events|
  {
    if events != [] {
      var before :| StepsTo(start, limit, l, events, before, w);
      StartIsLast(start, limit, l, events[..|events| - 1], before);
    }
  }
}
