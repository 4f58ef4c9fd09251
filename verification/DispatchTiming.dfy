/** The greedy bound of the dispatcher: with `limit` slots and jobs of at most `d` time units,
    job k starts by (k / limit) * d.  Time is measured from the start of dispatching. */
module DispatchTiming {
  import opened Arithmetic
  import opened Dispatcher

  /** An uncancelled cycle with the time each job was started at. */
  datatype Timed = Timed(cycle: Cycle, starts: seq<int>, now: int)

  datatype Report = Report(job: nat, at: int)

  /** The time of floor(k / limit) rounds of `d` each. */
  function RoundsTime(k: nat, limit: nat, d: nat): nat
    requires limit > 0
  {
    if k < limit then 0 else RoundsTime(k - limit, limit, d) + d
  }

  lemma {:induction false} RoundsTimeIsFloor(k: nat, limit: nat, d: nat)
    requires limit > 0
    ensures RoundsTime(k, limit, d) == k / limit * d
  {
    if k < limit {
      assert k / limit == 0;
    } else {
      RoundsTimeIsFloor(k - limit, limit, d);
      QuotientStep(k, limit);
      var q := (k - limit) / limit;
      assert (q + 1) * d == q * d + d;
    }
  }

  lemma {:induction false} Monotone(a: nat, b: nat, limit: nat, d: nat)
    requires a <= b && 0 < limit
    ensures RoundsTime(a, limit, d) <= RoundsTime(b, limit, d)
  {
    if a >= limit { Monotone(a - limit, b - limit, limit, d); }
  }

  function TimedOpen(n: nat, limit: nat): Timed {
    Timed(Open(n, limit), seq(Min(n, limit), _ => 0), 0)
  }

  /** Time moves forward, and no active job has been running for more than `d`. */
  predicate Timely(t: Timed, r: Report, d: nat)
    requires |t.starts| == t.cycle.next && Sound(t.cycle)
  {
    && r.job in t.cycle.active && t.now <= r.at
    && forall i :: i in t.cycle.active ==> r.at <= t.starts[i] + d
  }

  /** A report frees a slot, and the next job starts in it at once. */
  function TimedStep(t: Timed, r: Report): Timed {
    Timed(Step(t.cycle, Finish(r.job)), if t.cycle.next < t.cycle.n then t.starts + [r.at] else t.starts, r.at)
  }

  function TimedRun(n: nat, limit: nat, reports: seq<Report>): Timed {
    if reports == [] then TimedOpen(n, limit)
    else TimedStep(TimedRun(n, limit, reports[..|reports| - 1]), reports[|reports| - 1])
  }

  ghost predicate TimelyRun(n: nat, limit: nat, reports: seq<Report>, d: nat) {
    reports == [] ||
    var before := reports[..|reports| - 1];
    var t := TimedRun(n, limit, before);
    && TimelyRun(n, limit, before, d)
    && |t.starts| == t.cycle.next && Sound(t.cycle) && Timely(t, reports[|reports| - 1], d)
  }

  ghost predicate Bounded(starts: seq<int>, limit: nat, d: nat, now: int)
    requires limit > 0
  {
    && (forall j, k :: 0 <= j <= k < |starts| ==> starts[j] <= starts[k])
    && (forall k :: 0 <= k < |starts| ==> starts[k] <= now && starts[k] <= RoundsTime(k, limit, d))
  }

  ghost predicate WithinBound(t: Timed, d: nat) {
    && Sound(t.cycle) && !t.cycle.cancelled && t.cycle.limit > 0
    && |t.starts| == t.cycle.next
    && Bounded(t.starts, t.cycle.limit, d, t.now)
  }

  lemma AppendBounded(starts: seq<int>, limit: nat, d: nat, now: int, at: int)
    requires limit > 0 && Bounded(starts, limit, d, now) && now <= at <= RoundsTime(|starts|, limit, d)
    ensures Bounded(starts + [at], limit, d, at)
  {
    forall k | 0 <= k < |starts| + 1
      ensures (starts + [at])[k] <= at && (starts + [at])[k] <= RoundsTime(k, limit, d)
    {
      if k < |starts| { assert (starts + [at])[k] == starts[k]; }
    }
  }

  /** With every slot in use, one of the jobs 0..(next - limit) is still active. */
  lemma OldJobActive(c: Cycle) returns (i: nat)
    requires Sound(c) && |c.active| == c.limit > 0
    ensures i in c.active && i + c.limit <= c.next
  {
    CountActive(c);
    if forall j :: j in c.active ==> c.next < j + c.limit {
      var recent := FirstJobs(c.next) - FirstJobs(c.next + 1 - c.limit);
      RangeSize(c.next + 1 - c.limit, c.next);
      assert c.active <= recent;
      SubsetSize(c.active, recent);
      assert false;
    }
    i :| i in c.active && i + c.limit <= c.next;
  }

  lemma CountActive(c: Cycle)
    requires Sound(c)
    ensures |c.active| <= c.next
  {
    assert c.active <= FirstJobs(c.next);
    SubsetSize(c.active, FirstJobs(c.next));
  }

  lemma SubsetSize(a: set<nat>, b: set<nat>)
    requires a <= b
    ensures |a| <= |b|
  {
    assert b == a + (b - a);
  }

  lemma RangeSize(lo: nat, hi: nat)
    requires lo <= hi
    ensures |FirstJobs(hi) - FirstJobs(lo)| == hi - lo
  {
    assert FirstJobs(hi) == FirstJobs(lo) + (FirstJobs(hi) - FirstJobs(lo));
  }

  lemma StartWithinBound(t: Timed, r: Report, d: nat)
    requires WithinBound(t, d) && Timely(t, r, d) && t.cycle.next < t.cycle.n
    ensures r.at <= RoundsTime(t.cycle.next, t.cycle.limit, d)
  {
    var k, limit := t.cycle.next, t.cycle.limit;
    var i := OldJobActive(t.cycle);
    assert r.at <= t.starts[i] + d <= t.starts[k - limit] + d;
    assert t.starts[k - limit] <= RoundsTime(k - limit, limit, d);
  }

  lemma BoundStep(t: Timed, r: Report, d: nat)
    requires WithinBound(t, d) && Timely(t, r, d)
    ensures WithinBound(TimedStep(t, r), d)
  {
    StepIsSound(t.cycle, Finish(r.job));
    if t.cycle.next < t.cycle.n {
      StartWithinBound(t, r, d);
      AppendBounded(t.starts, t.cycle.limit, d, t.now, r.at);
    }
  }

  lemma {:induction false} RunWithinBound(n: nat, limit: nat, reports: seq<Report>, d: nat)
    requires limit > 0 && TimelyRun(n, limit, reports, d)
    ensures WithinBound(TimedRun(n, limit, reports), d)
    ensures TimedRun(n, limit, reports).cycle.n == n && TimedRun(n, limit, reports).cycle.limit == limit
  {
    if reports == [] {
    } else {
      var before := reports[..|reports| - 1];
      RunWithinBound(n, limit, before, d);
      BoundStep(TimedRun(n, limit, before), reports[|reports| - 1], d);
    }
  }

  /** The start times after these reports. */
  ghost predicate FreedAt(starts: seq<int>, n: nat, limit: nat, reports: seq<Report>) {
    && |starts| == Min(n, limit + |reports|)
    && forall k :: 0 <= k < |starts| ==> starts[k] == if k < limit then 0 else reports[k - limit].at
  }

  lemma FreedStep(t: Timed, n: nat, limit: nat, reports: seq<Report>)
    requires reports != [] && t.cycle.n == n && |t.starts| == t.cycle.next
    requires FreedAt(t.starts, n, limit, reports[..|reports| - 1])
    ensures FreedAt(TimedStep(t, reports[|reports| - 1]).starts, n, limit, reports)
  {
  }

  /** The first `limit` jobs start at once, and after that each starts at the report that frees its slot. */
  lemma {:induction false} StartsWhenFreed(n: nat, limit: nat, reports: seq<Report>, d: nat)
    requires limit > 0 && TimelyRun(n, limit, reports, d)
    ensures FreedAt(TimedRun(n, limit, reports).starts, n, limit, reports)
    ensures TimedRun(n, limit, reports).now == if reports == [] then 0 else reports[|reports| - 1].at
  {
    if reports != [] {
      var before := reports[..|reports| - 1];
      StartsWhenFreed(n, limit, before, d);
      RunWithinBound(n, limit, before, d);
      FreedStep(TimedRun(n, limit, before), n, limit, reports);
    }
  }

  lemma {:induction false} StartsNonNegative(n: nat, limit: nat, reports: seq<Report>, d: nat)
    requires limit > 0 && TimelyRun(n, limit, reports, d)
    ensures var t := TimedRun(n, limit, reports);
      0 <= t.now && forall k :: 0 <= k < |t.starts| ==> 0 <= t.starts[k]
  {
    if reports != [] { StartsNonNegative(n, limit, reports[..|reports| - 1], d); }
  }

  lemma ReportWithinBound(t: Timed, r: Report, d: nat)
    requires WithinBound(t, d) && Timely(t, r, d)
    ensures r.at <= RoundsTime(t.cycle.n + t.cycle.limit - 1, t.cycle.limit, d)
  {
    var limit := t.cycle.limit;
    assert r.at <= t.starts[r.job] + d;
    assert t.starts[r.job] <= RoundsTime(r.job, limit, d);
    assert RoundsTime(r.job + limit, limit, d) == RoundsTime(r.job, limit, d) + d;
    Monotone(r.job + limit, t.cycle.n + limit - 1, limit, d);
  }

  lemma LastReport(n: nat, limit: nat, reports: seq<Report>, d: nat)
    requires limit > 0 && TimelyRun(n, limit, reports, d)
    ensures TimedRun(n, limit, reports).now <= RoundsTime(n + limit - 1, limit, d)
  {
    if reports != [] {
      var before := reports[..|reports| - 1];
      RunWithinBound(n, limit, before, d);
      ReportWithinBound(TimedRun(n, limit, before), reports[|reports| - 1], d);
    }
  }

  /** Job k starts by floor(k / limit) * d, and a batch of n is over by ceil(n / limit) * d,
      which is floor((n + limit - 1) / limit) * d. */
  lemma GreedyBound(n: nat, limit: nat, reports: seq<Report>, d: nat)
    requires limit > 0 && TimelyRun(n, limit, reports, d)
    ensures var t := TimedRun(n, limit, reports);
      && |t.starts| == t.cycle.next
      && (forall k :: 0 <= k < |t.starts| ==> 0 <= t.starts[k] <= k / limit * d)
      && t.now <= (n + limit - 1) / limit * d
  {
    RunWithinBound(n, limit, reports, d);
    StartsNonNegative(n, limit, reports, d);
    LastReport(n, limit, reports, d);
    var t := TimedRun(n, limit, reports);
    forall k | 0 <= k < |t.starts| ensures 0 <= t.starts[k] <= k / limit * d {
      RoundsTimeIsFloor(k, limit, d);
    }
    RoundsTimeIsFloor(n + limit - 1, limit, d);
  }
}
