/** What a monitor's row, its alerts and its public status say about the checks it has had, over every
    run of the protocol (sentinel-worker/internal/worker/loop.go, evaluateFSM and checkAndPersist). */
module CheckHistory {
  import opened Schema
  import opened Arithmetic
  import opened Fsm
  import opened Persist
  import opened Protocol
  import opened ProtocolSafety
  import opened ProtocolResults
  import opened PublicStatus

  function Probes(checks: seq<Check>): (probes: seq<State>)
    ensures |probes| == |checks| && forall k :: 0 <= k < |checks| ==> probes[k] == checks[k].probe
  {
    seq(|checks|, k requires 0 <= k < |checks| => checks[k].probe)
  }

  lemma ProbesMore(checks: seq<Check>, check: Check)
    ensures Probes(checks + [check]) == Probes(checks) + [check.probe]
  {
  }

  lemma TrailingMore(probes: seq<State>, probe: State)
    ensures TrailingFailures(probes + [probe]) == if probe == Healthy then 0 else TrailingFailures(probes) + 1
  {
    assert (probes + [probe])[..|probes|] == probes;
  }

  // ----- No alert without its cause -----

  /** Check k is what the alert was sent for: a healthy one, or one that makes the run of failing
      checks up to it as long as its threshold. */
  ghost predicate CausedBy(checks: seq<Check>, entry: Entry, k: nat)
    requires k < |checks|
  {
    && checks[k].at == entry.at
    && match entry.kind
       case Recovery => checks[k].probe == Healthy
       case Down => TrailingFailures(Probes(checks[..k + 1])) >= EffectiveThreshold(checks[k].threshold)
  }

  ghost predicate Caused(checks: seq<Check>, entry: Entry) {
    exists k: nat :: k < |checks| && CausedBy(checks, entry, k)
  }

  ghost predicate AllCaused(checks: map<nat, seq<Check>>, log: map<nat, seq<Entry>>) {
    forall id, k :: id in log && 0 <= k < |log[id]| ==> Caused(Of(checks, id), log[id][k])
  }

  /** How many checks of a monitor have failed since its last healthy one. */
  function FailedLast(checks: map<nat, seq<Check>>, id: nat): nat { TrailingFailures(Probes(Of(checks, id))) }

  /** No stored counter is ahead of the checks, and neither is one in a snapshot still to be used. */
  ghost predicate CountersBehind(monitors: map<nat, Monitor>, checks: map<nat, seq<Check>>) {
    forall id :: id in monitors ==> monitors[id].failures <= FailedLast(checks, id)
  }

  ghost predicate SnapshotsBehind(w: Worker, checks: map<nat, seq<Check>>) {
    w.Running? ==> forall k :: 0 <= k < |w.jobs| && k !in w.persisted ==>
      w.jobs[k].row.failures <= FailedLast(checks, w.jobs[k].id)
  }

  /** The check is in the archive, under its id. */
  ghost predicate InArchive(archive: map<nat, CheckResult>, id: nat, check: Check) {
    check.id in archive && archive[check.id] == CheckResult(id, check.probe, check.at)
  }

  ghost predicate AllArchived(archive: map<nat, CheckResult>, checks: map<nat, seq<Check>>) {
    forall id, k :: id in checks && 0 <= k < |checks[id]| ==> InArchive(archive, id, checks[id][k])
  }

  ghost predicate Justified(s: Sys) {
    && AllArchived(s.archive, s.checks) && AllCaused(s.checks, s.log)
    && CountersBehind(s.db.monitors, s.checks) && SnapshotsBehind(s.worker, s.checks)
  }

  lemma ArchivedMore(archive: map<nat, CheckResult>, checks: map<nat, seq<Check>>, id: nat, check: Check)
    requires AllArchived(archive, checks)
    requires forall i, k :: i in checks && 0 <= k < |checks[i]| ==> checks[i][k].id < check.id
    ensures AllArchived(archive[check.id := CheckResult(id, check.probe, check.at)],
                        checks[id := Of(checks, id) + [check]])
  {
    var archive', checks' := archive[check.id := CheckResult(id, check.probe, check.at)],
      checks[id := Of(checks, id) + [check]];
    forall i, k | i in checks' && 0 <= k < |checks'[i]| ensures InArchive(archive', i, checks'[i][k]) {
      if i in checks && k < |checks[i]| { assert InArchive(archive, i, checks[i][k]); }
    }
  }

  lemma StaysCaused(checks: seq<Check>, check: Check, entry: Entry)
    requires Caused(checks, entry)
    ensures Caused(checks + [check], entry)
  {
    var k: nat :| k < |checks| && CausedBy(checks, entry, k);
    assert (checks + [check])[..k + 1] == checks[..k + 1];
    assert CausedBy(checks + [check], entry, k);
  }

  /** The counter after a check, and the cause of its alert. */
  lemma CheckIsCause(row: Monitor, checks: seq<Check>, check: Check)
    requires row.failures <= TrailingFailures(Probes(checks))
    ensures var e := EvaluateFsm(row.lastState, row.failures, check.probe, check.threshold);
      && e.failures <= TrailingFailures(Probes(checks + [check]))
      && forall id :: e.alert.Some? ==> Caused(checks + [check], Entry(id, e.alert.value, check.at))
  {
    var longer := checks + [check];
    ProbesMore(checks, check);
    TrailingMore(Probes(checks), check.probe);
    AlertIsTransition(row.lastState, row.failures, check.probe, check.threshold);
    var e := EvaluateFsm(row.lastState, row.failures, check.probe, check.threshold);
    assert longer[..|checks| + 1] == longer;
    forall id | e.alert.Some? ensures Caused(longer, Entry(id, e.alert.value, check.at)) {
      assert CausedBy(longer, Entry(id, e.alert.value, check.at), |checks|);
    }
  }

  lemma LogsStayCaused(checks: map<nat, seq<Check>>, log: map<nat, seq<Entry>>, id: nat, check: Check, e: Evaluation,
                       nextAlert: nat)
    requires AllCaused(checks, log)
    requires e.alert.Some? ==> Caused(Of(checks, id) + [check], Entry(nextAlert, e.alert.value, check.at))
    ensures AllCaused(checks[id := Of(checks, id) + [check]], NewLog(log, id, e, nextAlert, check.at))
  {
    var checks', log' := checks[id := Of(checks, id) + [check]], NewLog(log, id, e, nextAlert, check.at);
    forall i, k | i in log' && 0 <= k < |log'[i]| ensures Caused(Of(checks', i), log'[i][k]) {
      if i in log && k < |log[i]| {
        assert log'[i][k] == log[i][k];
        if i == id { StaysCaused(Of(checks, id), check, log[i][k]); }
      }
    }
  }

  lemma CountersStayBehind(monitors: map<nat, Monitor>, checks: map<nat, seq<Check>>, id: nat, row: Monitor,
                           ofId: seq<Check>)
    requires CountersBehind(monitors, checks) && row.failures <= TrailingFailures(Probes(ofId))
    ensures CountersBehind(monitors[id := row], checks[id := ofId])
  {
    var monitors' := monitors[id := row];
    forall i | i in monitors' ensures monitors'[i].failures <= FailedLast(checks[id := ofId], i) {
      if i != id { assert Of(checks[id := ofId], i) == Of(checks, i); }
    }
  }

  lemma SnapshotsStayBehind(w: Worker, checks: map<nat, seq<Check>>, j: nat, ofId: seq<Check>)
    requires w.Running? && SnapshotsBehind(w, checks) && DistinctIds(w.jobs) && j < |w.jobs|
    ensures SnapshotsBehind(w.(persisted := w.persisted + {j}), checks[w.jobs[j].id := ofId])
  {
    forall k | 0 <= k < |w.jobs| && k !in w.persisted + {j}
      ensures w.jobs[k].row.failures <= FailedLast(checks[w.jobs[j].id := ofId], w.jobs[k].id)
    {
      assert w.jobs[k].id != w.jobs[j].id;
      assert Of(checks[w.jobs[j].id := ofId], w.jobs[k].id) == Of(checks, w.jobs[k].id);
    }
  }

  lemma CommitJustifies(s: Sys, j: nat, probe: State, threshold: int, at: int)
    requires Justified(s) && s.worker.Running? && DistinctIds(s.worker.jobs)
    requires j < |s.worker.jobs| && j !in s.worker.persisted && s.worker.jobs[j].id in s.db.monitors
    requires Recorded(s.archive, s.checks, s.db.nextResult)
    ensures Justified(Committed(s, j, probe, threshold, at))
  {
    var job := s.worker.jobs[j];
    var check := NextCheck(s, job, probe, threshold, at);
    var e := EvaluateFsm(job.row.lastState, job.row.failures, probe, threshold);
    ArchivedMore(s.archive, s.checks, job.id, check);
    CheckIsCause(job.row, Of(s.checks, job.id), check);
    LogsStayCaused(s.checks, s.log, job.id, check, e, s.db.nextAlert);
    CountersStayBehind(s.db.monitors, s.checks, job.id, Checked(s.db.monitors[job.id], e, at),
      Of(s.checks, job.id) + [check]);
    SnapshotsStayBehind(s.worker, s.checks, j, Of(s.checks, job.id) + [check]);
  }

  lemma FetchJustifies(s: Sys, jobs: seq<Job>, worker: Worker)
    requires Justified(s) && IsDueList(s.db, s.clock, jobs) && worker.Running? && worker.jobs == jobs
    ensures Justified(s.(worker := worker))
  {
  }

  lemma EnvironmentJustifies(s: Sys, db': Db)
    requires Justified(s) && Rely(s.db, db')
    ensures Justified(s.(db := db'))
  {
    forall id | id in db'.monitors ensures db'.monitors[id].failures <= FailedLast(s.checks, id) {
      if id in s.db.monitors { assert s.db.monitors[id].failures <= FailedLast(s.checks, id); }
    }
  }

  lemma NextJustifies(window: int, s: Sys, s': Sys, action: Action)
    requires Inv(window, s) && Justified(s) && Next(window, s, s', action)
    ensures Justified(s')
  {
    match action
    case Commit(j, probe, threshold, at) => CommitJustifies(s, j, probe, threshold, at);
    case Fetch(jobs, _) => FetchJustifies(s, jobs, s'.worker);
    case Environment(db') => EnvironmentJustifies(s, db');
    case _ => SameJustifies(s, s');
  }

  lemma SameJustifies(s: Sys, s': Sys)
    requires Justified(s) && s'.db.monitors == s.db.monitors
    requires s'.checks == s.checks && s'.log == s.log && s'.archive == s.archive
    requires s'.worker.Running? ==>
      s.worker.Running? && s'.worker.jobs == s.worker.jobs && s'.worker.persisted == s.worker.persisted
    ensures Justified(s')
  {
  }

  lemma StepJustifies(window: int, run: seq<Sys>, i: nat)
    requires IsRun(window, run) && i + 1 < |run| && Justified(run[i])
    ensures Justified(run[i + 1])
  {
    assert FollowsAt(window, run, i);
    RunKeeps(window, run, i);
    var action :| Next(window, run[i], run[i + 1], action);
    NextJustifies(window, run[i], run[i + 1], action);
  }

  lemma {:induction false} RunIsJustified(window: int, run: seq<Sys>, i: nat)
    requires IsRun(window, run) && i < |run|
    ensures Justified(run[i])
  {
    if i > 0 {
      RunIsJustified(window, run, i - 1);
      StepJustifies(window, run, i - 1);
    }
  }

  /** The last `limit` checks up to number c have failed. */
  ghost predicate AllFailed(checks: seq<Check>, c: int, limit: int)
    requires c < |checks|
  {
    limit <= c + 1 && forall b :: c + 1 - limit <= b <= c ==> checks[b].probe != Healthy
  }

  /** No false alarm, in any run and whatever else writes to the database: each alert has a check of
      its time, stored as a result, that is healthy for a recovery, and for a down the last of as many
      failing checks in a row as its threshold says. */
  lemma NoFalseAlarm(window: int, run: seq<Sys>, i: nat, id: nat, k: nat)
    requires IsRun(window, run) && i < |run| && k < |Of(run[i].log, id)|
    ensures var checks, entry := Of(run[i].checks, id), Of(run[i].log, id)[k];
      exists c :: 0 <= c < |checks| && checks[c].at == entry.at
        && checks[c].id in run[i].archive && run[i].archive[checks[c].id] == CheckResult(id, checks[c].probe, entry.at)
        && (entry.kind == Recovery ==> checks[c].probe == Healthy)
        && (entry.kind == Down ==> AllFailed(checks, c, if checks[c].threshold > 0 then checks[c].threshold else 3))
  {
    RunIsJustified(window, run, i);
    var c := CauseIs(run[i].archive, run[i].checks, id, Of(run[i].log, id)[k]);
  }

  lemma CauseIs(archive: map<nat, CheckResult>, checks: map<nat, seq<Check>>, id: nat, entry: Entry) returns (c: nat)
    requires AllArchived(archive, checks) && Caused(Of(checks, id), entry)
    ensures var ofId := Of(checks, id);
      && c < |ofId| && ofId[c].at == entry.at
      && ofId[c].id in archive && archive[ofId[c].id] == CheckResult(id, ofId[c].probe, entry.at)
      && (entry.kind == Recovery ==> ofId[c].probe == Healthy)
      && (entry.kind == Down ==> AllFailed(ofId, c, EffectiveThreshold(ofId[c].threshold)))
  {
    var ofId := Of(checks, id);
    c :| c < |ofId| && CausedBy(ofId, entry, c);
    assert InArchive(archive, id, ofId[c]);
    if entry.kind == Down { TrailingFailed(ofId, c, EffectiveThreshold(ofId[c].threshold)); }
  }

  lemma TrailingFailed(checks: seq<Check>, c: nat, limit: nat)
    requires c < |checks| && TrailingFailures(Probes(checks[..c + 1])) >= limit
    ensures AllFailed(checks, c, limit)
  {
    var probes := Probes(checks[..c + 1]);
    forall b | c + 1 - limit <= b <= c ensures checks[b].probe != Healthy {
      assert probes[b] == checks[b].probe;
    }
  }

  // ----- The row follows from the checks -----

  function Kinds(log: seq<Entry>): (kinds: seq<AlertKind>)
    ensures |kinds| == |log| && forall k :: 0 <= k < |log| ==> kinds[k] == log[k].kind
  {
    seq(|log|, k requires 0 <= k < |log| => log[k].kind)
  }

  function TrackOf(row: Monitor, log: seq<Entry>): Track { Track(row.lastState, row.failures, Kinds(log)) }

  /** Every snapshot of the monitor that is still to be used has this counter. */
  ghost predicate SnapshotsCount(w: Worker, id: nat, failures: int) {
    w.Running? ==> forall k :: 0 <= k < |w.jobs| && k !in w.persisted && w.jobs[k].id == id ==>
      w.jobs[k].row.failures == failures
  }

  /** Unless the monitor was checked, its counter is as it was. */
  ghost predicate OnlyChecked(s: Sys, s': Sys, id: nat) {
    id in s.db.monitors && id in s'.db.monitors && Of(s'.checks, id) == Of(s.checks, id) ==>
      s'.db.monitors[id].failures == s.db.monitors[id].failures
  }

  /** From state i to state j no other session writes the counter of the monitor. */
  ghost predicate LeftAlone(run: seq<Sys>, i: nat, j: nat, id: nat)
    requires j < |run|
  {
    forall k: nat :: i <= k < j ==> ChecksOnly(run, k, id)
  }

  ghost predicate ChecksOnly(run: seq<Sys>, k: nat, id: nat) { k + 1 < |run| && OnlyChecked(run[k], run[k + 1], id) }

  /** The checks from number n on are under this threshold. */
  ghost predicate Under(checks: seq<Check>, n: nat, threshold: int) {
    forall k :: n <= k < |checks| ==> EffectiveThreshold(checks[k].threshold) == EffectiveThreshold(threshold)
  }

  /** The monitor has come from `start` to where it is by its checks from number n on. */
  ghost predicate Came(s: Sys, id: nat, start: Track, n: nat, threshold: int) {
    id in s.db.monitors ==>
      var checks := Of(s.checks, id);
      && n <= |checks| && SnapshotsCount(s.worker, id, s.db.monitors[id].failures)
      && (Under(checks, n, threshold) ==>
            TrackOf(s.db.monitors[id], Of(s.log, id)) == FoldFrom(start, Probes(checks[n..]), threshold))
  }

  lemma FoldMore(start: Track, checks: seq<Check>, n: nat, check: Check, threshold: int)
    requires n <= |checks|
    ensures FoldFrom(start, Probes((checks + [check])[n..]), threshold) ==
      Move(FoldFrom(start, Probes(checks[n..]), threshold), check.probe, threshold)
  {
    assert (checks + [check])[n..] == checks[n..] + [check];
    ProbesMore(checks[n..], check);
    var probes := Probes(checks[n..]);
    assert (probes + [check.probe])[..|probes|] == probes;
  }

  /** The commit is the monitor's. */
  lemma OwnCommitMovesOn(s: Sys, j: nat, probe: State, threshold': int, at: int, start: Track, n: nat, threshold: int)
    requires s.worker.Running? && j < |s.worker.jobs| && j !in s.worker.persisted && DistinctIds(s.worker.jobs)
    requires s.worker.jobs[j].id in s.db.monitors && Fresh(s.db.monitors, s.worker.jobs[j])
    requires Came(s, s.worker.jobs[j].id, start, n, threshold)
    ensures Came(Committed(s, j, probe, threshold', at), s.worker.jobs[j].id, start, n, threshold)
  {
    var job := s.worker.jobs[j];
    OfNewLog(s.log, job.id, EvaluateFsm(job.row.lastState, job.row.failures, probe, threshold'), s.db.nextAlert, at);
    TrackMoves(s.db.monitors[job.id], job, Of(s.log, job.id), probe, threshold', at, s.db.nextAlert);
    OneCheckOn(s.db.monitors[job.id], Of(s.checks, job.id), Of(s.log, job.id),
      NextCheck(s, job, probe, threshold', at), start, n, threshold);
    NoSnapshotLeft(s.worker, j, Committed(s, j, probe, threshold', at).db.monitors[job.id].failures);
  }

  lemma NoSnapshotLeft(w: Worker, j: nat, failures: int)
    requires w.Running? && j < |w.jobs| && DistinctIds(w.jobs)
    ensures SnapshotsCount(w.(persisted := w.persisted + {j}), w.jobs[j].id, failures)
  {
    forall k | 0 <= k < |w.jobs| && k !in w.persisted + {j} ensures w.jobs[k].id != w.jobs[j].id {
    }
  }

  lemma OtherCommitMovesOn(s: Sys, j: nat, probe: State, threshold': int, at: int, id: nat, start: Track, n: nat,
                           threshold: int)
    requires s.worker.Running? && j < |s.worker.jobs| && s.worker.jobs[j].id in s.db.monitors
    requires s.worker.jobs[j].id != id && Came(s, id, start, n, threshold)
    ensures Came(Committed(s, j, probe, threshold', at), id, start, n, threshold)
  {
    var job := s.worker.jobs[j];
    OfNewLog(s.log, job.id, EvaluateFsm(job.row.lastState, job.row.failures, probe, threshold'), s.db.nextAlert, at);
  }

  /** What a step needs to know of the snapshots, and of a monitor that is still to be created. */
  ghost predicate Known(s: Sys, id: nat) {
    && (s.worker.Running? ==>
          && DistinctIds(s.worker.jobs)
          && (forall k :: 0 <= k < |s.worker.jobs| && k !in s.worker.persisted ==>
                Fresh(s.db.monitors, s.worker.jobs[k])))
    && (s.db.nextMonitor <= id ==>
          && id !in s.checks && id !in s.log
          && (s.worker.Running? ==> forall k :: 0 <= k < |s.worker.jobs| ==> s.worker.jobs[k].id != id))
  }

  lemma InvKnown(window: int, s: Sys, id: nat)
    requires Inv(window, s)
    ensures Known(s, id)
  {
  }

  lemma CommitMovesOn(s: Sys, j: nat, probe: State, threshold': int, at: int, id: nat, start: Track, n: nat,
                      threshold: int)
    requires Known(s, id) && s.worker.Running? && j < |s.worker.jobs| && j !in s.worker.persisted
    requires s.worker.jobs[j].id in s.db.monitors && Came(s, id, start, n, threshold)
    ensures Came(Committed(s, j, probe, threshold', at), id, start, n, threshold)
  {
    if s.worker.jobs[j].id == id {
      OwnCommitMovesOn(s, j, probe, threshold', at, start, n, threshold);
    } else {
      OtherCommitMovesOn(s, j, probe, threshold', at, id, start, n, threshold);
    }
  }

  /** A check of a monitor moves its track. */
  lemma TrackMoves(row: Monitor, job: Job, log: seq<Entry>, probe: State, threshold: int, at: int, nextAlert: nat)
    requires job.row.lastState == row.lastState && job.row.failures == row.failures
    ensures var e := EvaluateFsm(job.row.lastState, job.row.failures, probe, threshold);
      TrackOf(Checked(row, e, at), Logged(log, e, nextAlert, at)) == Move(TrackOf(row, log), probe, threshold)
  {
  }

  lemma OneCheckOn(row: Monitor, checks: seq<Check>, log: seq<Entry>, check: Check, start: Track, n: nat,
                   threshold: int)
    requires n <= |checks|
    requires Under(checks, n, threshold) ==> TrackOf(row, log) == FoldFrom(start, Probes(checks[n..]), threshold)
    ensures Under(checks + [check], n, threshold) ==>
      Move(TrackOf(row, log), check.probe, check.threshold) ==
        FoldFrom(start, Probes((checks + [check])[n..]), threshold)
  {
    if Under(checks + [check], n, threshold) {
      assert (checks + [check])[|checks|] == check;
      assert Under(checks, n, threshold) by {
        forall k | n <= k < |checks| ensures EffectiveThreshold(checks[k].threshold) == EffectiveThreshold(threshold) {
          assert (checks + [check])[k] == checks[k];
        }
      }
      FoldMore(start, checks, n, check, threshold);
    }
  }

  lemma EnvironmentMovesOn(s: Sys, db': Db, id: nat, start: Track, n: nat, threshold: int)
    requires Known(s, id) && Rely(s.db, db') && Came(s, id, start, n, threshold)
    requires OnlyChecked(s, s.(db := db'), id)
    requires id in s.db.monitors || id < s.db.nextMonitor || (start == NEW_TRACK && n == 0)
    ensures Came(s.(db := db'), id, start, n, threshold)
  {
  }

  lemma FetchMovesOn(s: Sys, jobs: seq<Job>, worker: Worker, id: nat, start: Track, n: nat, threshold: int)
    requires IsDueList(s.db, s.clock, jobs) && worker.Running? && worker.jobs == jobs
    requires Came(s, id, start, n, threshold)
    ensures Came(s.(worker := worker), id, start, n, threshold)
  {
  }

  lemma NextMovesOn(window: int, s: Sys, s': Sys, action: Action, id: nat, start: Track, n: nat, threshold: int)
    requires Known(s, id) && Next(window, s, s', action)
    requires OnlyChecked(s, s', id) && Came(s, id, start, n, threshold)
    requires id in s.db.monitors || id < s.db.nextMonitor || (start == NEW_TRACK && n == 0)
    ensures Came(s', id, start, n, threshold)
  {
    match action
    case Commit(j, probe, threshold', at) => CommitMovesOn(s, j, probe, threshold', at, id, start, n, threshold);
    case Fetch(jobs, _) => FetchMovesOn(s, jobs, s'.worker, id, start, n, threshold);
    case Environment(db') => EnvironmentMovesOn(s, db', id, start, n, threshold);
    case _ => SameMovesOn(s, s', id, start, n, threshold);
  }

  lemma SameMovesOn(s: Sys, s': Sys, id: nat, start: Track, n: nat, threshold: int)
    requires Came(s, id, start, n, threshold) && s'.db.monitors == s.db.monitors
    requires s'.checks == s.checks && s'.log == s.log
    requires s'.worker.Running? ==>
      s.worker.Running? && s'.worker.jobs == s.worker.jobs && s'.worker.persisted == s.worker.persisted
    ensures Came(s', id, start, n, threshold)
  {
  }

  /** Ids and histories only grow. */
  ghost predicate Grows(s: Sys, s': Sys, id: nat) {
    s.db.nextMonitor <= s'.db.nextMonitor && Of(s.checks, id) <= Of(s'.checks, id) && Of(s.log, id) <= Of(s'.log, id)
  }

  lemma NextGrows(window: int, s: Sys, s': Sys, action: Action, id: nat)
    requires Next(window, s, s', action)
    ensures Grows(s, s', id)
  {
    match action
    case Commit(j, probe, threshold, at) => LandingGrows(s, s.worker.jobs[j], probe, threshold, at, id);
    case _ =>
  }

  lemma LandingGrows(s: Sys, job: Job, probe: State, threshold: int, at: int, id: nat)
    requires job.id in s.db.monitors
    ensures Grows(s, Landed(s, job, probe, threshold, at), id)
  {
  }

  lemma StepGrows(window: int, run: seq<Sys>, j: nat, id: nat)
    requires IsRun(window, run) && j + 1 < |run|
    ensures Grows(run[j], run[j + 1], id)
  {
    assert FollowsAt(window, run, j);
    var action :| Next(window, run[j], run[j + 1], action);
    NextGrows(window, run[j], run[j + 1], action, id);
  }

  lemma {:induction false} RunGrows(window: int, run: seq<Sys>, i: nat, j: nat, id: nat)
    requires IsRun(window, run) && i <= j < |run|
    ensures Grows(run[i], run[j], id)
  {
    if i < j {
      RunGrows(window, run, i, j - 1, id);
      StepGrows(window, run, j - 1, id);
    }
  }

  lemma StepMovesOn(window: int, run: seq<Sys>, j: nat, id: nat, start: Track, n: nat, threshold: int)
    requires IsRun(window, run) && ChecksOnly(run, j, id)
    requires Came(run[j], id, start, n, threshold)
    requires id < run[j].db.nextMonitor || (start == NEW_TRACK && n == 0)
    ensures Came(run[j + 1], id, start, n, threshold)
  {
    assert FollowsAt(window, run, j);
    RunKeeps(window, run, j);
    var action :| Next(window, run[j], run[j + 1], action);
    InvKnown(window, run[j], id);
    NextMovesOn(window, run[j], run[j + 1], action, id, start, n, threshold);
  }

  lemma {:induction false} RunMovesOn(window: int, run: seq<Sys>, i: nat, j: nat, id: nat, start: Track, n: nat,
                                      threshold: int)
    requires IsRun(window, run) && i <= j < |run| && LeftAlone(run, i, j, id) && Came(run[i], id, start, n, threshold)
    requires id < run[i].db.nextMonitor || (start == NEW_TRACK && n == 0)
    ensures Came(run[j], id, start, n, threshold)
  {
    if i < j {
      assert ChecksOnly(run, j - 1, id);
      RunMovesOn(window, run, i, j - 1, id, start, n, threshold);
      RunGrows(window, run, i, j - 1, id);
      StepMovesOn(window, run, j - 1, id, start, n, threshold);
    }
  }

  /** Over any stretch of any run in which no other session writes the counter of a monitor, and
      under one threshold: its state, counter and alerts at the end are those of the state machine
      fed the probes of its checks, from where they were at the start. */
  lemma RowFollowsChecks(window: int, run: seq<Sys>, i: nat, j: nat, id: nat, threshold: int)
    requires IsRun(window, run) && i <= j < |run| && id in run[i].db.monitors && id in run[j].db.monitors
    requires LeftAlone(run, i, j, id) && SnapshotsCount(run[i].worker, id, run[i].db.monitors[id].failures)
    requires Under(Of(run[j].checks, id), |Of(run[i].checks, id)|, threshold)
    ensures Of(run[i].checks, id) <= Of(run[j].checks, id) && Of(run[i].log, id) <= Of(run[j].log, id)
    ensures TrackOf(run[j].db.monitors[id], Of(run[j].log, id)) ==
      FoldFrom(TrackOf(run[i].db.monitors[id], Of(run[i].log, id)),
               Probes(Of(run[j].checks, id)[|Of(run[i].checks, id)|..]), threshold)
  {
    var start, checks := TrackOf(run[i].db.monitors[id], Of(run[i].log, id)), Of(run[i].checks, id);
    RunKeeps(window, run, i);
    assert Probes(checks[|checks|..]) == [];
    RunGrows(window, run, i, j, id);
    RunMovesOn(window, run, i, j, id, start, |checks|, threshold);
  }

  /** So a live monitor whose counter nobody else has written since its creation, checked under one
      threshold, is where the closed form says: its counter is the run of failing checks since the
      last healthy one, its state is decided by that run, and it has had one down for each run that
      reached the threshold and one recovery for each such run that is over. */
  lemma NewRowFollowsChecks(window: int, run: seq<Sys>, j: nat, id: nat, threshold: int)
    requires IsRun(window, run) && j < |run| && id in run[j].db.monitors
    requires LeftAlone(run, 0, j, id) && Under(Of(run[j].checks, id), 0, threshold)
    ensures var row, checks, log := run[j].db.monitors[id], Of(run[j].checks, id), Of(run[j].log, id);
      var limit := if threshold > 0 then threshold else 3;
      var probes := Probes(checks);
      var down := TrailingFailures(probes) >= limit;
      && row.failures == TrailingFailures(probes)
      && row.lastState == (if down then Some(Unhealthy) else if Healthy in probes then Some(Healthy) else None)
      && |log| == 2 * |Outages(probes, limit)| - (if down then 1 else 0)
      && (forall k :: 0 <= k < |checks| ==>
            checks[k].id in run[j].archive
            && run[j].archive[checks[k].id] == CheckResult(id, probes[k], checks[k].at))
  {
    RunMovesOn(window, run, 0, j, id, NEW_TRACK, 0, threshold);
    RunIsJustified(window, run, j);
    var checks := Of(run[j].checks, id);
    assert checks[0..] == checks;
    FsmClosedForm(Probes(checks), threshold);
    forall k | 0 <= k < |checks|
      ensures checks[k].id in run[j].archive
              && run[j].archive[checks[k].id] == CheckResult(id, checks[k].probe, checks[k].at)
    {
      assert InArchive(run[j].archive, id, checks[k]);
    }
  }

  /** No silent outage: when the checks of a monitor fail in a row, it is down as soon as its counter
      has reached the threshold, with exactly one alert more, a down; one that was down stays down
      without any, and one that has not got so far keeps its state. */
  lemma OutageIsAlerted(window: int, run: seq<Sys>, i: nat, j: nat, id: nat, threshold: int)
    requires IsRun(window, run) && i <= j < |run| && id in run[i].db.monitors && id in run[j].db.monitors
    requires LeftAlone(run, i, j, id) && SnapshotsCount(run[i].worker, id, run[i].db.monitors[id].failures)
    requires var n, checks := |Of(run[i].checks, id)|, Of(run[j].checks, id);
      Under(checks, n, threshold) && n < |checks| && forall k :: n <= k < |checks| ==> checks[k].probe != Healthy
    ensures var row, row', log, log' := run[i].db.monitors[id], run[j].db.monitors[id], Of(run[i].log, id),
                                        Of(run[j].log, id);
      var n := |Of(run[j].checks, id)| - |Of(run[i].checks, id)|;
      var limit := if threshold > 0 then threshold else 3;
      && row'.failures == (if row.failures > 0 then row.failures else 0) + n
      && if row.lastState != Some(Unhealthy) && row'.failures >= limit
         then row'.lastState == Some(Unhealthy)
              && |log'| == |log| + 1 && log <= log' && log'[|log|].kind == Down
         else row'.lastState == row.lastState && log' == log
  {
    RowFollowsChecks(window, run, i, j, id, threshold);
    FailuresInARow(TrackOf(run[i].db.monitors[id], Of(run[i].log, id)),
      Probes(Of(run[j].checks, id)[|Of(run[i].checks, id)|..]), threshold);
    KindsMore(Of(run[i].log, id), Of(run[j].log, id));
  }

  lemma KindsMore(log: seq<Entry>, log': seq<Entry>)
    requires log <= log'
    ensures Kinds(log') == Kinds(log) ==> log' == log
    ensures Kinds(log') == Kinds(log) + [Down] ==> |log'| == |log| + 1 && log'[|log|].kind == Down
  {
    assert Kinds(log') == Kinds(log) ==> |log'| == |log|;
    if Kinds(log') == Kinds(log) + [Down] { assert Kinds(log')[|log|] == Down; }
  }

  // ----- The public status counts checks -----

  /** The checks of lo..hi, by number. */
  ghost function ChecksWithin(checks: seq<Check>, lo: int, hi: int): set<nat> {
    set k: nat | k < |checks| && lo <= checks[k].at <= hi
  }

  ghost function HealthyWithin(checks: seq<Check>, lo: int, hi: int): set<nat> {
    set k: nat | k < |checks| && lo <= checks[k].at <= hi && checks[k].probe == Healthy
  }

  function Ids(checks: seq<Check>): (ids: seq<nat>)
    ensures |ids| == |checks| && forall k :: 0 <= k < |checks| ==> ids[k] == checks[k].id
  {
    seq(|checks|, k requires 0 <= k < |checks| => checks[k].id)
  }

  lemma IdIsChecks(archive: map<nat, CheckResult>, checks: map<nat, seq<Check>>, nextResult: nat, r: nat)
    returns (k: nat)
    requires Recorded(archive, checks, nextResult) && AllArchived(archive, checks) && r in archive
    ensures var ofMonitor := Of(checks, archive[r].monitorId);
      k < |ofMonitor| && ofMonitor[k].id == r && ofMonitor[k].at == archive[r].createdAt
      && ofMonitor[k].probe == archive[r].state
  {
    var id := archive[r].monitorId;
    assert InChecks(Of(checks, id), r, archive[r].createdAt);
    k :| 0 <= k < |Of(checks, id)| && Of(checks, id)[k].id == r;
    assert InArchive(archive, id, Of(checks, id)[k]);
  }

  lemma TotalIsChecks(archive: map<nat, CheckResult>, checks: map<nat, seq<Check>>, nextResult: nat, id: nat, lo: int,
                      hi: int)
    requires Recorded(archive, checks, nextResult) && AllArchived(archive, checks) && Spaced(Of(checks, id))
    ensures |Window(archive, id, lo, hi)| == |ChecksWithin(Of(checks, id), lo, hi)|
  {
    var rows, ofId := Window(archive, id, lo, hi), Of(checks, id);
    forall k: nat | k < |ofId| ensures InArchive(archive, id, ofId[k]) {
    }
    forall r | r in rows.Keys ensures exists k :: k in ChecksWithin(ofId, lo, hi) && k < |ofId| && Ids(ofId)[k] == r {
      var k := IdIsChecks(archive, checks, nextResult, r);
      assert k in ChecksWithin(ofId, lo, hi);
    }
    AsMany(Ids(ofId), ChecksWithin(ofId, lo, hi), rows.Keys);
  }

  lemma HealthyIsChecks(archive: map<nat, CheckResult>, checks: map<nat, seq<Check>>, nextResult: nat, id: nat, lo: int,
                        hi: int)
    requires Recorded(archive, checks, nextResult) && AllArchived(archive, checks) && Spaced(Of(checks, id))
    ensures |HealthyIds(Window(archive, id, lo, hi))| == |HealthyWithin(Of(checks, id), lo, hi)|
  {
    var healthy, ofId := HealthyIds(Window(archive, id, lo, hi)), Of(checks, id);
    forall k: nat | k < |ofId| ensures InArchive(archive, id, ofId[k]) {
    }
    forall r | r in healthy ensures exists k :: k in HealthyWithin(ofId, lo, hi) && k < |ofId| && Ids(ofId)[k] == r {
      var k := IdIsChecks(archive, checks, nextResult, r);
      assert k in HealthyWithin(ofId, lo, hi);
    }
    AsMany(Ids(ofId), HealthyWithin(ofId, lo, hi), healthy);
  }

  lemma RunRecorded(window: int, run: seq<Sys>, i: nat, id: nat)
    requires IsRun(window, run) && i < |run|
    ensures Recorded(run[i].archive, run[i].checks, run[i].db.nextResult) && Spaced(Of(run[i].checks, id))
    ensures AllArchived(run[i].archive, run[i].checks)
  {
    RunKeeps(window, run, i);
    RunIsJustified(window, run, i);
  }

  lemma CountsOfStatus(db: Db, results: map<nat, CheckResult>, span: int, now: int, id: nat, total: nat, healthy: nat)
    requires Listed(db, id) && total == |Window(results, id, now - span, now)|
    requires healthy == |HealthyIds(Window(results, id, now - span, now))|
    ensures var status := StatusAt(db, results, span, now);
      id in status && status[id].summary.total == total && status[id].summary.healthy == healthy
  {
  }

  lemma RunCountsChecks(window: int, run: seq<Sys>, i: nat, id: nat, lo: int, hi: int)
    requires IsRun(window, run) && i < |run|
    ensures |Window(run[i].archive, id, lo, hi)| == |ChecksWithin(Of(run[i].checks, id), lo, hi)|
    ensures |HealthyIds(Window(run[i].archive, id, lo, hi))| == |HealthyWithin(Of(run[i].checks, id), lo, hi)|
  {
    RunRecorded(window, run, i, id);
    TotalIsChecks(run[i].archive, run[i].checks, run[i].db.nextResult, id, lo, hi);
    HealthyIsChecks(run[i].archive, run[i].checks, run[i].db.nextResult, id, lo, hi);
  }

  /** The public status counts exactly the checks that were ever committed and lie in its window, and
      as healthy exactly those whose probe was healthy, whatever retention has deleted. */
  lemma StatusCountsChecks(window: int, run: seq<Sys>, i: nat, span: int, now: int, id: nat)
    requires IsRun(window, run) && i < |run| && span <= window && run[i].clock <= now && Listed(run[i].db, id)
    ensures var s, checks := run[i], Of(run[i].checks, id);
      var status := StatusAt(s.db, s.db.results, span, now);
      && id in status
      && status[id].summary.total == |ChecksWithin(checks, now - span, now)|
      && status[id].summary.healthy == |HealthyWithin(checks, now - span, now)|
  {
    var s := run[i];
    RunCountsChecks(window, run, i, id, now - span, now);
    CountsOfStatus(s.db, s.archive, span, now, id, |ChecksWithin(Of(s.checks, id), now - span, now)|,
      |HealthyWithin(Of(s.checks, id), now - span, now)|);
    RetentionIsInvisible(window, run, i, span, now);
  }
}
