/** What retention leaves of a monitor's alerts (sentinel-worker/internal/worker/retention.go): the end
    of its log, unless a statement skips a locked alert and takes a newer one. */
module AlertSuffix {
  import opened Schema
  import opened Fsm
  import opened Persist
  import opened Retention
  import opened Protocol
  import opened ProtocolSafety
  import opened ProtocolResults

  /** The state of one monitor's alerts that the invariant provides. */
  ghost predicate WellLogged(alerts: map<nat, Alert>, id: nat, log: seq<Entry>) {
    && Alternates(log) && OwnLog(alerts, id, log)
    && forall a :: a in alerts && alerts[a].monitorId == id ==> InLog(log, a, alerts[a])
  }

  function StampsIn(alerts: map<nat, Alert>): Stamps { map a | a in alerts :: alerts[a].createdAt }

  lemma SameEntry(log: seq<Entry>, i: nat, k: nat)
    requires Alternates(log) && i < |log| && k < |log| && log[i].id == log[k].id
    ensures i == k
  {
  }

  lemma StampIsLogged(alerts: map<nat, Alert>, id: nat, log: seq<Entry>, k: nat)
    requires WellLogged(alerts, id, log) && k < |log| && log[k].id in alerts
    ensures alerts[log[k].id].createdAt == log[k].at && alerts[log[k].id].monitorId == id
  {
    var a := log[k].id;
    assert InLog(log, a, alerts[a]);
    var i :| 0 <= i < |log| && log[i] == Entry(a, alerts[a].kind, alerts[a].createdAt);
    SameEntry(log, i, k);
  }

  /** The order of the table is the order of the log. */
  lemma LogOrder(alerts: map<nat, Alert>, id: nat, log: seq<Entry>, j: nat, k: nat)
    requires WellLogged(alerts, id, log) && j < |log| && k < |log| && log[j].id in alerts && log[k].id in alerts
    ensures Before(StampsIn(alerts), log[j].id, log[k].id) <==> j < k
  {
    StampIsLogged(alerts, id, log, j);
    StampIsLogged(alerts, id, log, k);
  }

  lemma IndexOf(alerts: map<nat, Alert>, id: nat, log: seq<Entry>, a: nat) returns (k: nat)
    requires WellLogged(alerts, id, log) && a in alerts && alerts[a].monitorId == id
    ensures k < |log| && log[k].id == a
  {
    assert InLog(log, a, alerts[a]);
    k :| 0 <= k < |log| && log[k] == Entry(a, alerts[a].kind, alerts[a].createdAt);
  }

  // ----- One statement -----

  /** The monitor has a locked expired alert `b` and a later unlocked one `a` that the statement
      reaches, fewer than `limit` of the unlocked expired alerts of all monitors being older. */
  ghost predicate Overtakes(alerts: map<nat, Alert>, id: nat, cutoff: int, limit: nat, locked: set<nat>,
                            a: nat, b: nat) {
    var stamps := StampsIn(alerts);
    var expired := Expired(stamps, cutoff);
    && a in expired - locked && alerts[a].monitorId == id
    && b in expired && b in locked && alerts[b].monitorId == id
    && Before(stamps, b, a) && |Ahead(stamps, expired - locked, a)| < limit
  }

  ghost predicate Tears(alerts: map<nat, Alert>, id: nat, cutoff: int, limit: nat, locked: set<nat>) {
    exists a, b :: Overtakes(alerts, id, cutoff, limit, locked, a, b)
  }

  /** One statement leaves the end of a monitor's log if and only if it overtakes no locked alert of it. */
  lemma StatementTears(alerts: map<nat, Alert>, id: nat, log: seq<Entry>, cutoff: int, limit: nat, locked: set<nat>,
                       taken: set<nat>)
    requires WellLogged(alerts, id, log) && KeepsSuffix(alerts, log)
    requires Batch(StampsIn(alerts), Expired(StampsIn(alerts), cutoff) - locked, limit, taken)
    ensures KeepsSuffix(alerts - taken, log) <==> !Tears(alerts, id, cutoff, limit, locked)
  {
    if a, b :| Overtakes(alerts, id, cutoff, limit, locked, a, b) {
      OvertakenBreaks(alerts, id, log, cutoff, limit, locked, taken, a, b);
    } else {
      forall j, k | 0 <= j < k < |log| && log[j].id in alerts - taken ensures log[k].id in alerts - taken {
        if log[k].id in taken {
          BrokenIsOvertaken(alerts, id, log, cutoff, limit, locked, taken, j, k);
        }
      }
    }
  }

  lemma OvertakenBreaks(alerts: map<nat, Alert>, id: nat, log: seq<Entry>, cutoff: int, limit: nat, locked: set<nat>,
                        taken: set<nat>, a: nat, b: nat)
    requires WellLogged(alerts, id, log) && Overtakes(alerts, id, cutoff, limit, locked, a, b)
    requires Batch(StampsIn(alerts), Expired(StampsIn(alerts), cutoff) - locked, limit, taken)
    ensures !KeepsSuffix(alerts - taken, log)
  {
    var j := IndexOf(alerts, id, log, b);
    var k := IndexOf(alerts, id, log, a);
    LogOrder(alerts, id, log, j, k);
    TakenIsRanked(StampsIn(alerts), Expired(StampsIn(alerts), cutoff) - locked, limit, taken, a);
  }

  lemma BrokenIsOvertaken(alerts: map<nat, Alert>, id: nat, log: seq<Entry>, cutoff: int, limit: nat, locked: set<nat>,
                          taken: set<nat>, j: nat, k: nat)
    requires WellLogged(alerts, id, log) && j < k < |log|
    requires Batch(StampsIn(alerts), Expired(StampsIn(alerts), cutoff) - locked, limit, taken)
    requires log[j].id in alerts && log[j].id !in taken && log[k].id in taken
    ensures Overtakes(alerts, id, cutoff, limit, locked, log[k].id, log[j].id)
  {
    var stamps, pool := StampsIn(alerts), Expired(StampsIn(alerts), cutoff) - locked;
    LogOrder(alerts, id, log, j, k);
    StampIsLogged(alerts, id, log, j);
    StampIsLogged(alerts, id, log, k);
    TakenIsRanked(stamps, pool, limit, taken, log[k].id);
    LeftIsLocked(stamps, Expired(stamps, cutoff), locked, limit, taken, log[k].id, log[j].id);
  }

  lemma LeftIsLocked(stamps: Stamps, expired: set<nat>, locked: set<nat>, limit: nat, taken: set<nat>, a: nat, b: nat)
    requires Batch(stamps, expired - locked, limit, taken) && b in stamps
    requires a in taken && b in expired && b !in taken && Before(stamps, b, a)
    ensures b in locked
  {
    assert b !in locked ==> b in (expired - locked) - taken;
  }

  // ----- Every run -----

  ghost predicate Drives(window: int, run: seq<Sys>, actions: seq<Action>) {
    && |run| == |actions| + 1 && Init(run[0])
    && forall i :: 0 <= i < |actions| ==> Next(window, run[i], run[i + 1], actions[i])
  }

  /** The action is a statement that overtakes a locked alert of a live monitor. */
  ghost predicate TearsAt(s: Sys, action: Action, id: nat) {
    action.RetainAlerts? && id in s.db.monitors
    && Tears(s.db.alerts, id, Cutoff(action.readAt, action.days), action.limit, action.locked)
  }

  ghost predicate SuffixKept(s: Sys, id: nat) { id in s.db.monitors ==> KeepsSuffix(s.db.alerts, Of(s.log, id)) }

  lemma DrivenIsRun(window: int, run: seq<Sys>, actions: seq<Action>)
    requires Drives(window, run, actions)
    ensures IsRun(window, run)
  {
    forall i | 0 <= i < |run| - 1 ensures FollowsAt(window, run, i) {
      assert Next(window, run[i], run[i + 1], actions[i]);
    }
  }

  lemma InvLogs(window: int, s: Sys, id: nat)
    requires Inv(window, s) && id in s.db.monitors
    ensures WellLogged(s.db.alerts, id, Of(s.log, id))
    ensures forall k :: 0 <= k < |Of(s.log, id)| ==> Of(s.log, id)[k].id < s.db.nextAlert
  {
  }

  lemma StepTears(window: int, s: Sys, s': Sys, action: Action, id: nat)
    requires Inv(window, s) && Next(window, s, s', action) && SuffixKept(s, id)
    ensures SuffixKept(s', id) <==> !TearsAt(s, action, id)
  {
    match action
    case Commit(j, probe, threshold, at) => CommitKeepsSuffix(window, s, j, probe, threshold, at, id);
    case Environment(db') => RelyKeepsSuffix(window, s, db', id);
    case RetainAlerts(taken, readAt, days, limit, locked) =>
      if id in s.db.monitors {
        InvLogs(window, s, id);
        StatementTears(s.db.alerts, id, Of(s.log, id), Cutoff(readAt, days), limit, locked, taken);
      }
    case _ =>
  }

  lemma LongerSuffix(alerts: map<nat, Alert>, log: seq<Entry>, n: nat, alert: Alert, entry: Entry)
    requires KeepsSuffix(alerts, log) && entry.id == n && forall k :: 0 <= k < |log| ==> log[k].id < n
    ensures KeepsSuffix(alerts[n := alert], log) && KeepsSuffix(alerts[n := alert], log + [entry])
  {
  }

  lemma CommitKeepsSuffix(window: int, s: Sys, j: nat, probe: State, threshold: int, at: int, id: nat)
    requires Inv(window, s) && s.worker.Running? && j < |s.worker.jobs| && s.worker.jobs[j].id in s.db.monitors
    requires SuffixKept(s, id)
    ensures SuffixKept(Committed(s, j, probe, threshold, at), id)
  {
    if id in s.db.monitors {
      InvLogs(window, s, id);
      LandedKeepsSuffix(s, s.worker.jobs[j], probe, threshold, at, id);
    }
  }

  lemma LandedKeepsSuffix(s: Sys, job: Job, probe: State, threshold: int, at: int, id: nat)
    requires job.id in s.db.monitors && id in s.db.monitors && KeepsSuffix(s.db.alerts, Of(s.log, id))
    requires forall k :: 0 <= k < |Of(s.log, id)| ==> Of(s.log, id)[k].id < s.db.nextAlert
    ensures var s' := Landed(s, job, probe, threshold, at);
      KeepsSuffix(s'.db.alerts, Of(s'.log, id))
  {
    var alert := EvaluateFsm(job.row.lastState, job.row.failures, probe, threshold).alert;
    if alert.Some? {
      LongerSuffix(s.db.alerts, Of(s.log, id), s.db.nextAlert,
        Alert(job.id, alert.value, AlertMessage(job.row.name, alert.value), at),
        Entry(s.db.nextAlert, alert.value, at));
    }
  }

  lemma RelyKeepsSuffix(window: int, s: Sys, db': Db, id: nat)
    requires Inv(window, s) && Rely(s.db, db') && SuffixKept(s, id)
    ensures SuffixKept(s.(db := db'), id)
  {
    if id in db'.monitors {
      if id in s.db.monitors {
        InvLogs(window, s, id);
        forall j, k | 0 <= j < k < |Of(s.log, id)| && Of(s.log, id)[j].id in db'.alerts
          ensures Of(s.log, id)[k].id in db'.alerts
        {
          StampIsLogged(s.db.alerts, id, Of(s.log, id), k);
        }
      } else {
        assert id !in s.log;
      }
    }
  }

  lemma DrivenStep(window: int, run: seq<Sys>, actions: seq<Action>, id: nat, i: nat)
    requires Drives(window, run, actions) && i < |actions| && SuffixKept(run[i], id)
    ensures SuffixKept(run[i + 1], id) <==> !TearsAt(run[i], actions[i], id)
  {
    DrivenIsRun(window, run, actions);
    RunKeeps(window, run, i);
    StepTears(window, run[i], run[i + 1], actions[i], id);
  }

  lemma {:induction false} SuffixUpTo(window: int, run: seq<Sys>, actions: seq<Action>, id: nat, i: nat)
    requires Drives(window, run, actions) && i < |run|
    requires forall k :: 0 <= k < i ==> !TearsAt(run[k], actions[k], id)
    ensures SuffixKept(run[i], id)
  {
    if i > 0 {
      SuffixUpTo(window, run, actions, id, i - 1);
      DrivenStep(window, run, actions, id, i - 1);
    }
  }

  /** Over a whole run: what is left of a monitor's alerts is always the end of its log if and only
      if no statement overtakes a locked alert of it. */
  lemma SuffixIffNoTear(window: int, run: seq<Sys>, actions: seq<Action>, id: nat)
    requires Drives(window, run, actions)
    ensures (forall i :: 0 <= i < |run| ==> SuffixKept(run[i], id))
      <==> (forall k :: 0 <= k < |actions| ==> !TearsAt(run[k], actions[k], id))
  {
    if forall i :: 0 <= i < |run| ==> SuffixKept(run[i], id) {
      forall k | 0 <= k < |actions| ensures !TearsAt(run[k], actions[k], id) {
        assert SuffixKept(run[k], id) && SuffixKept(run[k + 1], id);
        DrivenStep(window, run, actions, id, k);
      }
    }
    if forall k :: 0 <= k < |actions| ==> !TearsAt(run[k], actions[k], id) {
      forall i | 0 <= i < |run| ensures SuffixKept(run[i], id) {
        SuffixUpTo(window, run, actions, id, i);
      }
    }
  }

  lemma FirstKept(alerts: map<nat, Alert>, log: seq<Entry>) returns (cut: nat)
    requires KeepsSuffix(alerts, log)
    ensures cut <= |log| && forall k :: 0 <= k < |log| ==> (log[k].id in alerts <==> cut <= k)
  {
    cut := 0;
    while cut < |log| && log[cut].id !in alerts
      invariant cut <= |log| && forall k :: 0 <= k < cut ==> log[k].id !in alerts
    {
      cut := cut + 1;
    }
  }


  /** Until a statement overtakes a locked alert of it, what retention leaves of a live monitor's
      alerts is a suffix of its log, so it still alternates, and its last entry still agrees with
      the stored state. */
  lemma KeptAlertsAreSuffix(window: int, run: seq<Sys>, actions: seq<Action>, i: nat, id: nat) returns (cut: nat)
    requires Drives(window, run, actions) && i < |run| && id in run[i].db.monitors
    requires forall k :: 0 <= k < i ==> !TearsAt(run[k], actions[k], id)
    ensures var s, log := run[i], Of(run[i].log, id);
      && cut <= |log|
      && (forall k :: 0 <= k < |log| ==> (log[k].id in s.db.alerts <==> cut <= k))
      && (forall a :: a in s.db.alerts && s.db.alerts[a].monitorId == id ==>
            exists k :: cut <= k < |log| && log[k] == Entry(a, s.db.alerts[a].kind, s.db.alerts[a].createdAt))
      && (cut < |log| ==> (log[|log| - 1].kind == Down <==> s.db.monitors[id].lastState == Some(Unhealthy)))
  {
    DrivenIsRun(window, run, actions);
    RunKeeps(window, run, i);
    AlertsAlternate(window, run, i, id);
    SuffixUpTo(window, run, actions, id, i);
    var s, log := run[i], Of(run[i].log, id);
    InvLogs(window, s, id);
    cut := FirstKept(s.db.alerts, log);
    forall a | a in s.db.alerts && s.db.alerts[a].monitorId == id
      ensures exists k :: cut <= k < |log| && log[k] == Entry(a, s.db.alerts[a].kind, s.db.alerts[a].createdAt)
    {
      assert InLog(log, a, s.db.alerts[a]);
      var k :| 0 <= k < |log| && log[k] == Entry(a, s.db.alerts[a].kind, s.db.alerts[a].createdAt);
      assert cut <= k;
    }
  }

  // ----- A lone recovery -----

  function ThreeEntries(): seq<Entry> {
    [Entry(1, Down, 10 * SECOND), Entry(2, Recovery, 20 * SECOND), Entry(3, Down, 30 * SECOND)]
  }

  function ThreeAlerts(): map<nat, Alert> {
    map[1 := Alert(1, Down, "", 10 * SECOND), 2 := Alert(1, Recovery, "", 20 * SECOND),
        3 := Alert(1, Down, "", 30 * SECOND)]
  }

  function ThreeChecks(): seq<Check> {
    [Check(1, 10 * SECOND, 10, Unhealthy, 1), Check(2, 20 * SECOND, 10, Healthy, 1),
     Check(3, 30 * SECOND, 10, Unhealthy, 1)]
  }

  function ThreeResults(): map<nat, CheckResult> {
    map[1 := CheckResult(1, Unhealthy, 10 * SECOND), 2 := CheckResult(1, Healthy, 20 * SECOND),
        3 := CheckResult(1, Unhealthy, 30 * SECOND)]
  }

  function DownRow(): Monitor {
    Monitor(1, None, "m", "t", "http", 10, true, false, Some(Unhealthy), Some(30 * SECOND), 1)
  }

  /** A monitor that went down, recovered and is down again, a day later. */
  function DownAgain(): Sys {
    Sys(Db(map[], map[1 := DownRow()], ThreeResults(), ThreeAlerts(), 2, 2, 4, 4), DAY + 40 * SECOND, Idle,
        map[1 := ThreeChecks()], map[1 := ThreeEntries()], ThreeResults())
  }

  lemma EntriesAreSound()
    ensures Alternates(ThreeEntries())
  {
  }

  lemma AlertsAreOwn()
    ensures OwnLog(ThreeAlerts(), 1, ThreeEntries()) && KeepsSuffix(ThreeAlerts(), ThreeEntries())
  {
  }

  lemma ChecksAreSound()
    ensures Spaced(ThreeChecks())
    ensures RowMatches(DownRow(), ThreeChecks(), ThreeEntries(), DAY + 40 * SECOND)
  {
  }

  lemma AlertsAreLogged()
    ensures forall a :: a in ThreeAlerts() ==> InLog(ThreeEntries(), a, ThreeAlerts()[a])
  {
    forall a | a in ThreeAlerts() ensures InLog(ThreeEntries(), a, ThreeAlerts()[a]) {
      assert a == 1 || a == 2 || a == 3;
      assert ThreeEntries()[a - 1] == Entry(a, ThreeAlerts()[a].kind, ThreeAlerts()[a].createdAt);
    }
  }

  lemma HistoriesAreSound()
    ensures Histories(2, 4, map[1 := ThreeChecks()], map[1 := ThreeEntries()])
    ensures StoredAlerts(map[1 := DownRow()], ThreeAlerts(), map[1 := ThreeEntries()])
    ensures LiveRows(map[1 := DownRow()], map[1 := ThreeChecks()], map[1 := ThreeEntries()], DAY + 40 * SECOND)
  {
    EntriesAreSound();
    AlertsAreOwn();
    ChecksAreSound();
    AlertsAreLogged();
  }

  lemma ResultsAreRecorded()
    ensures Recorded(ThreeResults(), map[1 := ThreeChecks()], 4)
  {
    forall r | r in ThreeResults() ensures InChecks(ThreeChecks(), r, ThreeResults()[r].createdAt) {
      assert r == 1 || r == 2 || r == 3;
      assert ThreeChecks()[r - 1].id == r;
    }
  }

  lemma ResultsAreStored(horizon: int)
    ensures StoredResults(ThreeResults(), ThreeResults(), 4, map[1 := DownRow()], 2, horizon)
  {
  }

  lemma DownAgainIsLinked()
    ensures Linked(DownAgain().db)
  {
  }

  lemma DownAgainIsSound(window: int)
    ensures Inv(window, DownAgain())
  {
    HistoriesAreSound();
    ResultsAreRecorded();
    ResultsAreStored(DAY + 40 * SECOND - window);
    DownAgainIsLinked();
  }

  function Statement(): Action { RetainAlerts({1, 3}, DAY + 40 * SECOND, 1, 2, {2}) }

  /** With the recovery locked, a statement of two rows takes the alerts around it. */
  lemma LockedRecoveryStays(window: int)
    ensures Inv(window, DownAgain()) && SuffixKept(DownAgain(), 1)
    ensures Next(window, DownAgain(), LoneRecovery(), Statement()) && TearsAt(DownAgain(), Statement(), 1)
  {
    DownAgainIsSound(window);
    AlertsAreOwn();
    StatementIsNext(window);
    StatementTearsLog();
  }

  lemma StatementIsNext(window: int)
    ensures Next(window, DownAgain(), LoneRecovery(), Statement())
  {
    RecoveryIsOvertaken(40 * SECOND);
    assert StampsOf(DownAgain().db, Alerts) == StampsIn(ThreeAlerts());
  }

  lemma StatementTearsLog()
    ensures TearsAt(DownAgain(), Statement(), 1)
  {
    RecoveryIsOvertaken(40 * SECOND);
  }

  function LoneRecovery(): Sys { DownAgain().(db := Purge(DownAgain().db, Alerts, {1, 3})) }

  /** What stays of a monitor that is down is its recovery. */
  lemma RecoveryIsAlone()
    ensures var db := LoneRecovery().db;
      1 in db.monitors && db.monitors[1].lastState == Some(Unhealthy)
      && db.alerts.Keys == {2} && db.alerts[2].monitorId == 1 && db.alerts[2].kind == Recovery
  {
    assert LoneRecovery().db.alerts == ThreeAlerts() - {1, 3};
  }

  lemma RecoveryIsOvertaken(cutoff: int)
    requires 30 * SECOND < cutoff
    ensures Batch(StampsIn(ThreeAlerts()), Expired(StampsIn(ThreeAlerts()), cutoff) - {2}, 2, {1, 3})
    ensures Tears(ThreeAlerts(), 1, cutoff, 2, {2})
  {
    var stamps := StampsIn(ThreeAlerts());
    assert Expired(stamps, cutoff) - {2} == {1, 3};
    TakenIsRanked(stamps, {1, 3}, 2, {1, 3}, 3);
    assert Overtakes(ThreeAlerts(), 1, cutoff, 2, {2}, 3, 2);
  }
}
