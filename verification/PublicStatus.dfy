/** The public status query: an aggregate over a window of check results
    (sentinel-api/src/status/public-status.service.ts, queryPublicStatus). */
module PublicStatus {
  import opened Schema
  import opened Retention
  import opened Arithmetic

  /** The rows of one monitor with lo <= created_at <= hi. */
  function Window(results: map<nat, CheckResult>, monitor: nat, lo: int, hi: int): map<nat, CheckResult> {
    map r | r in results && results[r].monitorId == monitor && lo <= results[r].createdAt <= hi :: results[r]
  }

  datatype Summary = Summary(total: nat, healthy: nat, first: Option<int>, last: Option<int>)

  function HealthyIds(rows: map<nat, CheckResult>): set<nat> {
    set r | r in rows && rows[r].state == Healthy
  }

  /** COUNT, COUNT FILTER, MIN and MAX. */
  ghost function Summarize(rows: map<nat, CheckResult>): (s: Summary)
    ensures s.total == |rows| && s.healthy == |HealthyIds(rows)| <= s.total
    ensures s.first.None? <==> |rows| == 0
    ensures s.last.None? <==> |rows| == 0
    ensures forall r :: r in rows ==> s.first.value <= rows[r].createdAt <= s.last.value
    ensures s.first.Some? ==> exists r :: r in rows && rows[r].createdAt == s.first.value
    ensures s.last.Some? ==> exists r :: r in rows && rows[r].createdAt == s.last.value
  {
    var healthy := HealthyIds(rows);
    HealthyIsPart(rows, healthy);
    if |rows| == 0 then Summary(0, |healthy|, None, None)
    else
      ExtremesExist(rows);
      var a :| a in rows && forall r :: r in rows ==> rows[a].createdAt <= rows[r].createdAt;
      var b :| b in rows && forall r :: r in rows ==> rows[r].createdAt <= rows[b].createdAt;
      Summary(|rows|, |healthy|, Some(rows[a].createdAt), Some(rows[b].createdAt))
  }

  /** One more check counts once, as healthy if it is, and moves the first and last check. */
  lemma OneMoreRow(rows: map<nat, CheckResult>, r: nat, row: CheckResult)
    requires r !in rows
    ensures var s, s' := Summarize(rows), Summarize(rows[r := row]);
      && s'.total == s.total + 1
      && s'.healthy == s.healthy + (if row.state == Healthy then 1 else 0)
      && s'.first == Some(if s.first.Some? && s.first.value < row.createdAt then s.first.value else row.createdAt)
      && s'.last == Some(if s.last.Some? && s.last.value > row.createdAt then s.last.value else row.createdAt)
  {
    CountsMove(rows, r, row);
    ExtremesMove(rows, r, row);
  }

  lemma CountsMove(rows: map<nat, CheckResult>, r: nat, row: CheckResult)
    requires r !in rows
    ensures var s, s' := Summarize(rows), Summarize(rows[r := row]);
      s'.total == s.total + 1 && s'.healthy == s.healthy + (if row.state == Healthy then 1 else 0)
  {
    assert rows[r := row].Keys == rows.Keys + {r};
    HealthyMoves(rows, r, row);
  }

  lemma HealthyMoves(rows: map<nat, CheckResult>, r: nat, row: CheckResult)
    requires r !in rows
    ensures |HealthyIds(rows[r := row])| == |HealthyIds(rows)| + (if row.state == Healthy then 1 else 0)
  {
    assert HealthyIds(rows[r := row]) ==
      if row.state == Healthy then HealthyIds(rows) + {r} else HealthyIds(rows);
  }

  lemma ExtremesMove(rows: map<nat, CheckResult>, r: nat, row: CheckResult)
    requires r !in rows
    ensures var s, s' := Summarize(rows), Summarize(rows[r := row]);
      && s'.first == Some(if s.first.Some? && s.first.value < row.createdAt then s.first.value else row.createdAt)
      && s'.last == Some(if s.last.Some? && s.last.value > row.createdAt then s.last.value else row.createdAt)
  {
    var s, s' := Summarize(rows), Summarize(rows[r := row]);
    assert rows[r := row][r] == row;
    assert |rows[r := row]| > 0 by { assert r in rows[r := row]; }
    if |rows| > 0 {
      var a :| a in rows && rows[a].createdAt == s.first.value;
      var b :| b in rows && rows[b].createdAt == s.last.value;
      assert rows[r := row][a] == rows[a] && rows[r := row][b] == rows[b];
    } else {
      assert rows == map[];
    }
  }

  lemma HealthyIsPart(rows: map<nat, CheckResult>, healthy: set<nat>)
    requires healthy <= rows.Keys
    ensures |healthy| <= |rows|
  {
    assert rows.Keys == healthy + (rows.Keys - healthy);
  }

  lemma ExtremesExist(rows: map<nat, CheckResult>)
    requires |rows| > 0
    ensures exists a :: a in rows && forall r :: r in rows ==> rows[a].createdAt <= rows[r].createdAt
    ensures exists b :: b in rows && forall r :: r in rows ==> rows[r].createdAt <= rows[b].createdAt
  {
    var up: Stamps := map r | r in rows :: rows[r].createdAt;
    var down: Stamps := map r | r in rows :: -rows[r].createdAt;
    assert up.Keys == rows.Keys && down.Keys == rows.Keys;
    var a := FirstExists(up, rows.Keys);
    var b := FirstExists(down, rows.Keys);
    forall r | r in rows ensures rows[a].createdAt <= rows[r].createdAt <= rows[b].createdAt {
      assert r == a || Before(up, a, r);
      assert r == b || Before(down, b, r);
    }
  }

  /** The share of healthy checks in percent; unknown without checks. */
  function Uptime(s: Summary): Option<real> {
    if s.total == 0 then None else Some(s.healthy as real * 100.0 / s.total as real)
  }

  lemma UptimeIsPercentage(s: Summary)
    requires s.healthy <= s.total
    ensures Uptime(s).None? <==> s.total == 0
    ensures Uptime(s).Some? ==> Uptime(s).value * s.total as real == 100.0 * s.healthy as real
    ensures Uptime(s).Some? ==> 0.0 <= Uptime(s).value <= 100.0
    ensures Uptime(s) == Some(100.0) <==> s.total > 0 && s.healthy == s.total
  {
    if s.total > 0 {
      var h, t := s.healthy as real, s.total as real;
      Ratio(h, t);
      assert h * 100.0 / t * t == h * 100.0;
    }
  }

  lemma Ratio(h: real, t: real)
    requires 0.0 <= h <= t && 0.0 < t
    ensures 0.0 <= h * 100.0 / t <= 100.0
    ensures h * 100.0 / t == 100.0 <==> h == t
  {
    var q, p := h * 100.0 / t, h * 100.0;
    assert q * t == p;
    Scaled(0.0, q, t, 0.0, p);
    Scaled(q, 100.0, t, p, 100.0 * t);
  }

  datatype Line = Line(name: string, lastState: Option<State>, lastCheckedAt: Option<int>, summary: Summary)

  predicate Listed(db: Db, id: nat) {
    && id in db.monitors && db.monitors[id].active && db.monitors[id].isPublic
    && db.monitors[id].owner in db.users && !db.users[db.monitors[id].owner].isDemo
  }

  /** The answer at `now`, by monitor id, with the checks taken from the given table. */
  ghost function StatusAt(db: Db, results: map<nat, CheckResult>, window: int, now: int): map<nat, Line> {
    map id | id in db.monitors && Listed(db, id) ::
      Line(db.monitors[id].name, db.monitors[id].lastState, db.monitors[id].lastCheckedAt,
           Summarize(Window(results, id, now - window, now)))
  }

  /** The checks of a monitor in the closed window that ends at `now`. */
  ghost function Counted(results: map<nat, CheckResult>, id: nat, window: int, now: int): set<nat> {
    set r | r in results && results[r].monitorId == id && now - window <= results[r].createdAt <= now
  }

  ghost predicate IsFirst(results: map<nat, CheckResult>, among: set<nat>, at: int) {
    && (exists r :: r in among && r in results && results[r].createdAt == at)
    && (forall r :: r in among && r in results ==> at <= results[r].createdAt)
  }

  ghost predicate IsLast(results: map<nat, CheckResult>, among: set<nat>, at: int) {
    && (exists r :: r in among && r in results && results[r].createdAt == at)
    && (forall r :: r in among && r in results ==> results[r].createdAt <= at)
  }

  /** The public status lists exactly the active public monitors of users that are no demo users, each
      with its state and with the number, the healthy number, the first and the last of its checks in
      the window, failed ones included. */
  lemma StatusIs(db: Db, results: map<nat, CheckResult>, window: int, now: int, id: nat)
    ensures var status := StatusAt(db, results, window, now);
      && (id in status <==>
            && id in db.monitors && db.monitors[id].active && db.monitors[id].isPublic
            && db.monitors[id].owner in db.users && !db.users[db.monitors[id].owner].isDemo)
      && (id in status ==>
            var line, row, counted := status[id], db.monitors[id], Counted(results, id, window, now);
            && (line.name, line.lastState, line.lastCheckedAt) == (row.name, row.lastState, row.lastCheckedAt)
            && line.summary.total == |counted|
            && line.summary.healthy == |set r | r in counted && r in results && results[r].state == Healthy|
            && (line.summary.first.None? <==> counted == {}) && (line.summary.last.None? <==> counted == {})
            && (counted != {} ==>
                  IsFirst(results, counted, line.summary.first.value)
                  && IsLast(results, counted, line.summary.last.value)))
  {
    var rows, counted := Window(results, id, now - window, now), Counted(results, id, window, now);
    assert rows.Keys == counted;
    assert HealthyIds(rows) == set r | r in counted && r in results && results[r].state == Healthy;
    SummaryIs(results, rows, counted);
  }

  lemma SummaryIs(results: map<nat, CheckResult>, rows: map<nat, CheckResult>, counted: set<nat>)
    requires rows.Keys == counted && forall r :: r in rows ==> r in results && rows[r] == results[r]
    ensures var s := Summarize(rows);
      && s.total == |counted|
      && (s.first.None? <==> counted == {}) && (s.last.None? <==> counted == {})
      && (counted != {} ==> IsFirst(results, counted, s.first.value) && IsLast(results, counted, s.last.value))
  {
    if counted != {} {
      assert |rows| > 0 by {
        var r :| r in counted;
        assert r in rows;
      }
      var s := Summarize(rows);
      var a :| a in rows && rows[a].createdAt == s.first.value;
      var b :| b in rows && rows[b].createdAt == s.last.value;
    }
  }
}
