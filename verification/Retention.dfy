/** Batched, oldest-first cleanup of history tables (sentinel-worker/internal/worker/retention.go). */
module Retention {
  import opened Schema

  datatype Table = CheckResults | Alerts

  /** A table seen as its `created_at` column by id. */
  type Stamps = map<nat, int>

  function StampsOf(db: Db, table: Table): Stamps {
    match table
    case CheckResults => map r | r in db.results :: db.results[r].createdAt
    case Alerts => map a | a in db.alerts :: db.alerts[a].createdAt
  }

  function Purge(db: Db, table: Table, ids: set<nat>): Db {
    match table
    case CheckResults => db.(results := db.results - ids)
    case Alerts => db.(alerts := db.alerts - ids)
  }

  lemma PurgeStamps(db: Db, table: Table, ids: set<nat>)
    ensures StampsOf(Purge(db, table, ids), table) == StampsOf(db, table) - ids
  {
  }

  // ----- Oldest first -----

  /** ORDER BY created_at, id */
  predicate Before(stamps: Stamps, a: nat, b: nat)
    requires a in stamps && b in stamps
  {
    stamps[a] < stamps[b] || (stamps[a] == stamps[b] && a < b)
  }

  function Expired(stamps: Stamps, cutoff: int): set<nat> {
    set id | id in stamps && stamps[id] < cutoff
  }

  /** Every row taken comes before every row of the pool left behind. */
  predicate TakesOldest(stamps: Stamps, pool: set<nat>, taken: set<nat>) {
    && taken <= pool <= stamps.Keys
    && forall a, b :: a in taken && b in pool - taken ==> Before(stamps, a, b)
  }

  /** ORDER BY created_at, id LIMIT n */
  predicate Batch(stamps: Stamps, pool: set<nat>, limit: nat, taken: set<nat>) {
    TakesOldest(stamps, pool, taken) && |taken| == if limit < |pool| then limit else |pool|
  }

  lemma {:induction false} BatchExists(stamps: Stamps, pool: set<nat>, limit: nat) returns (taken: set<nat>)
    requires pool <= stamps.Keys
    ensures Batch(stamps, pool, limit, taken)
    decreases limit
  {
    if limit == 0 {
      taken := {};
    } else {
      var fewer := BatchExists(stamps, pool, limit - 1);
      if fewer == pool { return fewer; }
      var rest := pool - fewer;
      assert |rest| == |pool| - |fewer| > 0 by { assert pool == fewer + rest; }
      var m := FirstExists(stamps, rest);
      taken := fewer + {m};
      forall a, b | a in taken && b in pool - taken ensures Before(stamps, a, b) {
        assert b in rest;
      }
      assert taken + (pool - taken) == pool;
    }
  }

  lemma {:induction false} FirstExists(stamps: Stamps, pool: set<nat>) returns (m: nat)
    requires pool <= stamps.Keys && |pool| > 0
    ensures m in pool && forall b :: b in pool && b != m ==> Before(stamps, m, b)
    decreases |pool|
  {
    var x :| x in pool;
    var rest := pool - {x};
    assert pool == rest + {x};
    if |rest| == 0 {
      m := x;
    } else {
      m := FirstExists(stamps, rest);
      if Before(stamps, x, m) { m := x; }
      forall b | b in pool && b != m ensures Before(stamps, m, b) {
        if b != x { assert b in rest; }
      }
    }
  }

  lemma SameSizeDifference(a: set<nat>, b: set<nat>)
    requires |a| == |b| && a != b
    ensures |a - b| > 0 && |b - a| > 0
  {
    assert a == (a * b) + (a - b) && b == (a * b) + (b - a);
    assert |a - b| == 0 ==> a == a * b && b == a * b;
  }

  /** The batch is determined: two of the same size are the same rows. */
  lemma BatchUnique(stamps: Stamps, pool: set<nat>, s: set<nat>, t: set<nat>)
    requires TakesOldest(stamps, pool, s) && TakesOldest(stamps, pool, t) && |s| == |t|
    ensures s == t
  {
    forall a, b | a in s && a in pool - t && b in t && b in pool - s ensures false {
    }
    if s != t {
      SameSizeDifference(s, t);
      var a :| a in s - t;
      var b :| b in t - s;
    }
  }

  /** Taking the oldest expired rows of what is left keeps the whole an oldest-first prefix. */
  lemma TakeMore(stamps: Stamps, taken: set<nat>, cutoff: int, more: set<nat>)
    requires TakesOldest(stamps, stamps.Keys, taken)
    requires TakesOldest(stamps, Expired(stamps - taken, cutoff), more)
    ensures TakesOldest(stamps, stamps.Keys, taken + more)
  {
    forall a, b | a in taken + more && b in stamps.Keys - (taken + more) ensures Before(stamps, a, b) {
      if a in more {
        assert b in stamps - taken;
        if stamps[b] < cutoff { assert b in Expired(stamps - taken, cutoff) - more; }
      }
    }
  }

  // ----- The batch loop -----

  const DAY := 86_400_000_000

  function Cutoff(now: int, days: int): int { now - days * DAY }

  /** What some calls of the cleanup did to a table: `taken` went, after `calls` statements. */
  ghost predicate Cleaned(stamps: Stamps, taken: set<nat>, calls: nat, days: int, now: nat -> int,
                          locked: nat -> set<nat>) {
    && taken <= stamps.Keys
    && (forall id :: id in taken ==> ExpiredAtSome(stamps, id, calls, days, now))
    && ((forall k: nat :: k < calls ==> locked(k) == {}) ==> TakesOldest(stamps, stamps.Keys, taken))
  }

  ghost predicate ExpiredAtSome(stamps: Stamps, id: nat, calls: nat, days: int, now: nat -> int)
    requires id in stamps
  {
    exists k: nat :: k < calls && stamps[id] < Cutoff(now(k), days)
  }

  lemma CleanedMore(stamps: Stamps, taken: set<nat>, calls: nat, days: int, limit: nat, now: nat -> int,
                    locked: nat -> set<nat>, more: set<nat>)
    requires Cleaned(stamps, taken, calls, days, now, locked)
    requires Batch(stamps - taken, Expired(stamps - taken, Cutoff(now(calls), days)) - locked(calls), limit, more)
    ensures Cleaned(stamps, taken + more, calls + 1, days, now, locked)
  {
    BatchOfExpired(stamps, taken, Cutoff(now(calls), days), locked(calls), limit, more);
    ExpiredMore(stamps, taken, calls, days, now, more);
  }

  lemma BatchOfExpired(stamps: Stamps, taken: set<nat>, cutoff: int, locked: set<nat>, limit: nat, more: set<nat>)
    requires taken <= stamps.Keys
    requires Batch(stamps - taken, Expired(stamps - taken, cutoff) - locked, limit, more)
    ensures more <= Expired(stamps, cutoff)
    ensures locked == {} && TakesOldest(stamps, stamps.Keys, taken) ==>
      TakesOldest(stamps, stamps.Keys, taken + more)
  {
    if locked == {} && TakesOldest(stamps, stamps.Keys, taken) {
      assert Expired(stamps - taken, cutoff) - locked == Expired(stamps - taken, cutoff);
      TakeMore(stamps, taken, cutoff, more);
    }
  }

  lemma ExpiredMore(stamps: Stamps, taken: set<nat>, calls: nat, days: int, now: nat -> int, more: set<nat>)
    requires taken <= stamps.Keys && more <= Expired(stamps, Cutoff(now(calls), days))
    requires forall id :: id in taken ==> ExpiredAtSome(stamps, id, calls, days, now)
    ensures forall id :: id in taken + more ==> ExpiredAtSome(stamps, id, calls + 1, days, now)
  {
    forall id | id in taken + more ensures ExpiredAtSome(stamps, id, calls + 1, days, now) {
      if id in taken { assert ExpiredAtSome(stamps, id, calls, days, now); }
    }
  }

  lemma ShortBatch(stamps: Stamps, taken: set<nat>, cutoff: int, limit: nat, locked: set<nat>, more: set<nat>)
    requires Batch(stamps - taken, Expired(stamps - taken, cutoff) - locked, limit, more)
    ensures more <= stamps.Keys - taken && |taken + more| == |taken| + |more| && |more| <= limit
    ensures |more| < limit ==> Expired(stamps - (taken + more), cutoff) <= locked
  {
    var pool := Expired(stamps - taken, cutoff) - locked;
    assert pool == more + (pool - more);
    assert taken !! more;
    if |more| < limit {
      assert |pool - more| == 0;
      forall id | id in Expired(stamps - (taken + more), cutoff) ensures id in locked {
        assert id !in pool - more;
      }
    }
  }

  /** The SQL statement of one batch: the oldest expired rows that are not locked. */
  method DeleteBatch(store: Database, table: Table, cutoff: int, limit: nat, locked: set<nat>)
    returns (affected: nat, ghost batch: set<nat>)
    modifies store
    ensures store.committed == Purge(old(store.committed), table, batch) && affected == |batch|
    ensures var stamps := StampsOf(old(store.committed), table);
      Batch(stamps, Expired(stamps, cutoff) - locked, limit, batch)
  {
    var stamps := StampsOf(store.committed, table);
    var pool := Expired(stamps, cutoff) - locked;
    ghost var _ := BatchExists(stamps, pool, limit);
    var taken: set<nat> :| taken <= pool && Batch(stamps, pool, limit, taken);
    store.committed := Purge(store.committed, table, taken);
    affected, batch := |taken|, taken;
  }

  /** The rows of `n` full batches. */
  function FullBatches(n: nat, batchSize: nat): nat {
    if n == 0 then 0 else FullBatches(n - 1, batchSize) + batchSize
  }

  lemma {:induction false} BatchesAreProduct(n: nat, batchSize: nat)
    ensures FullBatches(n, batchSize) == n * batchSize
  {
    if n > 0 {
      BatchesAreProduct(n - 1, batchSize);
      assert (n - 1) * batchSize == n * batchSize - batchSize;
    }
  }

  lemma {:induction false} BatchesGrow(m: nat, n: nat, batchSize: nat)
    requires m <= n
    ensures FullBatches(m, batchSize) <= FullBatches(n, batchSize)
  {
    if m < n { BatchesGrow(m, n - 1, batchSize); }
  }

  /** How a call of the cleanup may end: at an error or a cancellation, with the cap used up,
      or after a short batch, which leaves no unlocked expired row. */
  ghost predicate Ended(stamps: Stamps, taken: set<nat>, calls: nat, days: int, batchSize: nat, cap: nat,
                        now: nat -> int, locked: nat -> set<nat>, ok: bool) {
    && calls <= cap && |taken| <= FullBatches(calls, batchSize)
    && Cleaned(stamps, taken, calls, days, now, locked)
    && (ok ==> || (calls == cap && |taken| == FullBatches(cap, batchSize))
               || (0 < calls && Expired(stamps - taken, Cutoff(now(calls - 1), days)) <= locked(calls - 1)))
  }

  /** Before statement `calls`, when every statement so far took a full batch. */
  ghost predicate Progress(stamps: Stamps, taken: set<nat>, calls: nat, days: int, batchSize: nat, cap: nat,
                           now: nat -> int, locked: nat -> set<nat>) {
    calls <= cap && |taken| == FullBatches(calls, batchSize) && Cleaned(stamps, taken, calls, days, now, locked)
  }

  lemma BatchStep(db: Db, table: Table, taken: set<nat>, calls: nat, days: int, batchSize: nat, cap: nat,
                  now: nat -> int, locked: nat -> set<nat>, batch: set<nat>)
    requires Progress(StampsOf(db, table), taken, calls, days, batchSize, cap, now, locked) && calls < cap
    requires var current := StampsOf(Purge(db, table, taken), table);
      Batch(current, Expired(current, Cutoff(now(calls), days)) - locked(calls), batchSize, batch)
    ensures Purge(Purge(db, table, taken), table, batch) == Purge(db, table, taken + batch)
    ensures |batch| >= batchSize ==>
      Progress(StampsOf(db, table), taken + batch, calls + 1, days, batchSize, cap, now, locked)
  {
    var stamps := StampsOf(db, table);
    PurgeStamps(db, table, taken);
    PurgeTwice(db, table, taken, batch);
    CleanedMore(stamps, taken, calls, days, batchSize, now, locked, batch);
    ShortBatch(stamps, taken, Cutoff(now(calls), days), batchSize, locked(calls), batch);
    assert FullBatches(calls + 1, batchSize) == FullBatches(calls, batchSize) + batchSize;
  }

  /** A statement runs; or the context is cancelled before it, in the pause included; or it reports
      an error, without having taken effect or after it. */
  datatype Fate = Runs | Cancelled | Lost | AppliedButLost

  /** The cleanup fails exactly at the first statement that does, after as many full batches. */
  ghost predicate FailsAsFated(fate: nat -> Fate, calls: nat, cap: nat, batchSize: nat, removed: nat, ok: bool) {
    if ok then forall k: nat :: k < calls ==> fate(k) == Runs
    else exists k: nat :: k < cap && FailsAt(fate, k, batchSize, removed)
  }

  ghost predicate FailsAt(fate: nat -> Fate, k: nat, batchSize: nat, removed: nat) {
    && fate(k) != Runs && (forall i: nat :: i < k ==> fate(i) == Runs)
    && FullBatches(k, batchSize) <= removed <= FullBatches(k + 1, batchSize)
  }

  /** The cleanup of one table within a pass: ended after at most `cap` statements. */
  ghost predicate PassOver(stamps: Stamps, taken: set<nat>, days: int, batchSize: nat, cap: nat, now: nat -> int,
                           locked: nat -> set<nat>, fate: nat -> Fate, ok: bool) {
    exists calls: nat :: Ended(stamps, taken, calls, days, batchSize, cap, now, locked, ok)
                         && FailsAsFated(fate, calls, cap, batchSize, |taken|, ok)
  }

  /** `db'` is `db` after one statement. */
  ghost predicate IsStatement(db: Db, db': Db, table: Table, cutoff: int, limit: nat, locked: set<nat>) {
    var stamps := StampsOf(db, table);
    exists batch :: Batch(stamps, Expired(stamps, cutoff) - locked, limit, batch) && db' == Purge(db, table, batch)
  }

  /** The committed states of a cleanup, one statement apart. */
  ghost predicate IsTrail(trail: seq<Db>, table: Table, days: int, batchSize: nat, now: nat -> int,
                          locked: nat -> set<nat>) {
    && trail != []
    && forall k :: 0 <= k < |trail| - 1 ==>
        IsStatement(trail[k], trail[k + 1], table, Cutoff(now(k), days), batchSize, locked(k))
  }

  lemma LongerTrail(trail: seq<Db>, db': Db, table: Table, days: int, batchSize: nat, now: nat -> int,
                    locked: nat -> set<nat>, batch: set<nat>)
    requires IsTrail(trail, table, days, batchSize, now, locked)
    requires var k, db := |trail| - 1, trail[|trail| - 1];
      var stamps := StampsOf(db, table);
      && Batch(stamps, Expired(stamps, Cutoff(now(k), days)) - locked(k), batchSize, batch)
      && db' == Purge(db, table, batch)
    ensures IsTrail(trail + [db'], table, days, batchSize, now, locked)
  {
    var longer := trail + [db'];
    forall k | 0 <= k < |longer| - 1
      ensures IsStatement(longer[k], longer[k + 1], table, Cutoff(now(k), days), batchSize, locked(k))
    {
      if k < |trail| - 1 {
        assert IsStatement(trail[k], trail[k + 1], table, Cutoff(now(k), days), batchSize, locked(k));
      }
    }
  }

  /** Before statement `calls` of the cleanup, all before it having taken full batches. */
  ghost predicate Going(db: Db, current: Db, table: Table, taken: set<nat>, trail: seq<Db>, calls: nat, days: int,
                        batchSize: nat, cap: nat, now: nat -> int, locked: nat -> set<nat>, fate: nat -> Fate) {
    && current == Purge(db, table, taken)
    && Progress(StampsOf(db, table), taken, calls, days, batchSize, cap, now, locked)
    && (forall k: nat :: k < calls ==> fate(k) == Runs)
    && IsTrail(trail, table, days, batchSize, now, locked) && |trail| == calls + 1
    && trail[0] == db && trail[calls] == current
  }

  /** What a cleanup did: which rows went, and through which states, one statement apart. */
  ghost predicate CleanedUp(db: Db, current: Db, table: Table, taken: set<nat>, trail: seq<Db>, days: int,
                            batchSize: nat, cap: nat, now: nat -> int, locked: nat -> set<nat>, fate: nat -> Fate,
                            ok: bool) {
    && current == Purge(db, table, taken)
    && PassOver(StampsOf(db, table), taken, days, batchSize, cap, now, locked, fate, ok)
    && IsTrail(trail, table, days, batchSize, now, locked) && trail[0] == db && trail[|trail| - 1] == current
  }

  lemma Start(db: Db, table: Table, days: int, batchSize: nat, cap: nat, now: nat -> int,
              locked: nat -> set<nat>, fate: nat -> Fate)
    ensures Going(db, db, table, {}, [db], 0, days, batchSize, cap, now, locked, fate)
  {
    PurgeNothing(db, table);
  }

  lemma EndsOver(stamps: Stamps, taken: set<nat>, calls: nat, days: int, batchSize: nat, cap: nat, now: nat -> int,
                 locked: nat -> set<nat>, fate: nat -> Fate, ok: bool)
    requires Ended(stamps, taken, calls, days, batchSize, cap, now, locked, ok)
    requires FailsAsFated(fate, calls, cap, batchSize, |taken|, ok)
    ensures PassOver(stamps, taken, days, batchSize, cap, now, locked, fate, ok)
  {
  }

  /** With all statements used up, the cleanup is over. */
  lemma UsedUp(db: Db, current: Db, table: Table, taken: set<nat>, trail: seq<Db>, calls: nat, days: int,
               batchSize: nat, cap: nat, now: nat -> int, locked: nat -> set<nat>, fate: nat -> Fate)
    requires Going(db, current, table, taken, trail, calls, days, batchSize, cap, now, locked, fate) && calls == cap
    ensures CleanedUp(db, current, table, taken, trail, days, batchSize, cap, now, locked, fate, true)
  {
    EndsOver(StampsOf(db, table), taken, calls, days, batchSize, cap, now, locked, fate, true);
  }

  /** A statement that does not run fails the cleanup. */
  lemma Lose(db: Db, current: Db, table: Table, taken: set<nat>, trail: seq<Db>, calls: nat, days: int,
             batchSize: nat, cap: nat, now: nat -> int, locked: nat -> set<nat>, fate: nat -> Fate)
    requires Going(db, current, table, taken, trail, calls, days, batchSize, cap, now, locked, fate)
    requires calls < cap && fate(calls) != Runs
    ensures CleanedUp(db, current, table, taken, trail, days, batchSize, cap, now, locked, fate, false)
  {
    assert FailsAt(fate, calls, batchSize, |taken|);
    EndsOver(StampsOf(db, table), taken, calls, days, batchSize, cap, now, locked, fate, false);
  }

  /** The statement took effect as `batch`. */
  ghost predicate Took(db: Db, current: Db, table: Table, taken: set<nat>, trail: seq<Db>, calls: nat, days: int,
                       batchSize: nat, cap: nat, now: nat -> int, locked: nat -> set<nat>, fate: nat -> Fate,
                       batch: set<nat>) {
    && Going(db, current, table, taken, trail, calls, days, batchSize, cap, now, locked, fate) && calls < cap
    && var stamps := StampsOf(current, table);
    Batch(stamps, Expired(stamps, Cutoff(now(calls), days)) - locked(calls), batchSize, batch)
  }

  /** After a full batch the cleanup goes on. */
  lemma TakeMoreLater(db: Db, current: Db, table: Table, taken: set<nat>, trail: seq<Db>, calls: nat, days: int,
                      batchSize: nat, cap: nat, now: nat -> int, locked: nat -> set<nat>, fate: nat -> Fate,
                      batch: set<nat>)
    requires Took(db, current, table, taken, trail, calls, days, batchSize, cap, now, locked, fate, batch)
    requires fate(calls) == Runs && |batch| >= batchSize
    ensures Going(db, Purge(current, table, batch), table, taken + batch, trail + [Purge(current, table, batch)],
                  calls + 1, days, batchSize, cap, now, locked, fate)
  {
    LongerTrail(trail, Purge(current, table, batch), table, days, batchSize, now, locked, batch);
    BatchStep(db, table, taken, calls, days, batchSize, cap, now, locked, batch);
  }

  /** After a short one, or when its reply was lost, the cleanup is over. */
  lemma TakeLast(db: Db, current: Db, table: Table, taken: set<nat>, trail: seq<Db>, calls: nat, days: int,
                 batchSize: nat, cap: nat, now: nat -> int, locked: nat -> set<nat>, fate: nat -> Fate, batch: set<nat>)
    requires Took(db, current, table, taken, trail, calls, days, batchSize, cap, now, locked, fate, batch)
    requires fate(calls) != Runs || |batch| < batchSize
    ensures CleanedUp(db, Purge(current, table, batch), table, taken + batch, trail + [Purge(current, table, batch)],
                      days, batchSize, cap, now, locked, fate, fate(calls) == Runs)
  {
    LongerTrail(trail, Purge(current, table, batch), table, days, batchSize, now, locked, batch);
    PurgeTwice(db, table, taken, batch);
    PurgeStamps(db, table, taken);
    LastIsOver(StampsOf(db, table), taken, calls, days, batchSize, cap, now, locked, fate, batch);
  }

  lemma LastEnds(stamps: Stamps, taken: set<nat>, calls: nat, days: int, batchSize: nat, cap: nat,
                 now: nat -> int, locked: nat -> set<nat>, batch: set<nat>, ok: bool)
    requires Progress(stamps, taken, calls, days, batchSize, cap, now, locked) && calls < cap
    requires Batch(stamps - taken, Expired(stamps - taken, Cutoff(now(calls), days)) - locked(calls), batchSize, batch)
    requires ok ==> |batch| < batchSize
    ensures Ended(stamps, taken + batch, calls + 1, days, batchSize, cap, now, locked, ok)
    ensures FullBatches(calls, batchSize) <= |taken + batch| <= FullBatches(calls + 1, batchSize)
  {
    CleanedMore(stamps, taken, calls, days, batchSize, now, locked, batch);
    ShortBatch(stamps, taken, Cutoff(now(calls), days), batchSize, locked(calls), batch);
    assert FullBatches(calls + 1, batchSize) == FullBatches(calls, batchSize) + batchSize;
  }

  lemma LastIsOver(stamps: Stamps, taken: set<nat>, calls: nat, days: int, batchSize: nat, cap: nat,
                   now: nat -> int, locked: nat -> set<nat>, fate: nat -> Fate, batch: set<nat>)
    requires Progress(stamps, taken, calls, days, batchSize, cap, now, locked) && calls < cap
    requires forall k: nat :: k < calls ==> fate(k) == Runs
    requires Batch(stamps - taken, Expired(stamps - taken, Cutoff(now(calls), days)) - locked(calls), batchSize, batch)
    requires fate(calls) != Runs || |batch| < batchSize
    ensures PassOver(stamps, taken + batch, days, batchSize, cap, now, locked, fate, fate(calls) == Runs)
  {
    LastEnds(stamps, taken, calls, days, batchSize, cap, now, locked, batch, fate(calls) == Runs);
    FatedEnd(stamps, taken + batch, calls, days, batchSize, cap, now, locked, fate);
  }

  lemma FatedEnd(stamps: Stamps, taken: set<nat>, calls: nat, days: int, batchSize: nat, cap: nat,
                 now: nat -> int, locked: nat -> set<nat>, fate: nat -> Fate)
    requires Ended(stamps, taken, calls + 1, days, batchSize, cap, now, locked, fate(calls) == Runs) && calls < cap
    requires FullBatches(calls, batchSize) <= |taken| <= FullBatches(calls + 1, batchSize)
    requires forall k: nat :: k < calls ==> fate(k) == Runs
    ensures PassOver(stamps, taken, days, batchSize, cap, now, locked, fate, fate(calls) == Runs)
  {
    TakenIsFated(fate, calls, cap, batchSize, |taken|);
    EndsOver(stamps, taken, calls + 1, days, batchSize, cap, now, locked, fate, fate(calls) == Runs);
  }

  lemma TakenIsFated(fate: nat -> Fate, calls: nat, cap: nat, batchSize: nat, removed: nat)
    requires calls < cap && forall k: nat :: k < calls ==> fate(k) == Runs
    requires FullBatches(calls, batchSize) <= removed <= FullBatches(calls + 1, batchSize)
    ensures FailsAsFated(fate, calls + 1, cap, batchSize, removed, fate(calls) == Runs)
  {
    if fate(calls) != Runs { assert FailsAt(fate, calls, batchSize, removed); }
  }

  /** Deletes in batches, over every point of failure and cancellation.  `now(k)` is the clock
      read before statement k, `locked(k)` the rows that statement skips, and `fate(k)` what becomes
      of it; the cleanup fails exactly when a statement it comes to does. */
  method CleanTable(store: Database, table: Table, days: int, batchSize: nat, maxBatches: nat,
                    now: nat -> int, locked: nat -> set<nat>, fate: nat -> Fate)
    returns (ok: bool, ghost taken: set<nat>, ghost trail: seq<Db>)
    requires batchSize > 0
    modifies store
    ensures CleanedUp(old(store.committed), store.committed, table, taken, trail, days, batchSize, maxBatches,
                      now, locked, fate, ok)
  {
    taken, trail := {}, [store.committed];
    ghost var db := store.committed;
    Start(db, table, days, batchSize, maxBatches, now, locked, fate);
    for calls := 0 to maxBatches
      invariant Going(db, store.committed, table, taken, trail, calls, days, batchSize, maxBatches, now, locked, fate)
    {
      ghost var current := store.committed;
      if fate(calls) == Cancelled || fate(calls) == Lost {
        Lose(db, current, table, taken, trail, calls, days, batchSize, maxBatches, now, locked, fate);
        return false, taken, trail;
      }
      var affected;
      ghost var batch;
      affected, batch := DeleteBatch(store, table, Cutoff(now(calls), days), batchSize, locked(calls));
      if fate(calls) != Runs || affected < batchSize {
        TakeLast(db, current, table, taken, trail, calls, days, batchSize, maxBatches, now, locked, fate, batch);
        return fate(calls) == Runs, taken + batch, trail + [store.committed];
      }
      TakeMoreLater(db, current, table, taken, trail, calls, days, batchSize, maxBatches, now, locked, fate, batch);
      taken, trail := taken + batch, trail + [store.committed];
    }
    UsedUp(db, store.committed, table, taken, trail, maxBatches, days, batchSize, maxBatches, now, locked, fate);
    return true, taken, trail;
  }

  lemma PurgeNothing(db: Db, table: Table)
    ensures Purge(db, table, {}) == db
  {
    assert db.results - {} == db.results && db.alerts - {} == db.alerts;
  }

  lemma PurgeTwice(db: Db, table: Table, a: set<nat>, b: set<nat>)
    ensures Purge(Purge(db, table, a), table, b) == Purge(db, table, a + b)
  {
    assert db.results - a - b == db.results - (a + b) && db.alerts - a - b == db.alerts - (a + b);
  }

  // ----- The pass -----

  const MAX_BATCHES: nat := 10

  datatype RetentionConfig = RetentionConfig(checkResultDays: int, alertDays: int, batchSize: int,
                                             maxBatchesPerPass: int, dbTimeout: int)

  predicate ValidRetention(cfg: RetentionConfig) {
    cfg.checkResultDays > 0 && cfg.alertDays > 0 && cfg.batchSize > 0 && cfg.maxBatchesPerPass > 0 && cfg.dbTimeout > 0
  }

  function Cap(cfg: RetentionConfig): nat
    requires ValidRetention(cfg)
  {
    if cfg.maxBatchesPerPass > MAX_BATCHES then MAX_BATCHES else cfg.maxBatchesPerPass
  }

  /** Results first, then alerts; an error on results leaves alerts alone.  The pass fails only
      for a reason, and what it then did is still the work of whole batches. */
  method RunRetentionPass(store: Database, cancelled: bool, cfg: RetentionConfig,
                          nowResults: nat -> int, lockedResults: nat -> set<nat>, fateResults: nat -> Fate,
                          nowAlerts: nat -> int, lockedAlerts: nat -> set<nat>, fateAlerts: nat -> Fate)
    returns (ok: bool, ghost results: set<nat>, ghost alerts: set<nat>, ghost first: bool)
    modifies store
    ensures store.committed == old(store.committed).(results := old(store.committed).results - results,
                                                     alerts := old(store.committed).alerts - alerts)
    ensures cancelled || !ValidRetention(cfg) ==> !ok && results == {} && alerts == {}
    ensures !cancelled && ValidRetention(cfg) ==>
      var db, cap := old(store.committed), if cfg.maxBatchesPerPass > 10 then 10 else cfg.maxBatchesPerPass;
      && PassOver(map r | r in db.results :: db.results[r].createdAt, results, cfg.checkResultDays, cfg.batchSize, cap,
                  nowResults, lockedResults, fateResults, first)
      && if first then
           PassOver(map a | a in db.alerts :: db.alerts[a].createdAt, alerts, cfg.alertDays, cfg.batchSize, cap,
                    nowAlerts, lockedAlerts, fateAlerts, ok)
         else !ok && alerts == {}
  {
    ok, results, alerts, first := false, {}, {}, false;
    PurgeNothing(store.committed, CheckResults);
    PurgeNothing(store.committed, Alerts);
    if cancelled || !ValidRetention(cfg) { return; }
    ghost var trail;
    ok, results, trail := CleanTable(store, CheckResults, cfg.checkResultDays, cfg.batchSize, Cap(cfg),
                                     nowResults, lockedResults, fateResults);
    PurgeNothing(store.committed, Alerts);
    first := ok;
    if !ok { return; }
    ok, alerts, trail := CleanTable(store, Alerts, cfg.alertDays, cfg.batchSize, Cap(cfg),
                                    nowAlerts, lockedAlerts, fateAlerts);
  }

  // ----- The bulk deletion it refines -----

  /** With no locked rows and a fixed clock a pass removes exactly the oldest of the expired
      rows, as many as its batches hold. */
  lemma FixedClockPass(stamps: Stamps, taken: set<nat>, calls: nat, days: int, batchSize: nat, cap: nat,
                       now: nat -> int, locked: nat -> set<nat>, at: int)
    requires Ended(stamps, taken, calls, days, batchSize, cap, now, locked, true)
    requires forall k: nat :: now(k) == at && locked(k) == {}
    ensures Batch(stamps, Expired(stamps, Cutoff(at, days)), cap * batchSize, taken)
  {
    var cutoff := Cutoff(at, days);
    var expired := Expired(stamps, cutoff);
    forall id | id in taken ensures id in expired {
      assert ExpiredAtSome(stamps, id, calls, days, now);
    }
    BatchesGrow(calls, cap, batchSize);
    BatchesAreProduct(cap, batchSize);
    assert calls > 0 ==> locked(calls - 1) == {} && now(calls - 1) == at;
    WholeBatch(stamps, taken, cutoff, cap * batchSize);
  }

  lemma WholeBatch(stamps: Stamps, taken: set<nat>, cutoff: int, quota: nat)
    requires TakesOldest(stamps, stamps.Keys, taken) && taken <= Expired(stamps, cutoff)
    requires |taken| == quota || (|taken| <= quota && Expired(stamps - taken, cutoff) <= {})
    ensures Batch(stamps, Expired(stamps, cutoff), quota, taken)
  {
    var expired := Expired(stamps, cutoff);
    assert expired == taken + (expired - taken);
    assert Expired(stamps - taken, cutoff) == expired - taken;
  }

  function Bulk(stamps: Stamps, cutoff: int): Stamps {
    stamps - Expired(stamps, cutoff)
  }

  ghost function OldestExpired(stamps: Stamps, cutoff: int, quota: nat): (taken: set<nat>)
    ensures Batch(stamps, Expired(stamps, cutoff), quota, taken)
  {
    BatchIsPossible(stamps, Expired(stamps, cutoff), quota);
    var taken :| Batch(stamps, Expired(stamps, cutoff), quota, taken);
    taken
  }

  lemma BatchIsPossible(stamps: Stamps, pool: set<nat>, limit: nat)
    requires pool <= stamps.Keys
    ensures exists taken :: Batch(stamps, pool, limit, taken)
  {
    var taken := BatchExists(stamps, pool, limit);
  }

  /** The table after `n` passes with the same clock. */
  ghost function AfterPasses(stamps: Stamps, cutoff: int, quota: nat, n: nat): Stamps {
    if n == 0 then stamps
    else
      var before := AfterPasses(stamps, cutoff, quota, n - 1);
      before - OldestExpired(before, cutoff, quota)
  }

  /** Each pass brings the expired rows down by its quota and removes nothing the bulk deletion
      keeps; enough passes, and no fewer, give the bulk deletion itself. */
  lemma {:induction false} PassesReachBulk(stamps: Stamps, cutoff: int, quota: nat, n: nat)
    ensures var last, all := AfterPasses(stamps, cutoff, quota, n), |Expired(stamps, cutoff)|;
      && Bulk(last, cutoff) == Bulk(stamps, cutoff)
      && |Expired(last, cutoff)| == (if n * quota <= all then all - n * quota else 0)
      && (last == Bulk(stamps, cutoff) <==> n * quota >= all)
  {
    if n > 0 {
      var before := AfterPasses(stamps, cutoff, quota, n - 1);
      PassesReachBulk(stamps, cutoff, quota, n - 1);
      OnePass(before, cutoff, quota, OldestExpired(before, cutoff, quota));
      assert n * quota == (n - 1) * quota + quota;
    }
    BulkIff(AfterPasses(stamps, cutoff, quota, n), cutoff);
  }

  lemma OnePass(stamps: Stamps, cutoff: int, quota: nat, taken: set<nat>)
    requires Batch(stamps, Expired(stamps, cutoff), quota, taken)
    ensures Bulk(stamps - taken, cutoff) == Bulk(stamps, cutoff)
    ensures |Expired(stamps - taken, cutoff)| ==
      (if quota <= |Expired(stamps, cutoff)| then |Expired(stamps, cutoff)| - quota else 0)
  {
    var expired := Expired(stamps, cutoff);
    assert Expired(stamps - taken, cutoff) == expired - taken;
    assert expired == taken + (expired - taken);
  }

  lemma BulkIff(stamps: Stamps, cutoff: int)
    ensures stamps == Bulk(stamps, cutoff) <==> |Expired(stamps, cutoff)| == 0
  {
    if |Expired(stamps, cutoff)| > 0 {
      var id :| id in Expired(stamps, cutoff);
      assert id in stamps && id !in Bulk(stamps, cutoff);
    }
  }

  // ----- Locked rows -----

  /** The rows of the pool that come before a row. */
  function Ahead(stamps: Stamps, pool: set<nat>, b: nat): set<nat>
    requires pool <= stamps.Keys && b in stamps
  {
    set a | a in pool && Before(stamps, a, b)
  }

  lemma SmallerSet(a: set<nat>, b: set<nat>)
    requires a <= b
    ensures |a| <= |b| && (|a| == |b| ==> a == b)
  {
    assert b == a + (b - a);
    assert |b - a| == 0 ==> b - a == {};
  }

  /** A batch takes exactly the rows with fewer than `limit` of the pool before them. */
  lemma TakenIsRanked(stamps: Stamps, pool: set<nat>, limit: nat, taken: set<nat>, a: nat)
    requires Batch(stamps, pool, limit, taken) && a in pool
    ensures a in taken <==> |Ahead(stamps, pool, a)| < limit
  {
    if a in taken {
      assert Ahead(stamps, pool, a) <= taken - {a};
      SmallerSet(Ahead(stamps, pool, a), taken - {a});
    } else {
      assert taken <= Ahead(stamps, pool, a);
      SmallerSet(taken, Ahead(stamps, pool, a));
      assert pool == taken + (pool - taken) && a in pool - taken;
    }
  }

  /** A row outside the pool has all that is taken before it exactly when enough of the pool is. */
  lemma AllTakenAhead(stamps: Stamps, pool: set<nat>, limit: nat, taken: set<nat>, b: nat)
    requires Batch(stamps, pool, limit, taken) && b in stamps && b !in pool
    ensures taken <= Ahead(stamps, pool, b) <==> |Ahead(stamps, pool, b)| >= |taken|
  {
    if taken <= Ahead(stamps, pool, b) {
      SmallerSet(taken, Ahead(stamps, pool, b));
    } else {
      var a :| a in taken && a !in Ahead(stamps, pool, b);
      assert Before(stamps, b, a);
      forall x | x in Ahead(stamps, pool, b) ensures x in taken - {a} {
        assert Before(stamps, x, a);
        assert x !in taken ==> x in pool - taken;
      }
      SmallerSet(Ahead(stamps, pool, b), taken - {a});
    }
  }

  /** SKIP LOCKED keeps the oldest-first order of the whole table if and only if every locked
      expired row comes after as many unlocked ones as the batch takes. */
  lemma SkippingLockedRows(stamps: Stamps, cutoff: int, locked: set<nat>, limit: nat, taken: set<nat>)
    requires Batch(stamps, Expired(stamps, cutoff) - locked, limit, taken)
    ensures var pool := Expired(stamps, cutoff) - locked;
      TakesOldest(stamps, stamps.Keys, taken) <==>
        forall b :: b in locked && b in Expired(stamps, cutoff) ==>
          |Ahead(stamps, pool, b)| >= if limit < |pool| then limit else |pool|
  {
    var pool := Expired(stamps, cutoff) - locked;
    forall b | b in locked && b in Expired(stamps, cutoff)
      ensures |Ahead(stamps, pool, b)| >= |taken| <==> forall a :: a in taken ==> Before(stamps, a, b)
    {
      AllTakenAhead(stamps, pool, limit, taken, b);
    }
    forall b | b in stamps && b !in taken && !(b in locked && b in Expired(stamps, cutoff))
      ensures forall a :: a in taken ==> Before(stamps, a, b)
    {
      if b in Expired(stamps, cutoff) { assert b in pool - taken; }
    }
  }
}
