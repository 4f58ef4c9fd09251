/** The PostgreSQL tables shared by the worker and the API, as values.

    A table is a map from primary key to row.  A transaction is a function from one `Db`
    to the next: it takes effect at commit, in one step.  Times are integers in
    microseconds, the precision of the TIMESTAMP(6) columns. */
module Schema {

  datatype Option<+T> = None | Some(value: T)

  /** A probe result or a `last_state` value.  `Other` is any text but the two the worker writes. */
  datatype State = Healthy | Unhealthy | Other(text: string)

  datatype AlertKind = Down | Recovery

  datatype User = User(email: string, isDemo: bool, isActive: bool, password: string)

  datatype Monitor = Monitor(
    owner: nat, seedKey: Option<string>, name: string, target: string, checkType: string,
    frequency: int, active: bool, isPublic: bool,
    lastState: Option<State>, lastCheckedAt: Option<int>, failures: int)

  datatype CheckResult = CheckResult(monitorId: nat, state: State, createdAt: int)

  datatype Alert = Alert(monitorId: nat, kind: AlertKind, message: string, createdAt: int)

  /** The `next` fields are the SERIAL sequences: they only move forward, so ids are never reused. */
  datatype Db = Db(
    users: map<nat, User>, monitors: map<nat, Monitor>,
    results: map<nat, CheckResult>, alerts: map<nat, Alert>,
    nextUser: nat, nextMonitor: nat, nextResult: nat, nextAlert: nat)

  /** The committed state, as the only thing a transaction changes. */
  class Database {
    var committed: Db

    constructor (initial: Db)
      ensures committed == initial
    {
      committed := initial;
    }
  }

  const EMPTY_DB := Db(map[], map[], map[], map[], 1, 1, 1, 1)

  /** Keys come from the sequences, and results and alerts reference live monitors. */
  ghost predicate Linked(db: Db) {
    && (forall id :: id in db.monitors ==> id < db.nextMonitor)
    && (forall r :: r in db.results ==> r < db.nextResult && db.results[r].monitorId in db.monitors)
    && (forall a :: a in db.alerts ==> a < db.nextAlert && db.alerts[a].monitorId in db.monitors)
  }

  /** The unique index on (user_id, seed_key); rows whose key is NULL never collide. */
  ghost predicate SeedKeysUnique(monitors: map<nat, Monitor>) {
    forall i, j :: i in monitors && j in monitors && i != j && monitors[i].owner == monitors[j].owner ==>
      monitors[i].seedKey.None? || monitors[i].seedKey != monitors[j].seedKey
  }

  /** Delete monitors together with their results and alerts. */
  function Without(db: Db, gone: set<nat>): Db {
    db.(monitors := db.monitors - gone,
        results := map r | r in db.results && db.results[r].monitorId !in gone :: db.results[r],
        alerts := map a | a in db.alerts && db.alerts[a].monitorId !in gone :: db.alerts[a])
  }

  function OwnedBy(db: Db, user: nat): set<nat> {
    set id | id in db.monitors && db.monitors[id].owner == user
  }

  /** What the worker relies on from every other writer of the database: surviving monitors keep
      `last_state` and `last_checked_at`, and their failure counter unless it is set to zero; new
      ones have fresh ids, neither of the two and no failures; and the history of each deleted
      monitor goes with it, all else staying in place. */
  ghost predicate Rely(db: Db, db': Db) {
    && db.nextMonitor <= db'.nextMonitor
    && db'.nextResult == db.nextResult && db'.nextAlert == db.nextAlert
    && (forall id :: id in db'.monitors && id in db.monitors ==>
          && db'.monitors[id].lastState == db.monitors[id].lastState
          && db'.monitors[id].lastCheckedAt == db.monitors[id].lastCheckedAt
          && (db'.monitors[id].failures == db.monitors[id].failures || db'.monitors[id].failures == 0))
    && (forall id :: id in db'.monitors && id !in db.monitors ==>
          && db.nextMonitor <= id < db'.nextMonitor && db'.monitors[id].failures == 0
          && db'.monitors[id].lastState == None && db'.monitors[id].lastCheckedAt == None)
    && (forall r :: r in db'.results <==> r in db.results && db.results[r].monitorId in db'.monitors)
    && (forall r :: r in db'.results ==> db'.results[r] == db.results[r])
    && (forall a :: a in db'.alerts <==> a in db.alerts && db.alerts[a].monitorId in db'.monitors)
    && (forall a :: a in db'.alerts ==> db'.alerts[a] == db.alerts[a])
  }

  lemma RelyKeepsLinked(db: Db, db': Db)
    requires Linked(db) && Rely(db, db')
    ensures Linked(db')
  {
    forall id | id in db'.monitors ensures id < db'.nextMonitor {
      if id in db.monitors { assert id < db.nextMonitor; }
    }
  }

  lemma RelyReflexive(db: Db)
    requires Linked(db)
    ensures Rely(db, db)
  {
  }

  lemma RelyTransitive(a: Db, b: Db, c: Db)
    requires Linked(a) && Rely(a, b) && Rely(b, c)
    ensures Rely(a, c)
  {
    forall id | id in c.monitors && id in a.monitors ensures id in b.monitors {
    }
    forall id | id in c.monitors && id !in a.monitors
      ensures a.nextMonitor <= id < c.nextMonitor
      ensures c.monitors[id].lastState == None && c.monitors[id].lastCheckedAt == None && c.monitors[id].failures == 0
    {
      if id in b.monitors { assert a.nextMonitor <= id < b.nextMonitor; }
    }
  }

  /** A deletion takes exactly these monitors with their results and alerts, and nothing else. */
  lemma DeletingMeetsRely(db: Db, gone: set<nat>)
    requires Linked(db)
    ensures var db' := Without(db, gone);
      && Rely(db, db') && db'.users == db.users
      && db'.nextUser == db.nextUser && db'.nextMonitor == db.nextMonitor
      && (forall id :: id in db'.monitors <==> id in db.monitors && id !in gone)
      && (forall id :: id in db'.monitors ==> db'.monitors[id] == db.monitors[id])
      && (forall r :: r in db'.results <==> r in db.results && db.results[r].monitorId !in gone)
      && (forall a :: a in db'.alerts <==> a in db.alerts && db.alerts[a].monitorId !in gone)
  {
  }

  /** Insert a monitor under the next id. */
  function Insert(db: Db, row: Monitor): Db {
    db.(monitors := db.monitors[db.nextMonitor := row], nextMonitor := db.nextMonitor + 1)
  }

  /** Overwrite one monitor's row. */
  function Edit(db: Db, id: nat, row: Monitor): Db {
    db.(monitors := db.monitors[id := row])
  }

  lemma InsertMeetsRely(db: Db, row: Monitor)
    requires Linked(db) && row.lastState == None && row.lastCheckedAt == None && row.failures == 0
    ensures Linked(Insert(db, row)) && Rely(db, Insert(db, row))
  {
    assert db.nextMonitor !in db.monitors;
  }

  lemma EditMeetsRely(db: Db, id: nat, row: Monitor)
    requires Linked(db) && id in db.monitors
    requires row.lastState == db.monitors[id].lastState && row.lastCheckedAt == db.monitors[id].lastCheckedAt
    requires row.failures == db.monitors[id].failures || row.failures == 0
    ensures Linked(Edit(db, id, row)) && Rely(db, Edit(db, id, row))
  {
  }
}
