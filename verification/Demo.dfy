/** The demo account: the worker's periodic reset (sentinel-worker/internal/worker/demo_reset.go)
    and the API's seed at startup (sentinel-api/src/demo/demo-seed.ts). */
module Demo {
  import opened Schema
  import opened Persist
  import opened Seeding
  import StatusSeed

  datatype DemoMonitor = DemoMonitor(seedKey: string, name: string, target: string, frequency: int, checkType: string)

  predicate EntryOk(m: DemoMonitor) {
    m.seedKey != "" && m.name != "" && m.frequency > 0 && m.checkType != "" && m.target != ""
  }

  ghost predicate ManifestOk(monitors: seq<DemoMonitor>) {
    && monitors != []
    && (forall i :: 0 <= i < |monitors| ==>
          && monitors[i].seedKey != "" && monitors[i].name != "" && monitors[i].checkType != ""
          && monitors[i].target != "" && monitors[i].frequency >= 1)
    && (forall i, j :: 0 <= i < j < |monitors| ==> monitors[i].seedKey != monitors[j].seedKey)
  }

  /** Accepts exactly the nonempty manifests of valid entries with distinct keys. */
  method ParseDemoManifest(decoded: Option<seq<DemoMonitor>>) returns (r: Option<seq<DemoMonitor>>)
    ensures r == if decoded.Some? && ManifestOk(decoded.value) then decoded else None
  {
    if decoded.None? || decoded.value == [] { return None; }
    var monitors := decoded.value;
    var keys: set<string> := {};
    var i := 0;
    while i < |monitors|
      invariant 0 <= i <= |monitors|
      invariant forall j :: 0 <= j < i ==> EntryOk(monitors[j]) && monitors[j].seedKey in keys
      invariant forall k :: k in keys ==> exists j :: 0 <= j < i && monitors[j].seedKey == k
      invariant forall j, k :: 0 <= j < k < i ==> monitors[j].seedKey != monitors[k].seedKey
    {
      if !EntryOk(monitors[i]) || monitors[i].seedKey in keys { return None; }
      keys := keys + {monitors[i].seedKey};
      i := i + 1;
    }
    return decoded;
  }

  // ----- The reset -----

  function DemoRow(user: nat, m: DemoMonitor): Monitor {
    Monitor(user, Some(m.seedKey), m.name, m.target, m.checkType, m.frequency, true, false, None, None, 0)
  }

  function InsertAll(db: Db, user: nat, monitors: seq<DemoMonitor>): Db {
    if monitors == [] then db
    else Insert(InsertAll(db, user, monitors[..|monitors| - 1]), DemoRow(user, monitors[|monitors| - 1]))
  }

  function ResetTo(db: Db, user: nat, monitors: seq<DemoMonitor>): Db {
    InsertAll(Without(db, OwnedBy(db, user)), user, monitors)
  }

  /** `db'` is `db` with the manifest's rows under the next ids, in order. */
  ghost predicate Appended(db: Db, db': Db, user: nat, monitors: seq<DemoMonitor>) {
    && db' == db.(monitors := db'.monitors, nextMonitor := db.nextMonitor + |monitors|)
    && (forall id :: id in db.monitors ==> id in db'.monitors && db'.monitors[id] == db.monitors[id])
    && (forall id :: id in db'.monitors && id !in db.monitors ==>
          db.nextMonitor <= id < db'.nextMonitor && db'.monitors[id] == DemoRow(user, monitors[id - db.nextMonitor]))
    && (forall id :: db.nextMonitor <= id < db'.nextMonitor ==> id in db'.monitors)
  }

  lemma AppendedMore(db: Db, mid: Db, user: nat, before: seq<DemoMonitor>, last: DemoMonitor)
    requires Linked(db) && Appended(db, mid, user, before)
    ensures Appended(db, Insert(mid, DemoRow(user, last)), user, before + [last])
  {
  }

  lemma AppendedMeetsRely(db: Db, db': Db, user: nat, monitors: seq<DemoMonitor>)
    requires Linked(db) && Appended(db, db', user, monitors)
    ensures Rely(db, db')
  {
  }

  lemma {:induction false} InsertAllEffect(db: Db, user: nat, monitors: seq<DemoMonitor>)
    requires Linked(db)
    ensures Appended(db, InsertAll(db, user, monitors), user, monitors)
  {
    if monitors != [] {
      var before, last := monitors[..|monitors| - 1], monitors[|monitors| - 1];
      InsertAllEffect(db, user, before);
      AppendedMore(db, InsertAll(db, user, before), user, before, last);
      assert monitors == before + [last];
    }
  }

  /** The row has the values of a monitor of the manifest. */
  ghost predicate HoldsValues(row: Monitor, m: DemoMonitor) {
    && row.seedKey == Some(m.seedKey) && row.name == m.name && row.target == m.target
    && row.checkType == m.checkType && row.frequency == m.frequency
    && row.active && !row.isPublic && row.failures == 0
  }

  /** And it has not been checked yet. */
  ghost predicate IsNew(row: Monitor, m: DemoMonitor) {
    HoldsValues(row, m) && row.lastState == None && row.lastCheckedAt == None
  }

  /** The account holds exactly the manifest's monitors, each new and without history. */
  ghost predicate IsRestored(db: Db, db': Db, user: nat, monitors: seq<DemoMonitor>) {
    && (forall id :: id in OwnedBy(db', user) <==> db.nextMonitor <= id < db.nextMonitor + |monitors|)
    && (forall id :: id in OwnedBy(db', user) && db.nextMonitor <= id < db.nextMonitor + |monitors| ==>
          IsNew(db'.monitors[id], monitors[id - db.nextMonitor]))
    && (forall r :: r in db'.results ==> db'.results[r].monitorId !in OwnedBy(db', user))
    && (forall a :: a in db'.alerts ==> db'.alerts[a].monitorId !in OwnedBy(db', user))
  }

  /** Nothing of any other user was touched. */
  ghost predicate OthersUntouched(db: Db, db': Db, user: nat) {
    && (forall id :: id in db.monitors && db.monitors[id].owner != user ==>
          id in db'.monitors && db'.monitors[id] == db.monitors[id])
    && (forall id :: id in db'.monitors && db'.monitors[id].owner != user ==> id in db.monitors)
    && (forall r :: r in db.results && db.results[r].monitorId !in OwnedBy(db, user) ==>
          r in db'.results && db'.results[r] == db.results[r])
    && (forall a :: a in db.alerts && db.alerts[a].monitorId !in OwnedBy(db, user) ==>
          a in db'.alerts && db'.alerts[a] == db.alerts[a])
  }

  /** After a reset the demo user's monitors are exactly the manifest's, each new and without
      history, every other user's monitors, results and alerts are untouched, and the reset is a
      writer the worker relies on. */
  lemma ResetRestoresManifest(db: Db, user: nat, monitors: seq<DemoMonitor>)
    requires Linked(db)
    ensures var db' := ResetTo(db, user, monitors);
      && Linked(db') && Rely(db, db')
      && IsRestored(db, db', user, monitors) && OthersUntouched(db, db', user)
  {
    var cleared, db' := Without(db, OwnedBy(db, user)), ResetTo(db, user, monitors);
    DeletingMeetsRely(db, OwnedBy(db, user));
    RelyKeepsLinked(db, cleared);
    InsertAllEffect(cleared, user, monitors);
    AppendedMeetsRely(cleared, db', user, monitors);
    RelyTransitive(db, cleared, db');
    RelyKeepsLinked(db, db');
    RestoredIs(db, cleared, db', user, monitors);
  }

  lemma RestoredIs(db: Db, cleared: Db, db': Db, user: nat, monitors: seq<DemoMonitor>)
    requires Linked(db) && cleared == Without(db, OwnedBy(db, user)) && Appended(cleared, db', user, monitors)
    ensures IsRestored(db, db', user, monitors) && OthersUntouched(db, db', user)
  {
    RestoredRows(db, cleared, db', user, monitors);
    OthersStay(db, cleared, db', user, monitors);
  }

  lemma RestoredRows(db: Db, cleared: Db, db': Db, user: nat, monitors: seq<DemoMonitor>)
    requires Linked(db) && cleared == Without(db, OwnedBy(db, user)) && Appended(cleared, db', user, monitors)
    ensures IsRestored(db, db', user, monitors)
  {
    RestoredIds(db, cleared, db', user, monitors);
    RestoredAreNew(db, cleared, db', user, monitors);
    NoHistoryLeft(db, cleared, db', user, monitors);
  }

  lemma RestoredIds(db: Db, cleared: Db, db': Db, user: nat, monitors: seq<DemoMonitor>)
    requires Linked(db) && cleared == Without(db, OwnedBy(db, user)) && Appended(cleared, db', user, monitors)
    ensures forall id :: id in OwnedBy(db', user) <==> db.nextMonitor <= id < db.nextMonitor + |monitors|
  {
    forall id ensures id in OwnedBy(db', user) <==> db.nextMonitor <= id < db.nextMonitor + |monitors| {
      if id in db'.monitors && id in cleared.monitors { assert db'.monitors[id] == db.monitors[id]; }
    }
  }

  lemma RestoredAreNew(db: Db, cleared: Db, db': Db, user: nat, monitors: seq<DemoMonitor>)
    requires Linked(db) && cleared == Without(db, OwnedBy(db, user)) && Appended(cleared, db', user, monitors)
    ensures forall id :: id in OwnedBy(db', user) && db.nextMonitor <= id < db.nextMonitor + |monitors| ==>
      IsNew(db'.monitors[id], monitors[id - db.nextMonitor])
  {
    forall id | id in OwnedBy(db', user) && db.nextMonitor <= id < db.nextMonitor + |monitors|
      ensures IsNew(db'.monitors[id], monitors[id - db.nextMonitor])
    {
      assert id !in cleared.monitors;
    }
  }

  lemma NoHistoryLeft(db: Db, cleared: Db, db': Db, user: nat, monitors: seq<DemoMonitor>)
    requires Linked(db) && cleared == Without(db, OwnedBy(db, user)) && Appended(cleared, db', user, monitors)
    ensures forall r :: r in db'.results ==> db'.results[r].monitorId !in OwnedBy(db', user)
    ensures forall a :: a in db'.alerts ==> db'.alerts[a].monitorId !in OwnedBy(db', user)
  {
    forall id | id in cleared.monitors ensures id !in OwnedBy(db', user) {
      assert db'.monitors[id] == db.monitors[id];
    }
  }

  lemma OthersStay(db: Db, cleared: Db, db': Db, user: nat, monitors: seq<DemoMonitor>)
    requires Linked(db) && cleared == Without(db, OwnedBy(db, user)) && Appended(cleared, db', user, monitors)
    ensures OthersUntouched(db, db', user)
  {
    assert forall id :: id in OwnedBy(db, user) <==> id in db.monitors && db.monitors[id].owner == user;
  }

  /** Distinct keys in the manifest keep the unique index satisfied. */
  lemma ResetKeepsKeys(db: Db, user: nat, monitors: seq<DemoMonitor>)
    requires Linked(db) && SeedKeysUnique(db.monitors) && ManifestOk(monitors)
    ensures SeedKeysUnique(ResetTo(db, user, monitors).monitors)
  {
    var cleared, m := Without(db, OwnedBy(db, user)), ResetTo(db, user, monitors).monitors;
    InsertAllEffect(cleared, user, monitors);
    forall i, j | i in m && j in m && i != j && m[i].owner == m[j].owner
      ensures m[i].seedKey.None? || m[i].seedKey != m[j].seedKey
    {
      if i !in cleared.monitors && j !in cleared.monitors {
        KeysDiffer(monitors, i - db.nextMonitor, j - db.nextMonitor);
      }
    }
  }

  lemma KeysDiffer(monitors: seq<DemoMonitor>, i: nat, j: nat)
    requires ManifestOk(monitors) && i < |monitors| && j < |monitors| && i != j
    ensures monitors[i].seedKey != monitors[j].seedKey
  {
  }

  /** Which statement of the transaction fails, if any, and what the commit replies. */
  datatype ResetFaults = ResetFaults(lookup: bool, begin: bool, deletes: nat, inserts: nat, commit: CommitReply)

  function DeleteResults(db: Db, owned: set<nat>): Db {
    db.(results := map r | r in db.results && db.results[r].monitorId !in owned :: db.results[r])
  }

  function DeleteAlerts(db: Db, owned: set<nat>): Db {
    db.(alerts := map a | a in db.alerts && db.alerts[a].monitorId !in owned :: db.alerts[a])
  }

  function DeleteMonitors(db: Db, owned: set<nat>): Db { db.(monitors := db.monitors - owned) }

  lemma DeletesAreWithout(db: Db, owned: set<nat>)
    ensures DeleteMonitors(DeleteAlerts(DeleteResults(db, owned), owned), owned) == Without(db, owned)
  {
  }

  /** Every statement before the commit goes through. */
  predicate Staged(faults: ResetFaults, count: nat) {
    !faults.begin && !(1 <= faults.deletes <= 3) && !(1 <= faults.inserts <= count)
  }

  /** All or nothing: the account is reset whole exactly when the commit takes effect, and otherwise
      the database is as it was; the reset succeeds exactly when nothing failed, or there is no
      demo account to reset. */
  method ResetDemoAccount(store: Database, email: string, file: Option<Option<seq<DemoMonitor>>>, faults: ResetFaults)
    returns (ok: bool)
    requires StatusSeed.EmailsUnique(store.committed.users)
    modifies store
    ensures var db := old(store.committed);
      var user := StatusSeed.FindUser(db.users, email);
      var demo := user.Some? && db.users[user.value].isDemo;
      var readable := file.Some? && file.value.Some? && ManifestOk(file.value.value) && !faults.lookup;
      var staged := email != "" && readable && demo && Staged(faults, |file.value.value|);
      && (ok <==> email == "" || (readable && !demo) || (staged && faults.commit == CommitOk))
      && store.committed ==
           (if staged && faults.commit != CommitLost then ResetTo(db, user.value, file.value.value) else db)
  {
    if email == "" { return true; }
    if file.None? { return false; }
    var parsed := ParseDemoManifest(file.value);
    if parsed.None? { return false; }
    var monitors := parsed.value;
    if faults.lookup { return false; }
    var user := StatusSeed.FindUser(store.committed.users, email);
    if user.None? || !store.committed.users[user.value].isDemo { return true; }
    if faults.begin { return false; }

    var staged := store.committed;
    var owned := OwnedBy(staged, user.value);
    if faults.deletes == 1 { return false; }
    staged := DeleteResults(staged, owned);
    if faults.deletes == 2 { return false; }
    staged := DeleteAlerts(staged, owned);
    if faults.deletes == 3 { return false; }
    staged := DeleteMonitors(staged, owned);
    DeletesAreWithout(store.committed, owned);

    var i := 0;
    while i < |monitors|
      invariant 0 <= i <= |monitors|
      invariant staged == InsertAll(Without(store.committed, owned), user.value, monitors[..i])
      invariant !(1 <= faults.inserts <= i)
    {
      if faults.inserts == i + 1 { return false; }
      assert monitors[..i + 1][..i] == monitors[..i];
      staged := Insert(staged, DemoRow(user.value, monitors[i]));
      i := i + 1;
    }
    assert monitors[..i] == monitors;
    if faults.commit == CommitLost { return false; }
    store.committed := staged;
    return faults.commit == CommitOk;
  }

  // ----- The seed -----

  function ItemOf(m: DemoMonitor): Item {
    Item(m.seedKey, Values(m.name, m.target, m.checkType, m.frequency, false))
  }

  function ItemsOf(monitors: seq<DemoMonitor>): (items: seq<Item>)
    ensures |items| == |monitors| && forall i :: 0 <= i < |items| ==> items[i] == ItemOf(monitors[i])
  {
    seq(|monitors|, i requires 0 <= i < |monitors| => ItemOf(monitors[i]))
  }

  /** The account made or turned into the demo user, and its id. */
  function WithDemoUser(db: Db, email: string, password: string): (Db, nat)
    requires StatusSeed.EmailsUnique(db.users)
  {
    match StatusSeed.FindUser(db.users, email)
    case Some(u) => (db.(users := db.users[u := db.users[u].(password := password, isDemo := true)]), u)
    case None => (db.(users := db.users[db.nextUser := User(email, true, true, password)],
                      nextUser := db.nextUser + 1), db.nextUser)
  }

  predicate SeedValid(monitors: seq<DemoMonitor>, maxMonitors: Option<int>, validTarget: string -> bool) {
    && maxMonitors.Some? && maxMonitors.value > |monitors|
    && forall i :: 0 <= i < |monitors| ==> monitors[i].seedKey != "" && validTarget(monitors[i].target)
  }

  /** The statements are committed one by one: when statement `fails` does not succeed (0 is the
      user's, k + 1 that of monitor k), those before it stay. */
  method SeedDemo(store: Database, monitors: seq<DemoMonitor>, maxMonitors: Option<int>, email: string, hash: string,
                  validTarget: string -> bool, fails: nat) returns (ok: bool)
    requires var db := store.committed;
      Linked(db) && SeedKeysUnique(db.monitors) && StatusSeed.EmailsUnique(db.users)
    modifies store
    ensures var db := old(store.committed);
      var (based, user) := WithDemoUser(db, email, hash);
      if SeedValid(monitors, maxMonitors, validTarget) && fails != 0 then
        && Linked(based) && SeedKeysUnique(based.monitors)
        && ok == (fails > |monitors|)
        && store.committed == UpsertAll(based, user, ItemsOf(monitors)[..if ok then |monitors| else fails - 1])
      else !ok && store.committed == db
  {
    if maxMonitors.None? || maxMonitors.value <= |monitors| { return false; }
    var j := 0;
    while j < |monitors|
      invariant 0 <= j <= |monitors|
      invariant forall i :: 0 <= i < j ==> monitors[i].seedKey != "" && validTarget(monitors[i].target)
    {
      if monitors[j].seedKey == "" || !validTarget(monitors[j].target) { return false; }
      j := j + 1;
    }
    if fails == 0 { return false; }
    var (based, user) := WithDemoUser(store.committed, email, hash);
    assert Linked(based);
    store.committed := based;
    ok := SeedMonitors(store, user, ItemsOf(monitors), fails - 1);
  }

  /** The loop: one commit for each upsert, up to the one that fails. */
  method SeedMonitors(store: Database, user: nat, items: seq<Item>, fails: nat) returns (ok: bool)
    requires Linked(store.committed) && SeedKeysUnique(store.committed.monitors)
    modifies store
    ensures ok == (fails >= |items|)
    ensures store.committed == UpsertAll(old(store.committed), user, items[..if ok then |items| else fails])
  {
    ghost var based := store.committed;
    var j := 0;
    while j < |items|
      invariant 0 <= j <= |items| && j <= fails && Linked(based) && SeedKeysUnique(based.monitors)
      invariant store.committed == UpsertAll(based, user, items[..j])
    {
      if fails == j { return false; }
      UpsertNext(based, user, items, j);
      store.committed := Upsert(store.committed, user, items[j]);
      j := j + 1;
    }
    return true;
  }

  /** The account under the address is a demo account with this password afterwards, active if it is
      new; every other account stays. */
  lemma DemoUserIs(db: Db, email: string, hash: string)
    requires StatusSeed.UsersKnown(db)
    ensures var (based, user) := WithDemoUser(db, email, hash);
      && StatusSeed.UsersKnown(based) && based.monitors == db.monitors
      && user in based.users && StatusSeed.FindUser(based.users, email) == Some(user)
      && based.users[user].email == email && based.users[user].isDemo && based.users[user].password == hash
      && based.users[user].isActive == (user in db.users ==> db.users[user].isActive)
      && (forall u :: u in db.users && u != user ==> u in based.users && based.users[u] == db.users[u])
      && (forall u :: u in based.users ==> u in db.users || u == user)
  {
    DemoUserIsKnown(db, email, hash);
  }

  lemma DemoUserIsKnown(db: Db, email: string, hash: string)
    requires StatusSeed.UsersKnown(db)
    ensures StatusSeed.UsersKnown(WithDemoUser(db, email, hash).0)
  {
  }

  /** Whatever the keys of the manifest, the last monitor seeded has its row; when they differ, each has. */
  lemma SeedWrites(db: Db, user: nat, monitors: seq<DemoMonitor>, i: nat)
    requires Linked(db) && SeedKeysUnique(db.monitors) && i < |monitors| && DistinctKeys(ItemsOf(monitors))
    ensures var rows := UpsertAll(db, user, ItemsOf(monitors)).monitors;
      exists m :: m in rows && rows[m].owner == user && HoldsValues(rows[m], monitors[i])
  {
    var items := ItemsOf(monitors);
    var rows := UpsertAll(db, user, items).monitors;
    UpsertAllEffect(db, user, items);
    assert Present(rows, user, items[i].key);
    var m :| m in rows && HasKey(rows[m], user, items[i].key);
    StatusSeed.UpsertedRow(db, user, items, m);
    assert items[i].key in StatusSeed.KeysOf(items);
    var j :| 0 <= j < |items| && HasKey(rows[m], user, items[j].key)
      && rows[m] == Seeding.Write(rows[m], items[j].values);
    assert i == j;
  }

  /** A seed that succeeds makes the account one that the worker's next reset finds: the reset then
      leaves it with exactly the monitors of its own manifest. */
  method SeedThenReset(store: Database, monitors: seq<DemoMonitor>, maxMonitors: Option<int>, email: string,
                       hash: string, validTarget: string -> bool, file: seq<DemoMonitor>)
    returns (seeded: bool, reset: bool, ghost between: Db, ghost user: nat)
    requires var db := store.committed; Linked(db) && SeedKeysUnique(db.monitors) && StatusSeed.UsersKnown(db)
    requires email != ""
    modifies store
    ensures seeded && ManifestOk(file) ==>
      && reset && IsRestored(between, store.committed, user, file) && OthersUntouched(between, store.committed, user)
      && user in store.committed.users && store.committed.users[user].email == email
      && store.committed.users[user].isDemo && store.committed.users[user].password == hash
  {
    ghost var db := store.committed;
    seeded := SeedDemo(store, monitors, maxMonitors, email, hash, validTarget, |monitors| + 1);
    between := store.committed;
    user := WithDemoUser(db, email, hash).1;
    if !seeded { return seeded, false, between, user; }
    DemoUserIs(db, email, hash);
    reset := ResetDemoAccount(store, email, Some(Some(file)), ResetFaults(false, false, 0, 0, CommitOk));
    ResetRestoresManifest(between, user, file);
    ResetKeepsUsers(between, user, file);
  }

  lemma ResetKeepsUsers(db: Db, user: nat, monitors: seq<DemoMonitor>)
    requires Linked(db)
    ensures ResetTo(db, user, monitors).users == db.users
  {
    InsertAllEffect(Without(db, OwnedBy(db, user)), user, monitors);
  }

  lemma DemoUserOnly(db: Db, email: string, hash: string)
    requires Linked(db) && StatusSeed.EmailsUnique(db.users)
    ensures var based := WithDemoUser(db, email, hash).0;
      based.monitors == db.monitors && Linked(based) && Rely(db, based)
  {
  }

  /** However far it gets, the demo seed publishes nothing, touches no other user's rows, and is a
      writer the worker relies on. */
  lemma SeedDemoKeeps(db: Db, email: string, hash: string, monitors: seq<DemoMonitor>, done: nat)
    requires Linked(db) && SeedKeysUnique(db.monitors) && StatusSeed.EmailsUnique(db.users) && done <= |monitors|
    ensures var (based, user) := WithDemoUser(db, email, hash);
      && based.monitors == db.monitors && Linked(based)
      && var db' := UpsertAll(based, user, ItemsOf(monitors)[..done]);
      && Linked(db') && Rely(db, db') && PublishesNothing(db, db') && OnlyOwners(based, db', user)
  {
    var (based, user) := WithDemoUser(db, email, hash);
    DemoUserOnly(db, email, hash);
    var items := ItemsOf(monitors)[..done];
    UpsertAllMeetsRely(based, user, items);
    UpsertAllOthers(based, user, items);
    UpsertAllPrivate(based, user, items);
    RelyTransitive(db, based, UpsertAll(based, user, items));
  }
}
