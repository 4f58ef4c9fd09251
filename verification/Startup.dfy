/** A start of the API: the status seed, then the demo seed (sentinel-api/prisma/seed.ts). */
module Startup {
  import opened Schema
  import opened Seeding
  import opened StatusSeed
  import Demo
  import PublicStatus

  /** An owner is configured only with an address of its own, and an account that exists already
      under it is one that the seed made. */
  ghost predicate Configured(db: Db, owner: Option<string>, demo: string)
    requires EmailsUnique(db.users)
  {
    NoOwner(owner) ||
    (owner.value != demo
     && (FindUser(db.users, owner.value).Some? ==> MayOwn(db.users[FindUser(db.users, owner.value).value])))
  }

  ghost predicate Ready(db: Db, owner: Option<string>, items: seq<Item>, demo: string) {
    && Linked(db) && SeedKeysUnique(db.monitors) && UsersKnown(db) && Configured(db, owner, demo)
    && DistinctKeys(items) && AllPublic(items)
  }

  /** What the status seed leaves; without an owner it hides every monitor. */
  ghost function Published(db: Db, owner: Option<string>, items: seq<Item>, demo: string): Db
    requires Ready(db, owner, items, demo)
  {
    if NoOwner(owner) then Hide(db, set id | id in db.monitors && db.monitors[id].isPublic)
    else
      var (based, id) := WithOwner(db, owner.value);
      Reconciled(based, id, items)
  }

  /** The row is one that should be public. */
  ghost predicate Chosen(db: Db, owner: Option<string>, items: seq<Item>, row: Monitor)
    requires EmailsUnique(db.users)
  {
    !NoOwner(owner) && Wanted(row, WithOwner(db, owner.value).1, KeysOf(items))
  }

  /** The owner's account exists under its address, and is no demo account. */
  lemma OwnerAccount(db: Db, owner: Option<string>, demo: string)
    requires UsersKnown(db) && Configured(db, owner, demo) && !NoOwner(owner)
    ensures var (based, id) := WithOwner(db, owner.value);
      && UsersKnown(based) && based.monitors == db.monitors
      && id in based.users && based.users[id].email == owner.value && !based.users[id].isDemo
  {
  }

  lemma OwnerKeepsLinked(db: Db, owner: Option<string>, demo: string)
    requires Linked(db) && UsersKnown(db) && Configured(db, owner, demo) && !NoOwner(owner)
    ensures Linked(WithOwner(db, owner.value).0)
  {
  }

  lemma PublishedKeeps(db: Db, owner: Option<string>, items: seq<Item>, demo: string)
    requires Ready(db, owner, items, demo)
    ensures var db' := Published(db, owner, items, demo);
      Linked(db') && SeedKeysUnique(db'.monitors) && UsersKnown(db')
  {
    if NoOwner(owner) {
      HideKeeps(db, set id | id in db.monitors && db.monitors[id].isPublic);
    } else {
      var (based, id) := WithOwner(db, owner.value);
      OwnerAccount(db, owner, demo);
      OwnerKeepsLinked(db, owner, demo);
      ReconciledKeeps(based, id, items);
    }
  }

  lemma PublishedRow(db: Db, owner: Option<string>, items: seq<Item>, demo: string, m: nat)
    requires Ready(db, owner, items, demo) && m in Published(db, owner, items, demo).monitors
    ensures var row := Published(db, owner, items, demo).monitors[m];
      && (row.isPublic <==> Chosen(db, owner, items, row))
      && (Chosen(db, owner, items, row) ==> row.active)
  {
    if !NoOwner(owner) {
      var (based, id) := WithOwner(db, owner.value);
      ReconciledRow(based, id, items, m);
    }
  }

  /** What a start leaves when the demo seed gets up to its statement `done`. */
  ghost function Started(db: Db, owner: Option<string>, items: seq<Item>, demo: string, hash: string,
                         monitors: seq<Demo.DemoMonitor>, done: nat): Db
    requires Ready(db, owner, items, demo) && done <= |monitors|
  {
    var seeded := Published(db, owner, items, demo);
    PublishedKeeps(db, owner, items, demo);
    var (based, user) := Demo.WithDemoUser(seeded, demo, hash);
    Demo.DemoUserOnly(seeded, demo, hash);
    UpsertAll(based, user, Demo.ItemsOf(monitors)[..done])
  }

  /** The demo account is one of its own: under another address an account stays as it is. */
  lemma DemoAccount(db: Db, demo: string, hash: string, id: nat)
    requires UsersKnown(db) && id in db.users && db.users[id].email != demo
    ensures var (based, user) := Demo.WithDemoUser(db, demo, hash);
      user != id && id in based.users && based.users[id] == db.users[id]
  {
  }

  /** Two addresses give two accounts, and the owner's is no demo account. */
  lemma AccountsDiffer(db: Db, owner: Option<string>, items: seq<Item>, demo: string, hash: string)
    requires Ready(db, owner, items, demo) && !NoOwner(owner)
    ensures EmailsUnique(Published(db, owner, items, demo).users)
    ensures var (based, user) := Demo.WithDemoUser(Published(db, owner, items, demo), demo, hash);
      var id := WithOwner(db, owner.value).1;
      user != id && id in based.users && !based.users[id].isDemo
  {
    OwnerAccount(db, owner, demo);
    DemoAccount(Published(db, owner, items, demo), demo, hash, WithOwner(db, owner.value).1);
  }

  /** A row of the start is a row the status seed left, or a private one of the demo user. */
  lemma StartedRow(db: Db, owner: Option<string>, items: seq<Item>, demo: string, hash: string,
                   monitors: seq<Demo.DemoMonitor>, done: nat, m: nat)
    requires Ready(db, owner, items, demo) && done <= |monitors|
    requires m in Started(db, owner, items, demo, hash, monitors, done).monitors
    ensures var row := Started(db, owner, items, demo, hash, monitors, done).monitors[m];
      && (row.isPublic <==> Chosen(db, owner, items, row))
      && (Chosen(db, owner, items, row) ==> row.active)
  {
    var seeded := Published(db, owner, items, demo);
    PublishedKeeps(db, owner, items, demo);
    Demo.SeedDemoKeeps(seeded, demo, hash, monitors, done);
    if !NoOwner(owner) { AccountsDiffer(db, owner, items, demo, hash); }
    if m in seeded.monitors { PublishedRow(db, owner, items, demo, m); }
  }

  /** Whatever the demo manifest holds and however far its seed gets: with an owner configured the
      public monitors are exactly the owner's with a key of the status manifest, and without one
      nothing is public. */
  lemma StartupPublishesExactly(db: Db, owner: Option<string>, items: seq<Item>, demo: string, hash: string,
                                monitors: seq<Demo.DemoMonitor>, done: nat)
    requires Ready(db, owner, items, demo) && done <= |monitors|
    ensures var rows := Started(db, owner, items, demo, hash, monitors, done).monitors;
      if NoOwner(owner) then forall m :: m in rows ==> !rows[m].isPublic
      else forall m :: m in rows ==>
        (rows[m].isPublic <==> Wanted(rows[m], WithOwner(db, owner.value).1, KeysOf(items)))
  {
    var rows := Started(db, owner, items, demo, hash, monitors, done).monitors;
    forall m | m in rows ensures rows[m].isPublic <==> Chosen(db, owner, items, rows[m]) {
      StartedRow(db, owner, items, demo, hash, monitors, done, m);
    }
  }

  /** And the public status then lists exactly these, all of them active; without an owner, nothing. */
  lemma StartupListsExactly(db: Db, owner: Option<string>, items: seq<Item>, demo: string, hash: string,
                            monitors: seq<Demo.DemoMonitor>, done: nat)
    requires Ready(db, owner, items, demo) && done <= |monitors|
    ensures var db' := Started(db, owner, items, demo, hash, monitors, done);
      forall m :: PublicStatus.Listed(db', m) <==>
        m in db'.monitors && !NoOwner(owner)
        && Wanted(db'.monitors[m], WithOwner(db, owner.value).1, KeysOf(items))
  {
    var db' := Started(db, owner, items, demo, hash, monitors, done);
    if !NoOwner(owner) { AccountsDiffer(db, owner, items, demo, hash); }
    forall m | m in db'.monitors
      ensures db'.monitors[m].isPublic <==> Chosen(db, owner, items, db'.monitors[m])
      ensures Chosen(db, owner, items, db'.monitors[m]) ==> db'.monitors[m].active
    {
      StartedRow(db, owner, items, demo, hash, monitors, done, m);
    }
  }

  // ----- The start -----

  /** Public are exactly the monitors of the account under the owner's address with a key of the
      manifest; without an owner, none. */
  ghost predicate OnlyManifestIsPublic(db: Db, owner: Option<string>, items: seq<Item>) {
    forall m :: m in db.monitors ==> (db.monitors[m].isPublic <==> IsOwners(db.users, owner, items, db.monitors[m]))
  }

  ghost predicate IsOwners(users: map<nat, User>, owner: Option<string>, items: seq<Item>, row: Monitor) {
    && !NoOwner(owner) && row.owner in users && users[row.owner].email == owner.value
    && exists i :: 0 <= i < |items| && row.seedKey == Some(items[i].key)
  }

  lemma ChosenIsOwners(db: Db, users: map<nat, User>, owner: Option<string>, items: seq<Item>, row: Monitor)
    requires UsersKnown(db) && EmailsUnique(users)
    requires !NoOwner(owner) ==>
      var id := WithOwner(db, owner.value).1;
      id in users && users[id].email == owner.value
    ensures Chosen(db, owner, items, row) <==> IsOwners(users, owner, items, row)
  {
    if !NoOwner(owner) { KeysAre(items, row); }
  }

  lemma KeysAre(items: seq<Item>, row: Monitor)
    ensures row.seedKey.Some? && row.seedKey.value in KeysOf(items) <==>
      exists i :: 0 <= i < |items| && row.seedKey == Some(items[i].key)
  {
    if i :| 0 <= i < |items| && row.seedKey == Some(items[i].key) {
      assert items[i].key in KeysOf(items);
    }
  }

  lemma PublishedExactly(db: Db, owner: Option<string>, items: seq<Item>, demo: string)
    requires Ready(db, owner, items, demo)
    ensures OnlyManifestIsPublic(Published(db, owner, items, demo), owner, items)
  {
    var db' := Published(db, owner, items, demo);
    PublishedKeeps(db, owner, items, demo);
    if !NoOwner(owner) { OwnerAccount(db, owner, demo); }
    forall m | m in db'.monitors
      ensures db'.monitors[m].isPublic <==> IsOwners(db'.users, owner, items, db'.monitors[m])
    {
      PublishedRow(db, owner, items, demo, m);
      ChosenIsOwners(db, db'.users, owner, items, db'.monitors[m]);
    }
  }

  lemma StartedExactly(db: Db, owner: Option<string>, items: seq<Item>, demo: string, hash: string,
                       monitors: seq<Demo.DemoMonitor>, done: nat)
    requires Ready(db, owner, items, demo) && done <= |monitors|
    ensures OnlyManifestIsPublic(Started(db, owner, items, demo, hash, monitors, done), owner, items)
  {
    var db' := Started(db, owner, items, demo, hash, monitors, done);
    StartedUsers(db, owner, items, demo, hash, monitors, done);
    forall m | m in db'.monitors
      ensures db'.monitors[m].isPublic <==> IsOwners(db'.users, owner, items, db'.monitors[m])
    {
      StartedRow(db, owner, items, demo, hash, monitors, done, m);
      ChosenIsOwners(db, db'.users, owner, items, db'.monitors[m]);
    }
  }

  lemma StartedUsers(db: Db, owner: Option<string>, items: seq<Item>, demo: string, hash: string,
                     monitors: seq<Demo.DemoMonitor>, done: nat)
    requires Ready(db, owner, items, demo) && done <= |monitors|
    ensures var users := Started(db, owner, items, demo, hash, monitors, done).users;
      && EmailsUnique(users)
      && (!NoOwner(owner) ==>
            var id := WithOwner(db, owner.value).1;
            id in users && users[id].email == owner.value)
  {
    var seeded := Published(db, owner, items, demo);
    PublishedKeeps(db, owner, items, demo);
    Demo.DemoUserIs(seeded, demo, hash);
    if !NoOwner(owner) {
      OwnerAccount(db, owner, demo);
      DemoAccount(seeded, demo, hash, WithOwner(db, owner.value).1);
    }
  }

  /** Both seeds in their order, an empty status manifest without an owner; an error of the first
      ends the start.  When the status seed succeeds, then whatever becomes of the demo seed, exactly
      its manifest is public. */
  method Start(store: Database, manifest: Option<seq<Entry>>, owner: Option<string>, demo: string, rules: Rules,
               fails: bool, monitors: seq<Demo.DemoMonitor>, maxMonitors: Option<int>, hash: string,
               validTarget: string -> bool, demoFails: nat)
    returns (published: bool, ok: bool)
    requires var db := store.committed; Linked(db) && SeedKeysUnique(db.monitors) && UsersKnown(db)
    modifies store
    ensures !published ==> !ok && store.committed == old(store.committed)
    ensures published ==>
      && (NoOwner(owner) || manifest.Some?)
      && OnlyManifestIsPublic(store.committed, owner, if NoOwner(owner) then [] else ItemsOf(manifest.value))
  {
    ghost var db := store.committed;
    var read := if owner.None? || owner.value == "" then Some([]) else manifest;
    var r := Seed(store, read, owner, Some(demo), rules, fails);
    if !r.Hid? { return false, false; }
    published := true;
    ghost var items := if NoOwner(owner) then [] else ItemsOf(read.value);
    if !NoOwner(owner) {
      ManifestItems(read.value, rules);
      OneOwner(db.users, owner.value);
    }
    PublishedExactly(db, owner, items, demo);
    ghost var done := if demoFails > |monitors| then |monitors| else if demoFails == 0 then 0 else demoFails - 1;
    StartedExactly(db, owner, items, demo, hash, monitors, done);
    ok := Demo.SeedDemo(store, monitors, maxMonitors, demo, hash, validTarget, demoFails);
  }
}
