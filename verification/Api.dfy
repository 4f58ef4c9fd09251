/** The monitor operations of the REST API (sentinel-api/src/monitors/monitors.service.ts). */
module Api {
  import opened Schema

  function CreateMonitor(db: Db, user: nat, name: string, target: string, checkType: string, frequency: int): Db {
    Insert(db, Monitor(user, None, name, target, checkType, frequency, true, false, None, None, 0))
  }

  /** The optional fields of an update; an absent one is left alone. */
  datatype Update = Update(name: Option<string>, target: Option<string>, checkType: Option<string>,
                           frequency: Option<int>)

  function Or<T>(field: Option<T>, current: T): T { if field.Some? then field.value else current }

  function Updated(row: Monitor, u: Update): Monitor {
    row.(name := Or(u.name, row.name), target := Or(u.target, row.target),
         checkType := Or(u.checkType, row.checkType), frequency := Or(u.frequency, row.frequency))
  }

  lemma CreateMeetsRely(db: Db, user: nat, name: string, target: string, checkType: string, frequency: int)
    requires Linked(db)
    ensures Rely(db, CreateMonitor(db, user, name, target, checkType, frequency))
  {
    InsertMeetsRely(db, Monitor(user, None, name, target, checkType, frequency, true, false, None, None, 0));
  }

  /** What the owner asked for is stored, in an active private row that has not been checked yet. */
  lemma CreateEffect(db: Db, user: nat, name: string, target: string, checkType: string, frequency: int)
    requires Linked(db)
    ensures var db' := CreateMonitor(db, user, name, target, checkType, frequency);
      && Linked(db') && db.nextMonitor !in db.monitors && db'.nextMonitor > db.nextMonitor
      && (forall id :: id in db'.monitors <==> id in db.monitors || id == db.nextMonitor)
      && (forall id :: id in db.monitors ==> db'.monitors[id] == db.monitors[id])
      && var row := db'.monitors[db.nextMonitor];
      && (row.owner, row.name, row.target, row.checkType) == (user, name, target, checkType)
      && row.frequency == frequency && row.active && !row.isPublic && row.seedKey == None
      && row.lastState == None && row.lastCheckedAt == None && row.failures == 0
  {
    InsertMeetsRely(db, Monitor(user, None, name, target, checkType, frequency, true, false, None, None, 0));
  }

  /** Each field that is given is stored; nothing else of the row changes, and no other row. */
  lemma UpdateEffect(db: Db, id: nat, u: Update)
    requires Linked(db) && id in db.monitors
    ensures var db', row := Edit(db, id, Updated(db.monitors[id], u)), db.monitors[id];
      && Linked(db') && db'.monitors.Keys == db.monitors.Keys
      && (forall i :: i in db.monitors && i != id ==> db'.monitors[i] == db.monitors[i])
      && var row' := db'.monitors[id];
      && (if u.name.Some? then row'.name == u.name.value else row'.name == row.name)
      && (if u.target.Some? then row'.target == u.target.value else row'.target == row.target)
      && (if u.checkType.Some? then row'.checkType == u.checkType.value else row'.checkType == row.checkType)
      && (if u.frequency.Some? then row'.frequency == u.frequency.value else row'.frequency == row.frequency)
      && (row'.owner, row'.seedKey, row'.active, row'.isPublic) == (row.owner, row.seedKey, row.active, row.isPublic)
      && (row'.lastState, row'.lastCheckedAt, row'.failures) == (row.lastState, row.lastCheckedAt, row.failures)
  {
    EditMeetsRely(db, id, Updated(db.monitors[id], u));
  }

  lemma UpdateMeetsRely(db: Db, id: nat, u: Update)
    requires Linked(db) && id in db.monitors
    ensures Rely(db, Edit(db, id, Updated(db.monitors[id], u)))
  {
    EditMeetsRely(db, id, Updated(db.monitors[id], u));
  }

  /** Results first, then alerts, then the monitor, in one transaction; only for its owner.
      The cascading delete leaves no history behind and no other monitor changed. */
  method DeleteMonitor(store: Database, id: nat, user: nat, fails: bool) returns (found: bool)
    requires Linked(store.committed)
    modifies store
    ensures found <==> id in old(store.committed).monitors && old(store.committed).monitors[id].owner == user
    ensures store.committed == if found && !fails then Without(old(store.committed), {id}) else old(store.committed)
    ensures found && !fails ==> id !in store.committed.monitors
    ensures Rely(old(store.committed), store.committed) && Linked(store.committed)
  {
    RelyReflexive(store.committed);
    if id !in store.committed.monitors || store.committed.monitors[id].owner != user { return false; }
    var staged := store.committed;
    staged := staged.(results := map r | r in staged.results && staged.results[r].monitorId != id :: staged.results[r]);
    staged := staged.(alerts := map a | a in staged.alerts && staged.alerts[a].monitorId != id :: staged.alerts[a]);
    staged := staged.(monitors := staged.monitors - {id});
    StagedDelete(store.committed, id, staged);
    if !fails { store.committed := staged; }
    return true;
  }

  lemma StagedDelete(db: Db, id: nat, staged: Db)
    requires Linked(db)
    requires staged == db.(
      results := map r | r in db.results && db.results[r].monitorId != id :: db.results[r],
      alerts := map a | a in db.alerts && db.alerts[a].monitorId != id :: db.alerts[a],
      monitors := db.monitors - {id})
    ensures staged == Without(db, {id}) && Rely(db, staged) && Linked(staged)
  {
    StagedIsWithout(db, id, staged);
    DeletingMeetsRely(db, {id});
    RelyKeepsLinked(db, Without(db, {id}));
  }

  lemma StagedIsWithout(db: Db, id: nat, staged: Db)
    requires staged == db.(
      results := map r | r in db.results && db.results[r].monitorId != id :: db.results[r],
      alerts := map a | a in db.alerts && db.alerts[a].monitorId != id :: db.alerts[a],
      monitors := db.monitors - {id})
    ensures staged == Without(db, {id})
  {
  }
}
