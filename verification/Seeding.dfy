/** The upsert on (user_id, seed_key) that both seeds of the API loop over
    (sentinel-api/src/status/status-seed.ts, sentinel-api/src/demo/demo-seed.ts). */
module Seeding {
  import opened Schema

  /** The columns a seed writes; the row also becomes active and its failure counter zero. */
  datatype Values = Values(name: string, target: string, checkType: string, frequency: int, isPublic: bool)

  datatype Item = Item(key: string, values: Values)

  function Write(row: Monitor, v: Values): Monitor {
    row.(name := v.name, target := v.target, checkType := v.checkType, frequency := v.frequency,
         isPublic := v.isPublic, active := true, failures := 0)
  }

  function NewRow(owner: nat, item: Item): Monitor {
    Write(Monitor(owner, Some(item.key), "", "", "", 0, true, false, None, None, 0), item.values)
  }

  predicate HasKey(row: Monitor, owner: nat, key: string) {
    row.owner == owner && row.seedKey == Some(key)
  }

  function FindSeed(monitors: map<nat, Monitor>, owner: nat, key: string): (found: Option<nat>)
    requires SeedKeysUnique(monitors)
    ensures found.Some? ==> found.value in monitors && HasKey(monitors[found.value], owner, key)
    ensures found.None? ==> forall id :: id in monitors ==> !HasKey(monitors[id], owner, key)
  {
    if exists id :: id in monitors && HasKey(monitors[id], owner, key) then
      var id :| id in monitors && HasKey(monitors[id], owner, key);
      Some(id)
    else None
  }

  function Upsert(db: Db, owner: nat, item: Item): Db
    requires SeedKeysUnique(db.monitors)
  {
    match FindSeed(db.monitors, owner, item.key)
    case Some(id) => Edit(db, id, Write(db.monitors[id], item.values))
    case None => Insert(db, NewRow(owner, item))
  }

  lemma EditKeepsKeys(monitors: map<nat, Monitor>, id: nat, row: Monitor)
    requires SeedKeysUnique(monitors) && id in monitors
    requires row.owner == monitors[id].owner && row.seedKey == monitors[id].seedKey
    ensures SeedKeysUnique(monitors[id := row])
  {
  }

  lemma InsertKeepsKeys(monitors: map<nat, Monitor>, id: nat, row: Monitor, key: string)
    requires SeedKeysUnique(monitors) && id !in monitors && row.seedKey == Some(key)
    requires forall i :: i in monitors ==> !HasKey(monitors[i], row.owner, key)
    ensures SeedKeysUnique(monitors[id := row])
  {
  }

  /** `db'` differs from `db` by one row, the one of the item's key. */
  ghost predicate WroteItem(db: Db, db': Db, owner: nat, item: Item, at: nat) {
    && at in db'.monitors && db'.monitors.Keys == db.monitors.Keys + {at}
    && (forall id :: id in db.monitors && id != at ==> db'.monitors[id] == db.monitors[id])
    && (forall id :: id in db.monitors && id != at ==> !HasKey(db.monitors[id], owner, item.key))
    && (at in db.monitors ==> HasKey(db.monitors[at], owner, item.key)
                              && db'.monitors[at] == Write(db.monitors[at], item.values))
    && (at !in db.monitors ==> db'.monitors[at] == NewRow(owner, item))
  }

  /** One upsert writes the row of its key, creating it if there is none, and no other row. */
  lemma UpsertEffect(db: Db, owner: nat, item: Item) returns (at: nat)
    requires Linked(db) && SeedKeysUnique(db.monitors)
    ensures var db' := Upsert(db, owner, item);
      Linked(db') && SeedKeysUnique(db'.monitors) && Rely(db, db') && WroteItem(db, db', owner, item, at)
  {
    var found := FindSeed(db.monitors, owner, item.key);
    if found.Some? {
      at := found.value;
      EditEffect(db, owner, item, at);
    } else {
      at := db.nextMonitor;
      InsertEffect(db, owner, item);
    }
  }

  lemma EditEffect(db: Db, owner: nat, item: Item, at: nat)
    requires Linked(db) && SeedKeysUnique(db.monitors) && at in db.monitors && HasKey(db.monitors[at], owner, item.key)
    ensures var db' := Edit(db, at, Write(db.monitors[at], item.values));
      Linked(db') && SeedKeysUnique(db'.monitors) && Rely(db, db') && WroteItem(db, db', owner, item, at)
  {
    var row := Write(db.monitors[at], item.values);
    EditMeetsRely(db, at, row);
    EditKeepsKeys(db.monitors, at, row);
    OnlyOneHasKey(db.monitors, owner, item.key, at);
    assert (db.monitors[at := row]).Keys == db.monitors.Keys + {at};
  }

  lemma InsertEffect(db: Db, owner: nat, item: Item)
    requires Linked(db) && SeedKeysUnique(db.monitors)
    requires forall id :: id in db.monitors ==> !HasKey(db.monitors[id], owner, item.key)
    ensures var db' := Insert(db, NewRow(owner, item));
      && Linked(db') && SeedKeysUnique(db'.monitors) && Rely(db, db')
      && WroteItem(db, db', owner, item, db.nextMonitor)
  {
    InsertMeetsRely(db, NewRow(owner, item));
    InsertKeepsKeys(db.monitors, db.nextMonitor, NewRow(owner, item), item.key);
  }

  lemma OnlyOneHasKey(monitors: map<nat, Monitor>, owner: nat, key: string, at: nat)
    requires SeedKeysUnique(monitors) && at in monitors && HasKey(monitors[at], owner, key)
    ensures forall id :: id in monitors && id != at ==> !HasKey(monitors[id], owner, key)
  {
  }

  function UpsertAll(db: Db, owner: nat, items: seq<Item>): (db': Db)
    requires Linked(db) && SeedKeysUnique(db.monitors)
    ensures Linked(db') && SeedKeysUnique(db'.monitors)
    ensures db'.users == db.users && db'.nextUser == db.nextUser
  {
    if items == [] then db
    else
      var before := UpsertAll(db, owner, items[..|items| - 1]);
      assert Linked(Upsert(before, owner, items[|items| - 1]))
          && SeedKeysUnique(Upsert(before, owner, items[|items| - 1]).monitors) by {
        var _ := UpsertEffect(before, owner, items[|items| - 1]);
      }
      Upsert(before, owner, items[|items| - 1])
  }

  /** What a loop needs to know of its next turn. */
  lemma UpsertNext(db: Db, owner: nat, items: seq<Item>, i: nat)
    requires Linked(db) && SeedKeysUnique(db.monitors) && i < |items|
    ensures UpsertAll(db, owner, items[..i + 1]) == Upsert(UpsertAll(db, owner, items[..i]), owner, items[i])
  {
    assert items[..i + 1][..i] == items[..i];
  }

  ghost predicate DistinctKeys(items: seq<Item>) {
    forall i, j :: 0 <= i < j < |items| ==> items[i].key != items[j].key
  }

  ghost predicate Keyed(row: Monitor, owner: nat, items: seq<Item>) {
    exists i :: 0 <= i < |items| && HasKey(row, owner, items[i].key)
  }

  /** What a loop of upserts did to a row that was there before. */
  ghost predicate RowUpserted(row: Monitor, row': Monitor, owner: nat, items: seq<Item>) {
    && (!Keyed(row, owner, items) ==> row' == row)
    && (forall i :: 0 <= i < |items| && HasKey(row, owner, items[i].key) ==> row' == Write(row, items[i].values))
  }

  ghost predicate Created(row: Monitor, owner: nat, items: seq<Item>) {
    exists i :: 0 <= i < |items| && row == NewRow(owner, items[i])
  }

  ghost predicate Present(monitors: map<nat, Monitor>, owner: nat, key: string) {
    exists id :: id in monitors && HasKey(monitors[id], owner, key)
  }

  /** What a loop of upserts did: keyed rows hold the items' values, one for each item; rows
      with other keys are as they were; every new row is one of an item. */
  ghost predicate Upserted(db: Db, db': Db, owner: nat, items: seq<Item>) {
    && Rely(db, db') && db.monitors.Keys <= db'.monitors.Keys
    && (forall id :: id in db.monitors ==> RowUpserted(db.monitors[id], db'.monitors[id], owner, items))
    && (forall id :: id in db'.monitors && id !in db.monitors ==> Created(db'.monitors[id], owner, items))
    && (forall i :: 0 <= i < |items| ==> Present(db'.monitors, owner, items[i].key))
  }

  lemma {:induction false} UpsertAllEffect(db: Db, owner: nat, items: seq<Item>)
    requires Linked(db) && SeedKeysUnique(db.monitors) && DistinctKeys(items)
    ensures Upserted(db, UpsertAll(db, owner, items), owner, items)
  {
    if items == [] {
      RelyReflexive(db);
    } else {
      var before, last := items[..|items| - 1], items[|items| - 1];
      assert items == before + [last];
      FewerKeys(before, last);
      UpsertAllEffect(db, owner, before);
      OneMoreUpsert(db, UpsertAll(db, owner, before), owner, before, last);
    }
  }

  lemma FewerKeys(before: seq<Item>, last: Item)
    requires DistinctKeys(before + [last])
    ensures DistinctKeys(before)
  {
    forall i, j | 0 <= i < j < |before| ensures before[i].key != before[j].key {
      assert before[i] == (before + [last])[i] && before[j] == (before + [last])[j];
    }
  }

  lemma OneMoreUpsert(db: Db, mid: Db, owner: nat, before: seq<Item>, last: Item)
    requires Linked(db) && Linked(mid) && SeedKeysUnique(mid.monitors)
    requires Upserted(db, mid, owner, before) && DistinctKeys(before + [last])
    ensures Upserted(db, Upsert(mid, owner, last), owner, before + [last])
  {
    var at := UpsertEffect(mid, owner, last);
    RelyTransitive(db, mid, Upsert(mid, owner, last));
    UpsertedMore(db, mid, Upsert(mid, owner, last), owner, before, last, at);
  }

  lemma RowsUpsertedMore(db: Db, mid: Db, db': Db, owner: nat, before: seq<Item>, last: Item, at: nat)
    requires Upserted(db, mid, owner, before) && DistinctKeys(before + [last])
    requires WroteItem(mid, db', owner, last, at)
    ensures forall id :: id in db.monitors ==>
      id in db'.monitors && RowUpserted(db.monitors[id], db'.monitors[id], owner, before + [last])
  {
    forall id | id in db.monitors
      ensures id in db'.monitors && RowUpserted(db.monitors[id], db'.monitors[id], owner, before + [last])
    {
      assert RowUpserted(db.monitors[id], mid.monitors[id], owner, before);
      KeptKey(db.monitors[id], mid.monitors[id], owner, before);
      OneRowMore(db.monitors[id], mid.monitors[id], db'.monitors[id], owner, before, last);
    }
  }

  lemma KeptKey(row: Monitor, row': Monitor, owner: nat, items: seq<Item>)
    requires RowUpserted(row, row', owner, items)
    ensures row'.owner == row.owner && row'.seedKey == row.seedKey
  {
    if Keyed(row, owner, items) {
      var i :| 0 <= i < |items| && HasKey(row, owner, items[i].key);
      assert row' == Write(row, items[i].values);
    }
  }

  lemma NewRowsAreCreated(db: Db, mid: Db, db': Db, owner: nat, before: seq<Item>, last: Item, at: nat, id: nat)
    requires Upserted(db, mid, owner, before) && DistinctKeys(before + [last])
    requires WroteItem(mid, db', owner, last, at) && id in db'.monitors && id !in db.monitors
    ensures Created(db'.monitors[id], owner, before + [last])
  {
    if id in mid.monitors {
      NotRewritten(db, mid, owner, before, last, id);
      CreatedMore(db'.monitors[id], owner, before, last);
    } else {
      assert db'.monitors[id] == NewRow(owner, (before + [last])[|before|]);
    }
  }

  lemma UpsertedMore(db: Db, mid: Db, db': Db, owner: nat, before: seq<Item>, last: Item, at: nat)
    requires Upserted(db, mid, owner, before) && Rely(db, db') && DistinctKeys(before + [last])
    requires WroteItem(mid, db', owner, last, at)
    ensures Upserted(db, db', owner, before + [last])
  {
    RowsUpsertedMore(db, mid, db', owner, before, last, at);
    AllNewRowsAreCreated(db, mid, db', owner, before, last, at);
    AllPresent(mid, db', owner, before, last, at);
  }

  lemma AllNewRowsAreCreated(db: Db, mid: Db, db': Db, owner: nat, before: seq<Item>, last: Item, at: nat)
    requires Upserted(db, mid, owner, before) && DistinctKeys(before + [last])
    requires WroteItem(mid, db', owner, last, at)
    ensures forall id :: id in db'.monitors && id !in db.monitors ==> Created(db'.monitors[id], owner, before + [last])
  {
    forall id | id in db'.monitors && id !in db.monitors ensures Created(db'.monitors[id], owner, before + [last]) {
      NewRowsAreCreated(db, mid, db', owner, before, last, at, id);
    }
  }

  lemma AllPresent(mid: Db, db': Db, owner: nat, before: seq<Item>, last: Item, at: nat)
    requires forall i :: 0 <= i < |before| ==> Present(mid.monitors, owner, before[i].key)
    requires WroteItem(mid, db', owner, last, at)
    ensures forall i :: 0 <= i < |before + [last]| ==> Present(db'.monitors, owner, (before + [last])[i].key)
  {
    forall i | 0 <= i < |before + [last]| ensures Present(db'.monitors, owner, (before + [last])[i].key) {
      if i < |before| {
        StillPresent(mid, db', owner, last, at, before[i].key);
      } else {
        assert HasKey(db'.monitors[at], owner, last.key);
      }
    }
  }

  lemma StillPresent(mid: Db, db': Db, owner: nat, last: Item, at: nat, key: string)
    requires Present(mid.monitors, owner, key) && WroteItem(mid, db', owner, last, at)
    ensures Present(db'.monitors, owner, key)
  {
    var id :| id in mid.monitors && HasKey(mid.monitors[id], owner, key);
    assert HasKey(db'.monitors[id], owner, key);
  }

  /** Among rows of distinct keys, a row new in `mid` has an earlier key. */
  lemma NotRewritten(db: Db, mid: Db, owner: nat, before: seq<Item>, last: Item, id: nat)
    requires Upserted(db, mid, owner, before) && DistinctKeys(before + [last])
    requires id in mid.monitors && id !in db.monitors
    ensures !HasKey(mid.monitors[id], owner, last.key)
  {
    assert Created(mid.monitors[id], owner, before);
    var i :| 0 <= i < |before| && mid.monitors[id] == NewRow(owner, before[i]);
    assert (before + [last])[i].key != (before + [last])[|before|].key;
  }

  lemma CreatedMore(row: Monitor, owner: nat, before: seq<Item>, last: Item)
    requires Created(row, owner, before)
    ensures Created(row, owner, before + [last])
  {
    var i :| 0 <= i < |before| && row == NewRow(owner, before[i]);
    assert (before + [last])[i] == before[i];
  }

  lemma OneRowMore(row: Monitor, mid: Monitor, row': Monitor, owner: nat, before: seq<Item>, last: Item)
    requires RowUpserted(row, mid, owner, before) && DistinctKeys(before + [last])
    requires HasKey(mid, owner, last.key) ==> row' == Write(mid, last.values)
    requires !HasKey(mid, owner, last.key) ==> row' == mid
    requires mid.owner == row.owner && mid.seedKey == row.seedKey
    ensures RowUpserted(row, row', owner, before + [last])
  {
    var items := before + [last];
    assert Keyed(row, owner, before) ==> Keyed(row, owner, items) by {
      if Keyed(row, owner, before) {
        var i :| 0 <= i < |before| && HasKey(row, owner, before[i].key);
        assert HasKey(row, owner, items[i].key);
      }
    }
    assert HasKey(row, owner, last.key) ==> HasKey(row, owner, items[|before|].key);
    forall i | 0 <= i < |items| && HasKey(row, owner, items[i].key) ensures row' == Write(row, items[i].values) {
      if i < |before| {
        assert items[i].key != items[|before|].key;
        assert items[i] == before[i];
      } else if Keyed(row, owner, before) {
        var k :| 0 <= k < |before| && HasKey(row, owner, before[k].key);
        assert items[k].key != items[|before|].key;
      }
    }
  }

  /** `db'` keeps `db`'s monitors with their owners, and other users' rows whole; its new monitors
      are the owner's. */
  ghost predicate OnlyOwners(db: Db, db': Db, owner: nat) {
    && db'.users == db.users && db'.nextUser == db.nextUser
    && (forall id :: id in db.monitors ==> id in db'.monitors && db'.monitors[id].owner == db.monitors[id].owner)
    && (forall id :: id in db.monitors && db.monitors[id].owner != owner ==>
          id in db'.monitors && db'.monitors[id] == db.monitors[id])
    && (forall id :: id in db'.monitors && id !in db.monitors ==> db'.monitors[id].owner == owner)
  }

  ghost predicate PublishesNothing(db: Db, db': Db) {
    forall id :: id in db'.monitors && db'.monitors[id].isPublic ==> id in db.monitors && db.monitors[id].isPublic
  }

  ghost predicate NonePublic(items: seq<Item>) {
    forall i :: 0 <= i < |items| ==> !items[i].values.isPublic
  }

  lemma WriteIsOwners(db: Db, mid: Db, db': Db, owner: nat, item: Item, at: nat)
    requires OnlyOwners(db, mid, owner) && WroteItem(mid, db', owner, item, at)
    requires db'.users == mid.users && db'.nextUser == mid.nextUser
    ensures OnlyOwners(db, db', owner)
  {
  }

  lemma WritePublishesNothing(db: Db, mid: Db, db': Db, owner: nat, item: Item, at: nat)
    requires PublishesNothing(db, mid) && WroteItem(mid, db', owner, item, at) && !item.values.isPublic
    ensures PublishesNothing(db, db')
  {
  }

  lemma {:induction false} UpsertAllMeetsRely(db: Db, owner: nat, items: seq<Item>)
    requires Linked(db) && SeedKeysUnique(db.monitors)
    ensures Rely(db, UpsertAll(db, owner, items))
  {
    if items == [] {
      RelyReflexive(db);
    } else {
      UpsertAllMeetsRely(db, owner, items[..|items| - 1]);
      var mid := UpsertAll(db, owner, items[..|items| - 1]);
      var at := UpsertEffect(mid, owner, items[|items| - 1]);
      RelyTransitive(db, mid, UpsertAll(db, owner, items));
    }
  }

  /** Whatever the keys, a loop of upserts leaves other users' rows alone. */
  lemma {:induction false} UpsertAllOthers(db: Db, owner: nat, items: seq<Item>)
    requires Linked(db) && SeedKeysUnique(db.monitors)
    ensures OnlyOwners(db, UpsertAll(db, owner, items), owner)
  {
    if items != [] {
      UpsertAllOthers(db, owner, items[..|items| - 1]);
      var mid := UpsertAll(db, owner, items[..|items| - 1]);
      var at := UpsertEffect(mid, owner, items[|items| - 1]);
      WriteIsOwners(db, mid, UpsertAll(db, owner, items), owner, items[|items| - 1], at);
    }
  }

  lemma {:induction false} UpsertAllPrivate(db: Db, owner: nat, items: seq<Item>)
    requires Linked(db) && SeedKeysUnique(db.monitors) && NonePublic(items)
    ensures PublishesNothing(db, UpsertAll(db, owner, items))
  {
    if items != [] {
      var before, last := items[..|items| - 1], items[|items| - 1];
      assert NonePublic(before) && !last.values.isPublic;
      UpsertAllPrivate(db, owner, before);
      var mid := UpsertAll(db, owner, before);
      var at := UpsertEffect(mid, owner, last);
      WritePublishesNothing(db, mid, UpsertAll(db, owner, items), owner, last, at);
    }
  }
}
