/** Publication of the status manifest (sentinel-api/src/status/status-seed.ts). */
module StatusSeed {
  import opened Schema
  import opened Seeding

  // ----- The manifest -----

  datatype Frequency = Absent | Whole(seconds: int) | NotWhole

  /** An entry as parsed from JSON: a field that is not a string is None. */
  datatype Entry = Missing
    | Entry(seedKey: Option<string>, name: Option<string>, target: Option<string>, frequency: Frequency)

  /** String checks the seed takes from elsewhere: trimming, the target validator, the address pattern. */
  datatype Rules = Rules(blank: string -> bool, validTarget: string -> bool, validEmail: string -> bool,
                         lower: string -> string)

  predicate EntryOk(e: Entry, rules: Rules) {
    && e.Entry?
    && e.seedKey.Some? && !rules.blank(e.seedKey.value)
    && e.name.Some? && !rules.blank(e.name.value)
    && e.target.Some? && rules.validTarget(e.target.value)
    && !e.frequency.NotWhole? && (e.frequency.Whole? ==> e.frequency.seconds > 0)
  }

  /** Every entry has a key and a name that are not blank, a valid target, and a frequency that is a
      positive number of seconds unless it is absent; no two have one key. */
  ghost predicate ManifestOk(manifest: seq<Entry>, rules: Rules) {
    && (forall i :: 0 <= i < |manifest| ==> IsComplete(manifest[i], rules))
    && (forall i, j :: 0 <= i < j < |manifest| ==> manifest[i].seedKey != manifest[j].seedKey)
  }

  ghost predicate IsComplete(e: Entry, rules: Rules) {
    && e != Missing && e.seedKey != None && e.name != None && e.target != None
    && !rules.blank(e.seedKey.value) && !rules.blank(e.name.value) && rules.validTarget(e.target.value)
    && (e.frequency == Absent || (e.frequency.Whole? && e.frequency.seconds >= 1))
  }

  function Text(field: Option<string>): string { if field.Some? then field.value else "" }

  /** What is upserted for a valid entry. */
  function ItemOf(e: Entry): Item {
    if e.Missing? then Item("", Values("", "", "http", 60, true))
    else Item(Text(e.seedKey),
              Values(Text(e.name), Text(e.target), "http", if e.frequency.Whole? then e.frequency.seconds else 60,
                     true))
  }

  function ItemsOf(manifest: seq<Entry>): (items: seq<Item>)
    ensures |items| == |manifest| && forall i :: 0 <= i < |items| ==> items[i] == ItemOf(manifest[i])
  {
    seq(|manifest|, i requires 0 <= i < |manifest| => ItemOf(manifest[i]))
  }

  /** The validation loop: it accepts exactly the manifests whose entries are all valid and whose
      keys are all different. */
  method Validate(manifest: seq<Entry>, rules: Rules) returns (ok: bool, keys: set<string>)
    ensures ok <==> ManifestOk(manifest, rules)
    ensures ok ==> keys == KeysOf(ItemsOf(manifest))
  {
    keys := {};
    var i := 0;
    while i < |manifest|
      invariant 0 <= i <= |manifest| && ManifestOk(manifest[..i], rules)
      invariant forall k :: k in keys <==> exists j :: 0 <= j < i && manifest[j].seedKey == Some(k)
    {
      var e := manifest[i];
      NextEntry(manifest, rules, i);
      if !EntryOk(e, rules) || e.seedKey.value in keys {
        return false, keys;
      }
      keys := keys + {e.seedKey.value};
      i := i + 1;
    }
    assert manifest[..i] == manifest;
    KeysAreOfItems(manifest, rules, keys);
    return true, keys;
  }

  /** What the loop needs to know of its next entry. */
  lemma NextEntry(manifest: seq<Entry>, rules: Rules, i: nat)
    requires i < |manifest| && ManifestOk(manifest[..i], rules)
    ensures ManifestOk(manifest[..i + 1], rules) <==>
      EntryOk(manifest[i], rules) && forall j :: 0 <= j < i ==> manifest[j].seedKey != manifest[i].seedKey
    ensures !ManifestOk(manifest[..i + 1], rules) ==> !ManifestOk(manifest, rules)
  {
    var before, longer := manifest[..i], manifest[..i + 1];
    assert longer == before + [manifest[i]];
    forall j | 0 <= j <= i ensures longer[j] == manifest[j] {
    }
  }

  lemma KeysAreOfItems(manifest: seq<Entry>, rules: Rules, keys: set<string>)
    requires ManifestOk(manifest, rules)
    requires forall k :: k in keys <==> exists j :: 0 <= j < |manifest| && manifest[j].seedKey == Some(k)
    ensures keys == KeysOf(ItemsOf(manifest))
  {
    forall k ensures k in keys <==> k in KeysOf(ItemsOf(manifest)) {
      if k in keys {
        var j :| 0 <= j < |manifest| && manifest[j].seedKey == Some(k);
        assert ItemsOf(manifest)[j].key == k;
      }
      if k in KeysOf(ItemsOf(manifest)) {
        var j :| 0 <= j < |manifest| && ItemsOf(manifest)[j].key == k;
        assert IsComplete(manifest[j], rules);
      }
    }
  }

  function KeysOf(items: seq<Item>): set<string> { set i | 0 <= i < |items| :: items[i].key }

  // ----- Hiding the rest -----

  /** SQL truth values. */
  datatype Truth = Yes | No | Unknown

  function Of(b: bool): Truth { if b then Yes else No }

  function AndAlso(a: Truth, b: Truth): Truth {
    if a == No || b == No then No else if a == Yes && b == Yes then Yes else Unknown
  }

  function OrElse(a: Truth, b: Truth): Truth {
    if a == Yes || b == Yes then Yes else if a == No && b == No then No else Unknown
  }

  /** NOT IN over a nullable column. */
  function NotIn(column: Option<string>, keys: set<string>): Truth {
    if column.None? then Unknown else Of(column.value !in keys)
  }

  function Where(row: Monitor, owner: nat, keys: set<string>): Truth {
    AndAlso(Of(row.isPublic),
      OrElse(Of(row.owner != owner),
        OrElse(AndAlso(Of(row.owner == owner), Of(row.seedKey.None?)),
               AndAlso(Of(row.owner == owner), NotIn(row.seedKey, keys)))))
  }

  /** The rows the final update hides; an empty manifest hides every public row. */
  predicate Hides(row: Monitor, owner: nat, keys: set<string>) {
    if keys == {} then row.isPublic else Where(row, owner, keys) == Yes
  }

  /** The owner's row with a key of the manifest. */
  predicate Wanted(row: Monitor, owner: nat, keys: set<string>) {
    row.owner == owner && row.seedKey.Some? && row.seedKey.value in keys
  }

  /** The three-way OR is, NULLs included, the exact complement of what is wanted among the
      public rows; without its middle part it would leave the owner's NULL-key rows public. */
  lemma HidesComplement(row: Monitor, owner: nat, keys: set<string>)
    ensures Hides(row, owner, keys) <==> row.isPublic && !Wanted(row, owner, keys)
    ensures var twoWay := AndAlso(Of(row.isPublic),
        OrElse(Of(row.owner != owner), AndAlso(Of(row.owner == owner), NotIn(row.seedKey, keys))));
      twoWay == Yes <==> row.isPublic && !Wanted(row, owner, keys) && !(row.owner == owner && row.seedKey.None?)
  {
  }

  function HiddenIds(db: Db, owner: nat, keys: set<string>): set<nat> {
    set id | id in db.monitors && Hides(db.monitors[id], owner, keys)
  }

  function Hide(db: Db, ids: set<nat>): Db {
    db.(monitors := map id | id in db.monitors ::
      if id in ids then db.monitors[id].(isPublic := false) else db.monitors[id])
  }

  lemma HideKeeps(db: Db, ids: set<nat>)
    requires Linked(db) && SeedKeysUnique(db.monitors)
    ensures Linked(Hide(db, ids)) && SeedKeysUnique(Hide(db, ids).monitors) && Rely(db, Hide(db, ids))
  {
  }

  /** These rows are not public any more; nothing else of them changes, and no other row. */
  lemma HideEffect(db: Db, ids: set<nat>)
    ensures var db' := Hide(db, ids);
      && db' == db.(monitors := db'.monitors) && db'.monitors.Keys == db.monitors.Keys
      && forall id :: id in db.monitors ==>
          db'.monitors[id] == db.monitors[id].(isPublic := id !in ids && db.monitors[id].isPublic)
  {
    assert Hide(db, ids).monitors.Keys == db.monitors.Keys;
  }

  // ----- The reconciled database -----

  function Reconciled(db: Db, owner: nat, items: seq<Item>): (db': Db)
    requires Linked(db) && SeedKeysUnique(db.monitors)
    ensures db'.users == db.users && db'.nextUser == db.nextUser
  {
    var upserted := UpsertAll(db, owner, items);
    Hide(upserted, HiddenIds(upserted, owner, KeysOf(items)))
  }

  lemma ReconciledKeeps(db: Db, owner: nat, items: seq<Item>)
    requires Linked(db) && SeedKeysUnique(db.monitors) && DistinctKeys(items)
    ensures var db' := Reconciled(db, owner, items);
      Linked(db') && SeedKeysUnique(db'.monitors) && Rely(db, db')
  {
    var upserted := UpsertAll(db, owner, items);
    UpsertAllEffect(db, owner, items);
    HideKeeps(upserted, HiddenIds(upserted, owner, KeysOf(items)));
    RelyTransitive(db, upserted, Reconciled(db, owner, items));
  }

  lemma KeyedIsWanted(row: Monitor, owner: nat, items: seq<Item>)
    ensures Keyed(row, owner, items) <==> Wanted(row, owner, KeysOf(items))
  {
    if Wanted(row, owner, KeysOf(items)) {
      var i :| 0 <= i < |items| && items[i].key == row.seedKey.value;
      assert HasKey(row, owner, items[i].key);
    }
  }

  /** Upserted rows are public and hold their item's values. */
  lemma UpsertedRow(db: Db, owner: nat, items: seq<Item>, id: nat)
    requires Linked(db) && SeedKeysUnique(db.monitors) && DistinctKeys(items)
    requires id in UpsertAll(db, owner, items).monitors
    ensures var row := UpsertAll(db, owner, items).monitors[id];
      && (Wanted(row, owner, KeysOf(items)) ==>
            exists i :: 0 <= i < |items| && HasKey(row, owner, items[i].key) && row == Write(row, items[i].values))
      && (id !in db.monitors ==> Wanted(row, owner, KeysOf(items)))
      && (id in db.monitors && !Wanted(row, owner, KeysOf(items)) ==> row == db.monitors[id])
      && (id in db.monitors ==> (Wanted(row, owner, KeysOf(items)) <==> Wanted(db.monitors[id], owner, KeysOf(items))))
  {
    UpsertAllEffect(db, owner, items);
    var upserted := UpsertAll(db, owner, items);
    var row := upserted.monitors[id];
    KeyedIsWanted(row, owner, items);
    if id in db.monitors {
      KeyedIsWanted(db.monitors[id], owner, items);
      assert RowUpserted(db.monitors[id], row, owner, items);
      if Keyed(db.monitors[id], owner, items) {
        var i :| 0 <= i < |items| && HasKey(db.monitors[id], owner, items[i].key);
        assert row == Write(db.monitors[id], items[i].values);
        assert HasKey(row, owner, items[i].key);
      }
    } else {
      assert Created(row, owner, items);
      var i :| 0 <= i < |items| && row == NewRow(owner, items[i]);
      assert HasKey(row, owner, items[i].key);
    }
  }

  ghost predicate AllPublic(items: seq<Item>) {
    forall i :: 0 <= i < |items| ==> items[i].values.isPublic
  }

  /** The row holds what the manifest says for its key. */
  ghost predicate HoldsItem(row: Monitor, owner: nat, items: seq<Item>) {
    exists i :: 0 <= i < |items| && HasKey(row, owner, items[i].key) && row == Write(row, items[i].values)
  }

  /** The row with this id after the seed. */
  lemma ReconciledRow(db: Db, owner: nat, items: seq<Item>, id: nat)
    requires Linked(db) && SeedKeysUnique(db.monitors) && DistinctKeys(items) && AllPublic(items)
    requires id in Reconciled(db, owner, items).monitors
    ensures var row, keys := Reconciled(db, owner, items).monitors[id], KeysOf(items);
      && (row.isPublic <==> Wanted(row, owner, keys))
      && (Wanted(row, owner, keys) ==> HoldsItem(row, owner, items))
      && (id in db.monitors && !Wanted(db.monitors[id], owner, keys) ==> row == db.monitors[id].(isPublic := false))
      && (id !in db.monitors ==> Wanted(row, owner, keys))
  {
    var upserted := UpsertAll(db, owner, items);
    HidesComplement(upserted.monitors[id], owner, KeysOf(items));
    UpsertedRow(db, owner, items, id);
    var row := Reconciled(db, owner, items).monitors[id];
    if Wanted(upserted.monitors[id], owner, KeysOf(items)) {
      var i :| 0 <= i < |items| && HasKey(upserted.monitors[id], owner, items[i].key)
        && upserted.monitors[id] == Write(upserted.monitors[id], items[i].values);
      assert row == upserted.monitors[id];
    }
  }

  lemma ReconciledHasItems(db: Db, owner: nat, items: seq<Item>, i: nat)
    requires Linked(db) && SeedKeysUnique(db.monitors) && DistinctKeys(items) && i < |items|
    ensures db.monitors.Keys <= Reconciled(db, owner, items).monitors.Keys
    ensures Present(Reconciled(db, owner, items).monitors, owner, items[i].key)
  {
    UpsertAllEffect(db, owner, items);
    var upserted := UpsertAll(db, owner, items);
    assert Present(upserted.monitors, owner, items[i].key);
    HideKeepsPresent(upserted, HiddenIds(upserted, owner, KeysOf(items)), owner, items[i].key);
  }

  lemma HideKeepsPresent(db: Db, ids: set<nat>, owner: nat, key: string)
    requires Present(db.monitors, owner, key)
    ensures Present(Hide(db, ids).monitors, owner, key)
  {
    var id :| id in db.monitors && HasKey(db.monitors[id], owner, key);
    assert HasKey(Hide(db, ids).monitors[id], owner, key);
  }

  /** After the seed, on any database: exactly the owner's monitors with a key of the manifest are
      public, each key has its monitor and that monitor the manifest's values, every earlier
      monitor is still there, and the others changed at most in `is_public`. */
  lemma PublishesExactly(db: Db, owner: nat, items: seq<Item>)
    requires Linked(db) && SeedKeysUnique(db.monitors) && DistinctKeys(items) && AllPublic(items)
    ensures var db', keys := Reconciled(db, owner, items), KeysOf(items);
      && (forall id :: id in db'.monitors ==> (db'.monitors[id].isPublic <==> Wanted(db'.monitors[id], owner, keys)))
      && (forall id :: id in db'.monitors && Wanted(db'.monitors[id], owner, keys) ==>
            HoldsItem(db'.monitors[id], owner, items))
      && (forall i :: 0 <= i < |items| ==> Present(db'.monitors, owner, items[i].key))
      && db.monitors.Keys <= db'.monitors.Keys
      && (forall id :: id in db.monitors && !Wanted(db.monitors[id], owner, keys) ==>
            db'.monitors[id] == db.monitors[id].(isPublic := false))
      && (forall id :: id in db'.monitors && id !in db.monitors ==> Wanted(db'.monitors[id], owner, keys))
  {
    var db', keys := Reconciled(db, owner, items), KeysOf(items);
    UpsertAllEffect(db, owner, items);
    forall id | id in db'.monitors
      ensures db'.monitors[id].isPublic <==> Wanted(db'.monitors[id], owner, keys)
      ensures Wanted(db'.monitors[id], owner, keys) ==> HoldsItem(db'.monitors[id], owner, items)
      ensures id in db.monitors && !Wanted(db.monitors[id], owner, keys) ==>
        db'.monitors[id] == db.monitors[id].(isPublic := false)
      ensures id !in db.monitors ==> Wanted(db'.monitors[id], owner, keys)
    {
      ReconciledRow(db, owner, items, id);
    }
    forall i | 0 <= i < |items| ensures Present(db'.monitors, owner, items[i].key) {
      ReconciledHasItems(db, owner, items, i);
    }
  }

  /** The row is a public, active one with all the values of the entry. */
  ghost predicate HoldsEntry(row: Monitor, e: Entry) {
    && e.Entry? && row.seedKey == e.seedKey && Some(row.name) == e.name && Some(row.target) == e.target
    && row.frequency == (if e.frequency.Whole? then e.frequency.seconds else 60) && row.checkType == "http"
    && row.active && row.isPublic && row.failures == 0
  }

  ghost predicate Publishes(rows: map<nat, Monitor>, owner: nat, e: Entry) {
    exists m :: m in rows && rows[m].owner == owner && HoldsEntry(rows[m], e)
  }

  ghost predicate IsOfManifest(row: Monitor, manifest: seq<Entry>) {
    exists i :: 0 <= i < |manifest| && HoldsEntry(row, manifest[i])
  }

  /** In terms of the manifest: each entry has a public monitor of the owner with its values, each
      public monitor is the owner's and has those of an entry, no monitor is lost, and of those that
      are not public nothing else has changed. */
  lemma ManifestIsPublished(db: Db, owner: nat, manifest: seq<Entry>, rules: Rules)
    requires Linked(db) && SeedKeysUnique(db.monitors) && ManifestOk(manifest, rules)
    ensures var rows, rows' := db.monitors, Reconciled(db, owner, ItemsOf(manifest)).monitors;
      && (forall i :: 0 <= i < |manifest| ==> Publishes(rows', owner, manifest[i]))
      && (forall m :: m in rows' && rows'[m].isPublic ==> rows'[m].owner == owner && IsOfManifest(rows'[m], manifest))
      && (forall m :: m in rows ==> m in rows' && (!rows'[m].isPublic ==> rows'[m] == rows[m].(isPublic := false)))
      && (forall m :: m in rows' && m !in rows ==> rows'[m].isPublic)
  {
    var rows' := Reconciled(db, owner, ItemsOf(manifest)).monitors;
    ManifestItems(manifest, rules);
    forall m | m in rows' && rows'[m].isPublic ensures rows'[m].owner == owner && IsOfManifest(rows'[m], manifest) {
      PublicRow(db, owner, manifest, rules, m);
    }
    forall i | 0 <= i < |manifest| ensures Publishes(rows', owner, manifest[i]) {
      EntryRow(db, owner, manifest, rules, i);
    }
    forall m | m in db.monitors
      ensures m in rows' && (!rows'[m].isPublic ==> rows'[m] == db.monitors[m].(isPublic := false))
    {
      OldRow(db, owner, ItemsOf(manifest), m);
    }
    forall m | m in rows' && m !in db.monitors ensures rows'[m].isPublic {
      ReconciledRow(db, owner, ItemsOf(manifest), m);
    }
  }

  lemma PublicRow(db: Db, owner: nat, manifest: seq<Entry>, rules: Rules, m: nat)
    requires Linked(db) && SeedKeysUnique(db.monitors) && ManifestOk(manifest, rules)
    requires m in Reconciled(db, owner, ItemsOf(manifest)).monitors
    ensures var row := Reconciled(db, owner, ItemsOf(manifest)).monitors[m];
      row.isPublic ==> row.owner == owner && IsOfManifest(row, manifest)
  {
    ManifestItems(manifest, rules);
    ReconciledRow(db, owner, ItemsOf(manifest), m);
    var row := Reconciled(db, owner, ItemsOf(manifest)).monitors[m];
    if row.isPublic { var i := HeldItem(row, owner, manifest, rules); }
  }

  lemma EntryRow(db: Db, owner: nat, manifest: seq<Entry>, rules: Rules, i: nat)
    requires Linked(db) && SeedKeysUnique(db.monitors) && ManifestOk(manifest, rules) && i < |manifest|
    ensures Publishes(Reconciled(db, owner, ItemsOf(manifest)).monitors, owner, manifest[i])
  {
    var items, rows := ItemsOf(manifest), Reconciled(db, owner, ItemsOf(manifest)).monitors;
    ManifestItems(manifest, rules);
    ReconciledHasItems(db, owner, items, i);
    var m :| m in rows && HasKey(rows[m], owner, items[i].key);
    ReconciledRow(db, owner, items, m);
    KeyIsWanted(rows[m], owner, items, i);
    var j := HeldItem(rows[m], owner, manifest, rules);
    OneEntry(manifest, rules, i, j);
  }

  lemma KeyIsWanted(row: Monitor, owner: nat, items: seq<Item>, i: nat)
    requires i < |items| && HasKey(row, owner, items[i].key)
    ensures Wanted(row, owner, KeysOf(items))
  {
    assert items[i].key in KeysOf(items);
  }

  lemma OldRow(db: Db, owner: nat, items: seq<Item>, m: nat)
    requires Linked(db) && SeedKeysUnique(db.monitors) && DistinctKeys(items) && AllPublic(items) && m in db.monitors
    ensures var rows' := Reconciled(db, owner, items).monitors;
      m in rows' && (!rows'[m].isPublic ==> rows'[m] == db.monitors[m].(isPublic := false))
  {
    KeyIsKept(db, owner, items, m);
    ReconciledRow(db, owner, items, m);
  }

  /** A row that holds an item of the manifest holds its entry. */
  lemma HeldItem(row: Monitor, owner: nat, manifest: seq<Entry>, rules: Rules) returns (i: nat)
    requires ManifestOk(manifest, rules) && HoldsItem(row, owner, ItemsOf(manifest))
    ensures i < |manifest| && row.owner == owner && HoldsEntry(row, manifest[i])
  {
    var items := ItemsOf(manifest);
    i :| 0 <= i < |items| && HasKey(row, owner, items[i].key) && row == Write(row, items[i].values);
    assert IsComplete(manifest[i], rules);
  }

  lemma OneEntry(manifest: seq<Entry>, rules: Rules, i: nat, j: nat)
    requires ManifestOk(manifest, rules) && i < |manifest| && j < |manifest|
    ensures manifest[i].Entry? && manifest[j].Entry?
    ensures manifest[i].seedKey == manifest[j].seedKey ==> i == j
  {
    assert IsComplete(manifest[i], rules) && IsComplete(manifest[j], rules);
  }

  lemma KeyIsKept(db: Db, owner: nat, items: seq<Item>, m: nat)
    requires Linked(db) && SeedKeysUnique(db.monitors) && DistinctKeys(items) && m in db.monitors
    ensures m in Reconciled(db, owner, items).monitors
    ensures Wanted(db.monitors[m], owner, KeysOf(items)) <==>
      Wanted(Reconciled(db, owner, items).monitors[m], owner, KeysOf(items))
  {
    UpsertAllEffect(db, owner, items);
    UpsertedRow(db, owner, items, m);
  }

  /** Running the seed again changes nothing and hides nothing. */
  lemma SecondSeedChangesNothing(db: Db, owner: nat, items: seq<Item>)
    requires Linked(db) && SeedKeysUnique(db.monitors) && DistinctKeys(items) && AllPublic(items)
    ensures var db' := Reconciled(db, owner, items);
      && Linked(db') && SeedKeysUnique(db'.monitors)
      && HiddenIds(UpsertAll(db', owner, items), owner, KeysOf(items)) == {}
      && Reconciled(db', owner, items) == db'
  {
    var db' := Reconciled(db, owner, items);
    ReconciledKeeps(db, owner, items);
    forall i | 0 <= i < |items| ensures Settled(db', owner, items[i]) {
      ReconciledIsSettled(db, owner, items, i);
    }
    UpsertSettled(db', owner, items);
    NothingLeftToHide(db, owner, items);
    assert Hide(db', {}).monitors == db'.monitors;
  }

  lemma NothingLeftToHide(db: Db, owner: nat, items: seq<Item>)
    requires Linked(db) && SeedKeysUnique(db.monitors) && DistinctKeys(items) && AllPublic(items)
    ensures HiddenIds(Reconciled(db, owner, items), owner, KeysOf(items)) == {}
  {
    var db' := Reconciled(db, owner, items);
    forall id | id in db'.monitors ensures !Hides(db'.monitors[id], owner, KeysOf(items)) {
      ReconciledRow(db, owner, items, id);
      HidesComplement(db'.monitors[id], owner, KeysOf(items));
    }
  }

  lemma ReconciledIsSettled(db: Db, owner: nat, items: seq<Item>, i: nat)
    requires Linked(db) && SeedKeysUnique(db.monitors) && DistinctKeys(items) && AllPublic(items) && i < |items|
    ensures Settled(Reconciled(db, owner, items), owner, items[i])
  {
    var db' := Reconciled(db, owner, items);
    ReconciledHasItems(db, owner, items, i);
    var id :| id in db'.monitors && HasKey(db'.monitors[id], owner, items[i].key);
    ReconciledRow(db, owner, items, id);
    assert Wanted(db'.monitors[id], owner, KeysOf(items));
    var j :| 0 <= j < |items| && HasKey(db'.monitors[id], owner, items[j].key)
      && db'.monitors[id] == Write(db'.monitors[id], items[j].values);
    SameKeySameItem(items, i, j);
  }

  lemma SameKeySameItem(items: seq<Item>, i: nat, j: nat)
    requires DistinctKeys(items) && i < |items| && j < |items| && items[i].key == items[j].key
    ensures i == j
  {
  }

  /** Some row has the item's key, and already its values. */
  ghost predicate Settled(db: Db, owner: nat, item: Item) {
    exists id :: id in db.monitors && HasKey(db.monitors[id], owner, item.key)
      && db.monitors[id] == Write(db.monitors[id], item.values)
  }

  lemma {:induction false} UpsertSettled(db: Db, owner: nat, items: seq<Item>)
    requires Linked(db) && SeedKeysUnique(db.monitors)
    requires forall i :: 0 <= i < |items| ==> Settled(db, owner, items[i])
    ensures UpsertAll(db, owner, items) == db
  {
    if items != [] {
      var before, last := items[..|items| - 1], items[|items| - 1];
      forall i | 0 <= i < |before| ensures Settled(db, owner, before[i]) {
        assert before[i] == items[i];
      }
      UpsertSettled(db, owner, before);
      assert Settled(db, owner, items[|items| - 1]);
      var id :| id in db.monitors && HasKey(db.monitors[id], owner, last.key)
        && db.monitors[id] == Write(db.monitors[id], last.values);
      OnlyOneHasKey(db.monitors, owner, last.key, id);
      assert db.monitors[id := db.monitors[id]] == db.monitors;
    }
  }

  // ----- The seed -----

  const DISABLED_OWNER_PASSWORD := "STATUS_SEED_DISABLED_PASSWORD_SENTINEL"

  datatype Outcome = Hid(count: nat) | BadRequest | Failed

  predicate EmailsUnique(users: map<nat, User>) {
    forall u, v :: u in users && v in users && users[u].email == users[v].email ==> u == v
  }

  /** The unique index on the address, and ids from the sequence. */
  ghost predicate UsersKnown(db: Db) {
    EmailsUnique(db.users) && forall u :: u in db.users ==> u < db.nextUser
  }

  function FindUser(users: map<nat, User>, email: string): (found: Option<nat>)
    requires EmailsUnique(users)
    ensures found.Some? ==> found.value in users && users[found.value].email == email
    ensures found.None? ==> forall u :: u in users ==> users[u].email != email
  {
    if exists u :: u in users && users[u].email == email then
      var u :| u in users && users[u].email == email;
      Some(u)
    else None
  }

  /** Only the account the seed itself created may own the public monitors. */
  predicate MayOwn(u: User) {
    !u.isDemo && !u.isActive && u.password == DISABLED_OWNER_PASSWORD
  }

  /** The database with the owner account, and its id. */
  function WithOwner(db: Db, email: string): (Db, nat)
    requires EmailsUnique(db.users)
  {
    match FindUser(db.users, email)
    case Some(u) => (db, u)
    case None => (db.(users := db.users[db.nextUser := User(email, false, false, DISABLED_OWNER_PASSWORD)],
                      nextUser := db.nextUser + 1), db.nextUser)
  }

  /** Everything the seed checks before it opens its transaction. */
  ghost predicate Accepts(users: map<nat, User>, manifest: Option<seq<Entry>>, owner: string, demo: Option<string>,
                          rules: Rules)
    requires EmailsUnique(users)
  {
    && manifest.Some? && ManifestOk(manifest.value, rules)
    && rules.validEmail(owner)
    && !(demo.Some? && rules.lower(owner) == rules.lower(demo.value))
    && (forall u :: u in users && users[u].email == owner ==> IsSeedOwner(users[u]))
  }

  /** Neither a demo account nor an active one, and nobody can log in to it. */
  ghost predicate IsSeedOwner(u: User) {
    !u.isDemo && !u.isActive && u.password == "STATUS_SEED_DISABLED_PASSWORD_SENTINEL"
  }

  lemma OneOwner(users: map<nat, User>, email: string)
    requires EmailsUnique(users)
    ensures var found := FindUser(users, email);
      found.None? || MayOwn(users[found.value]) <==>
        forall u :: u in users && users[u].email == email ==> IsSeedOwner(users[u])
  {
  }

  ghost predicate NoOwner(owner: Option<string>) { owner.None? || owner.value == "" }

  /** An accepted manifest gives distinct keys and public rows. */
  lemma ManifestItems(manifest: seq<Entry>, rules: Rules)
    requires ManifestOk(manifest, rules)
    ensures DistinctKeys(ItemsOf(manifest)) && AllPublic(ItemsOf(manifest))
  {
    forall i, j | 0 <= i < j < |manifest| ensures ItemsOf(manifest)[i].key != ItemsOf(manifest)[j].key {
      assert IsComplete(manifest[i], rules) && IsComplete(manifest[j], rules);
      assert manifest[i].seedKey != manifest[j].seedKey;
    }
  }

  /** The seed is one of the writers the worker relies on. */
  lemma SeedMeetsRely(db: Db, email: string, items: seq<Item>)
    requires Linked(db) && SeedKeysUnique(db.monitors) && EmailsUnique(db.users) && DistinctKeys(items)
    ensures var (based, id) := WithOwner(db, email);
      && Linked(based) && SeedKeysUnique(based.monitors)
      && Rely(db, Reconciled(based, id, items))
      && Rely(db, Hide(db, set id | id in db.monitors && db.monitors[id].isPublic))
  {
    var (based, id) := WithOwner(db, email);
    assert Linked(based);
    assert Rely(db, based);
    ReconciledKeeps(based, id, items);
    RelyTransitive(db, based, Reconciled(based, id, items));
    HideKeeps(db, set id | id in db.monitors && db.monitors[id].isPublic);
  }

  /** The account under the address. */
  ghost predicate HasOwner(users: map<nat, User>, email: string) {
    exists u :: u in users && users[u].email == email && IsSeedOwner(users[u])
  }

  /** The owner's account is there afterwards, the one there was or a disabled one of its own. */
  lemma OwnerIsKnown(db: Db, email: string)
    requires UsersKnown(db) && forall u :: u in db.users && db.users[u].email == email ==> IsSeedOwner(db.users[u])
    ensures var (based, id) := WithOwner(db, email);
      && UsersKnown(based) && based.monitors == db.monitors
      && id in based.users && based.users[id].email == email && IsSeedOwner(based.users[id])
      && HasOwner(based.users, email)
      && (forall u :: u in db.users ==> u in based.users && based.users[u] == db.users[u])
      && (forall u :: u in based.users && u !in db.users ==> u == id)
  {
  }

  lemma SeedKeeps(db: Db, owner: string, manifest: seq<Entry>, rules: Rules)
    requires Linked(db) && SeedKeysUnique(db.monitors) && UsersKnown(db) && ManifestOk(manifest, rules)
    requires forall u :: u in db.users && db.users[u].email == owner ==> IsSeedOwner(db.users[u])
    ensures var (based, id) := WithOwner(db, owner);
      && Linked(based) && SeedKeysUnique(based.monitors)
      && var db' := Reconciled(based, id, ItemsOf(manifest));
      && Linked(db') && SeedKeysUnique(db'.monitors) && UsersKnown(db') && HasOwner(db'.users, owner)
  {
    var (based, id) := WithOwner(db, owner);
    OwnerIsKnown(db, owner);
    ManifestItems(manifest, rules);
    ReconciledKeeps(based, id, ItemsOf(manifest));
  }

  /** One transaction, or no change: without an owner every monitor is hidden; with one, the
      database becomes the reconciled one, provided every check passed and no statement failed. */
  method Seed(store: Database, manifest: Option<seq<Entry>>, owner: Option<string>, demo: Option<string>,
              rules: Rules, fails: bool) returns (r: Outcome)
    requires var db := store.committed; Linked(db) && SeedKeysUnique(db.monitors) && UsersKnown(db)
    modifies store
    ensures var db := store.committed; Linked(db) && SeedKeysUnique(db.monitors) && UsersKnown(db)
    ensures r.Hid? && !NoOwner(owner) ==> HasOwner(store.committed.users, owner.value)
    ensures var db := old(store.committed);
      if NoOwner(owner) then
        var all := set id | id in db.monitors && db.monitors[id].isPublic;
        if manifest.Some? && ManifestOk(manifest.value, rules) && !fails
        then store.committed == Hide(db, all) && r == Hid(|all|)
        else store.committed == db && !r.Hid?
      else if Accepts(db.users, manifest, owner.value, demo, rules) && !fails then
        var items := ItemsOf(manifest.value);
        var (based, id) := WithOwner(db, owner.value);
        && store.committed == Reconciled(based, id, items)
        && r == Hid(|HiddenIds(UpsertAll(based, id, items), id, KeysOf(items))|)
      else store.committed == db && !r.Hid?
  {
    if manifest.None? { return BadRequest; }
    var ok, keys := Validate(manifest.value, rules);
    if !ok { return BadRequest; }
    if owner.None? || owner.value == "" {
      if fails { return Failed; }
      var hidden, count := HideAll(store.committed);
      store.committed := hidden;
      return Hid(count);
    }
    if !rules.validEmail(owner.value) { return BadRequest; }
    if demo.Some? && rules.lower(owner.value) == rules.lower(demo.value) { return BadRequest; }
    var existing := FindUser(store.committed.users, owner.value);
    OneOwner(store.committed.users, owner.value);
    if existing.Some? && !MayOwn(store.committed.users[existing.value]) { return BadRequest; }

    var staged, count := SeedOwned(store.committed, owner.value, manifest.value, rules, keys);
    if fails { return if existing.None? then BadRequest else Failed; }
    store.committed := staged;
    return Hid(count);
  }

  /** The transaction, on its view of the database: the account, the upserts and the final update. */
  method SeedOwned(db: Db, owner: string, manifest: seq<Entry>, rules: Rules, keys: set<string>)
    returns (staged: Db, count: nat)
    requires Linked(db) && SeedKeysUnique(db.monitors) && UsersKnown(db)
    requires ManifestOk(manifest, rules) && keys == KeysOf(ItemsOf(manifest))
    requires forall u :: u in db.users && db.users[u].email == owner ==> IsSeedOwner(db.users[u])
    ensures Linked(staged) && SeedKeysUnique(staged.monitors) && UsersKnown(staged) && HasOwner(staged.users, owner)
    ensures var (based, id) := WithOwner(db, owner);
      && Linked(based) && staged == Reconciled(based, id, ItemsOf(manifest))
      && count == |HiddenIds(UpsertAll(based, id, ItemsOf(manifest)), id, keys)|
  {
    var (based, id) := WithOwner(db, owner);
    SeedKeeps(db, owner, manifest, rules);
    staged, count := Reconcile(based, id, ItemsOf(manifest), keys);
  }

  /** Every public row. */
  method HideAll(db: Db) returns (hidden: Db, count: nat)
    requires Linked(db) && SeedKeysUnique(db.monitors)
    ensures var all := set id | id in db.monitors && db.monitors[id].isPublic;
      hidden == Hide(db, all) && count == |all|
    ensures Linked(hidden) && SeedKeysUnique(hidden.monitors)
  {
    var all := set id | id in db.monitors && db.monitors[id].isPublic;
    HideKeeps(db, all);
    hidden, count := Hide(db, all), |all|;
  }

  /** The upserts and the final update. */
  method Reconcile(db: Db, owner: nat, items: seq<Item>, keys: set<string>) returns (staged: Db, count: nat)
    requires Linked(db) && SeedKeysUnique(db.monitors) && keys == KeysOf(items)
    ensures staged == Reconciled(db, owner, items)
    ensures count == |HiddenIds(UpsertAll(db, owner, items), owner, keys)|
  {
    staged := UpsertMany(db, owner, items);
    var hidden := HiddenIds(staged, owner, keys);
    staged, count := Hide(staged, hidden), |hidden|;
  }

  /** The upsert loop. */
  method UpsertMany(db: Db, owner: nat, items: seq<Item>) returns (staged: Db)
    requires Linked(db) && SeedKeysUnique(db.monitors)
    ensures staged == UpsertAll(db, owner, items)
  {
    staged := db;
    var i := 0;
    while i < |items|
      invariant 0 <= i <= |items| && staged == UpsertAll(db, owner, items[..i])
    {
      UpsertNext(db, owner, items, i);
      staged := Upsert(staged, owner, items[i]);
      i := i + 1;
    }
    assert items[..i] == items;
  }

  // ----- Starting again -----

  /** An owner is found again by the next start, which then finds nothing to do. */
  lemma OwnerIsFound(db: Db, owner: string, items: seq<Item>)
    requires Linked(db) && SeedKeysUnique(db.monitors) && UsersKnown(db) && DistinctKeys(items) && AllPublic(items)
    requires forall u :: u in db.users && db.users[u].email == owner ==> IsSeedOwner(db.users[u])
    ensures var (based, id) := WithOwner(db, owner);
      && Linked(based) && SeedKeysUnique(based.monitors) && UsersKnown(based)
      && var db' := Reconciled(based, id, items);
      && Linked(db') && SeedKeysUnique(db'.monitors) && UsersKnown(db')
      && WithOwner(db', owner) == (db', id)
      && Reconciled(db', id, items) == db'
      && HiddenIds(UpsertAll(db', id, items), id, KeysOf(items)) == {}
  {
    var (based, id) := WithOwner(db, owner);
    OwnerIsKnown(db, owner);
    SecondSeedChangesNothing(based, id, items);
  }

  lemma HideTwice(db: Db)
    ensures var hidden := Hide(db, set id | id in db.monitors && db.monitors[id].isPublic);
      && (set id | id in hidden.monitors && hidden.monitors[id].isPublic) == {}
      && Hide(hidden, {}) == hidden
  {
    var hidden := Hide(db, set id | id in db.monitors && db.monitors[id].isPublic);
    assert Hide(hidden, {}).monitors == hidden.monitors;
  }

  /** A start of the API after a start that succeeded: it succeeds, hides nothing and leaves the
      database as it is. */
  method SeedTwice(store: Database, manifest: Option<seq<Entry>>, owner: Option<string>, demo: Option<string>,
                   rules: Rules, fails: bool) returns (first: Outcome, second: Outcome, ghost between: Db)
    requires var db := store.committed; Linked(db) && SeedKeysUnique(db.monitors) && UsersKnown(db)
    modifies store
    ensures first.Hid? ==> second == Hid(0) && store.committed == between
    ensures first.Hid? && !NoOwner(owner) ==> HasOwner(between.users, owner.value)
    ensures !first.Hid? ==> between == old(store.committed)
  {
    ghost var db := store.committed;
    first := Seed(store, manifest, owner, demo, rules, fails);
    between := store.committed;
    if first.Hid? {
      if NoOwner(owner) {
        HideTwice(db);
      } else {
        ManifestItems(manifest.value, rules);
        OwnerIsFound(db, owner.value, ItemsOf(manifest.value));
      }
    }
    second := Seed(store, manifest, owner, demo, rules, false);
  }
}
