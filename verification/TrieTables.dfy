/**
 * The account trie table and the storage trie table, with their rows in the database's key
 * encoding, and the loops that write a `TrieUpdates` into them.
 */
module TrieTables {
  import opened Trie
  import opened Overlay

  /**
   * A key adapter. reth's formats are not part of this model; what a table needs of them is that
   * a key can be decoded.
   */
  datatype Adapter<!AK, !SK> = Adapter(
    accountKey: Path -> AK, accountPath: AK -> Path, subKey: Path -> SK, subPath: SK -> Path)

  ghost predicate Decodes<AK, SK>(a: Adapter<AK, SK>) {
    && (forall p: Path :: a.accountPath(a.accountKey(p)) == p)
    && (forall p: Path :: a.subPath(a.subKey(p)) == p)
  }

  /** Every row has the key its path encodes to. */
  ghost predicate Canonical<AK(!new), SK(!new)>(a: Adapter<AK, SK>, accounts: map<AK, Node>,
          storages: map<(B256, SK), Node>)
  {
    && Decodes(a)
    && (forall k :: k in accounts ==> a.accountKey(a.accountPath(k)) == k)
    && (forall r :: r in storages ==> a.subKey(a.subPath(r.1)) == r.1)
  }

  ghost function AccountRows<AK, SK>(a: Adapter<AK, SK>, accounts: map<AK, Node>): set<Key> {
    set k | k in accounts :: Key(None, a.accountPath(k))
  }

  ghost function StorageRows<AK, SK>(a: Adapter<AK, SK>, storages: map<(B256, SK), Node>): set<Key> {
    set r | r in storages :: Key(Some(r.0), a.subPath(r.1))
  }

  predicate HasRow<AK(==), SK(==)>(a: Adapter<AK, SK>, accounts: map<AK, Node>, storages: map<(B256, SK), Node>, k: Key)
  {
    match k.account
    case None => a.accountKey(k.path) in accounts
    case Some(address) => (address, a.subKey(k.path)) in storages
  }

  function RowOf<AK(==), SK(==)>(a: Adapter<AK, SK>, accounts: map<AK, Node>, storages: map<(B256, SK), Node>,
          k: Key): Node
    requires HasRow(a, accounts, storages, k)
  {
    match k.account
    case None => accounts[a.accountKey(k.path)]
    case Some(address) => storages[(address, a.subKey(k.path))]
  }

  /** Both tables as one map from decoded keys. */
  ghost function View<AK(!new), SK(!new)>(a: Adapter<AK, SK>, accounts: map<AK, Node>,
          storages: map<(B256, SK), Node>): map<Key, Node>
  {
    map k | k in AccountRows(a, accounts) + StorageRows(a, storages) && HasRow(a, accounts, storages, k) ::
      RowOf(a, accounts, storages, k)
  }

  lemma ViewAt<AK(!new), SK(!new)>(a: Adapter<AK, SK>, accounts: map<AK, Node>, storages: map<(B256, SK), Node>, k: Key)
    requires Canonical(a, accounts, storages)
    ensures Get(View(a, accounts, storages), k)
         == if HasRow(a, accounts, storages, k) then Some(RowOf(a, accounts, storages, k)) else None
  {
    RowsAreKeys(a, accounts, storages, k);
  }

  lemma RowsAreKeys<AK(!new), SK(!new)>(a: Adapter<AK, SK>, accounts: map<AK, Node>, storages: map<(B256, SK), Node>,
          k: Key)
    requires Canonical(a, accounts, storages)
    ensures HasRow(a, accounts, storages, k) <==> k in AccountRows(a, accounts) + StorageRows(a, storages)
  {
    if HasRow(a, accounts, storages, k) {
      match k.account {
        case None =>
          var key := a.accountKey(k.path);
          assert k == Key(None, a.accountPath(key));
        case Some(address) =>
          var row := (address, a.subKey(k.path));
          assert k == Key(Some(row.0), a.subPath(row.1));
      }
    }
  }

  /** Encoded keys collide only for equal paths. */
  lemma KeysDistinct<AK, SK>(a: Adapter<AK, SK>, p: Path, q: Path)
    requires Decodes(a)
    ensures a.accountKey(p) == a.accountKey(q) <==> p == q
    ensures a.subKey(p) == a.subKey(q) <==> p == q
  {
    assert a.accountPath(a.accountKey(p)) == p && a.accountPath(a.accountKey(q)) == q;
    assert a.subPath(a.subKey(p)) == p && a.subPath(a.subKey(q)) == q;
  }

  lemma EmptyView<AK(!new), SK(!new)>(a: Adapter<AK, SK>)
    ensures View(a, map[], map[]) == map[]
  {
  }

  /** The storage rows after one change. */
  function StorageWith<SK(==)>(c: CursorHabits, storages: map<(B256, SK), Node>, row: (B256, SK), path: Path,
          change: Option<Node>)
    : map<(B256, SK), Node>
  {
    if c.skipsRoot && path == [] then storages
    else if change.Some? then storages[row := change.value]
    else storages - {row}
  }

  lemma StorageWritten<AK(!new), SK(!new)>(a: Adapter<AK, SK>, c: CursorHabits, accounts: map<AK, Node>,
                                           storages: map<(B256, SK), Node>, address: B256, path: Path,
                                             change: Option<Node>)
    requires Canonical(a, accounts, storages)
    ensures var after := StorageWith(c, storages, (address, a.subKey(path)), path, change);
      && Canonical(a, accounts, after)
      && View(a, accounts, after) == Apply(c, View(a, accounts, storages), One(Key(Some(address), path), change))
  {
    var row, f := (address, a.subKey(path)), One(Key(Some(address), path), change);
    var after := StorageWith(c, storages, row, path, change);
    assert a.subPath(a.subKey(path)) == path;
    hide View, Apply;
    forall k ensures Get(View(a, accounts, after), k) == Get(Apply(c, View(a, accounts, storages), f), k) {
      KeysDistinct(a, k.path, path);
      ApplyAt(c, View(a, accounts, storages), f, k);
      ViewAt(a, accounts, storages, k);
      ViewAt(a, accounts, after, k);
    }
    SameMap(View(a, accounts, after), Apply(c, View(a, accounts, storages), f));
  }

  lemma StorageCounted<AK(!new), SK(!new)>(a: Adapter<AK, SK>, c: CursorHabits, accounts: map<AK, Node>,
                                           storages: map<(B256, SK), Node>, address: B256, path: Path,
                                             change: Option<Node>)
    requires Canonical(a, accounts, storages)
    ensures |Counted(c, View(a, accounts, storages), One(Key(Some(address), path), change))|
         == if !(c.skipsRoot && path == [])
               && (change.Some? || (address, a.subKey(path)) in storages || c.countsAbsent) then 1 else 0
  {
    var k, f, m := Key(Some(address), path), One(Key(Some(address), path), change), View(a, accounts, storages);
    ViewAt(a, accounts, storages, k);
    hide View;
    assert Counted(c, m, f) == if Counts(c, m, f, k) then {k} else {};
  }

  class Tables<AK(==, !new), SK(==, !new)> {
    const adapter: Adapter<AK, SK>
    const habits: CursorHabits
    var accounts: map<AK, Node>
    /** The dup-sorted table: one row per address and subkey. */
    var storages: map<(B256, SK), Node>

    ghost predicate Valid()
      reads this
    {
      Canonical(adapter, accounts, storages)
    }

    ghost function Contents(): map<Key, Node>
      reads this
    {
      View(adapter, accounts, storages)
    }

    constructor (adapter: Adapter<AK, SK>, habits: CursorHabits)
      requires Decodes(adapter)
      ensures Valid() && Contents() == map[]
      ensures this.adapter == adapter && this.habits == habits
    {
      this.adapter := adapter;
      this.habits := habits;
      accounts := map[];
      storages := map[];
      new;
      EmptyView(adapter);
    }

    /** A write transaction starts from the committed rows and changes a copy of them. */
    constructor Begin(db: Tables<AK, SK>)
      requires db.Valid()
      ensures Valid() && Contents() == db.Contents()
      ensures adapter == db.adapter && habits == db.habits
    {
      adapter := db.adapter;
      habits := db.habits;
      accounts := db.accounts;
      storages := db.storages;
    }

    method Clear()
      requires Valid()
      modifies this
      ensures Valid() && Contents() == map[]
    {
      accounts := map[];
      storages := map[];
      EmptyView(adapter);
    }

    /** One account change: upsert unless it is the root, or delete what is there. */
    method WriteAccount(path: Path, change: Option<Node>) returns (written: nat)
      requires Valid()
      modifies this`accounts
      ensures Valid()
      ensures Contents() == Apply(habits, old(Contents()), One(Key(None, path), change))
      ensures written == |Counted(habits, old(Contents()), One(Key(None, path), change))|
      ensures change.Some? && path != [] ==>
        Contents() == old(Contents())[Key(None, path) := change.value] && written == 1
      ensures change.Some? && path == [] ==> Contents() == old(Contents()) && written == 0
      ensures change.None? ==> Contents() == old(Contents()) - {Key(None, path)}
      ensures change.None? ==> written == if Key(None, path) in old(Contents()) then 1 else 0
    {
      ghost var before := Contents();
      ghost var f := One(Key(None, path), change);
      var key := adapter.accountKey(path);
      written := 0;
      match change {
        case Some(node) =>
          if path != [] {
            accounts := accounts[key := node];
            written := 1;
          }
        case None =>
          if key in accounts {
            accounts := accounts - {key};
            written := 1;
          }
      }
      assert Counted(habits, before, f) == if written == 1 then {Key(None, path)} else {};
      forall k ensures Get(Contents(), k) == Get(Apply(habits, before, f), k) {
        KeysDistinct(adapter, k.path, path);
        ApplyAt(habits, before, f, k);
        ViewAt(adapter, old(accounts), old(storages), k);
        ViewAt(adapter, accounts, storages, k);
      }
      SameMap(Contents(), Apply(habits, before, f));
      OneMeans(habits, before, Key(None, path), change);
    }

    /** One storage change, as reth's storage trie cursor does it. */
    method WriteStorage(address: B256, path: Path, change: Option<Node>) returns (written: nat)
      requires Valid()
      modifies this`storages
      ensures Valid()
      ensures Contents() == Apply(habits, old(Contents()), One(Key(Some(address), path), change))
      ensures written == |Counted(habits, old(Contents()), One(Key(Some(address), path), change))|
      ensures habits.skipsRoot && path == [] ==> Contents() == old(Contents()) && written == 0
      ensures !(habits.skipsRoot && path == []) && change.Some? ==>
        Contents() == old(Contents())[Key(Some(address), path) := change.value] && written == 1
      ensures !(habits.skipsRoot && path == []) && change.None? ==>
        Contents() == old(Contents()) - {Key(Some(address), path)}
      ensures !(habits.skipsRoot && path == []) && change.None? ==>
        written == if Key(Some(address), path) in old(Contents()) || habits.countsAbsent then 1 else 0
    {
      hide One;
      OneMeans(habits, Contents(), Key(Some(address), path), change);
      StorageWritten(adapter, habits, accounts, storages, address, path, change);
      StorageCounted(adapter, habits, accounts, storages, address, path, change);
      hide View, Apply, Counted, Canonical;
      ghost var after := StorageWith(habits, storages, (address, adapter.subKey(path)), path, change);
      var row := (address, adapter.subKey(path));
      written := 0;
      if !(habits.skipsRoot && path == []) {
        if change.Some? || row in storages || habits.countsAbsent {
          written := 1;
        }
        storages := storages - {row};
        if change.Some? {
          storages := storages[row := change.value];
        }
      }
      assert storages == after;
    }

    /** Deletes all rows of one address. */
    method WipeStorage(address: B256)
      requires Valid()
      modifies this`storages
      ensures Valid()
      ensures Contents() == Apply(habits, old(Contents()), FlatUpdates({address}, map[]))
    {
      ghost var before := Contents();
      storages := map r | r in storages && r.0 != address :: storages[r];
      ghost var f := FlatUpdates({address}, map[]);
      forall k ensures Get(Contents(), k) == Get(Apply(habits, before, f), k) {
        ApplyAt(habits, before, f, k);
        ViewAt(adapter, old(accounts), old(storages), k);
        ViewAt(adapter, accounts, storages, k);
      }
      SameMap(Contents(), Apply(habits, before, f));
    }

    /** The storage trie of an account that was deleted goes first. */
    method WipeIfDeleted(address: B256, wipe: bool)
      requires Valid()
      modifies this`storages
      ensures Valid()
      ensures Contents() == Apply(habits, old(Contents()), FlatUpdates(if wipe then {address} else {}, map[]))
    {
      ApplyNothing(habits, Contents());
      if wipe {
        WipeStorage(address);
      }
    }

    /** The account loop, over the changes in any order. */
    method WriteAccounts(changes: map<Path, Option<Node>>) returns (written: nat)
      requires Valid()
      modifies this`accounts
      ensures Valid()
      ensures Contents() == Apply(habits, old(Contents()), FlatUpdates({}, PathChanges(None, changes)))
      ensures written == |Counted(habits, old(Contents()), FlatUpdates({}, PathChanges(None, changes)))|
    {
      hide Apply, Counted, PathChanges, PathsDone, View, Canonical, One;
      ghost var before := Contents();
      ApplyNothing(habits, before);
      NoPathsYet(habits, before, None, {}, changes);
      NoPathsLeft(None, {}, changes);
      var rest := changes.Keys;
      written := 0;
      while rest != {}
        invariant Valid() && rest <= changes.Keys
        invariant Contents() == Apply(habits, before, PathsDone(None, {}, changes, rest))
        invariant written == |Counted(habits, before, PathsDone(None, {}, changes, rest))|
        decreases |rest|
      {
        var path :| path in rest;
        OneMorePath(habits, before, None, {}, changes, rest, path, Contents());
        var n := WriteAccount(path, changes[path]);
        written := written + n;
        rest := rest - {path};
      }
    }

    /** The storage trie cursor: wipe if the trie was deleted, then the changes in any order. */
    method WriteStorageTrie(address: B256, wipe: bool, changes: map<Path, Option<Node>>) returns (written: nat)
      requires Valid()
      modifies this`storages
      ensures Valid()
      ensures var f := FlatUpdates(if wipe then {address} else {}, PathChanges(Some(address), changes));
        && Contents() == Apply(habits, old(Contents()), f)
        && written == |Counted(habits, old(Contents()), f)|
    {
      hide Apply, Counted, PathChanges, PathsDone, View, Canonical, One;
      ghost var before := Contents();
      ghost var wiped := if wipe then {address} else {};
      NoPathsYet(habits, before, Some(address), wiped, changes);
      NoPathsLeft(Some(address), wiped, changes);
      WipeIfDeleted(address, wipe);
      var rest := changes.Keys;
      written := 0;
      while rest != {}
        invariant Valid() && rest <= changes.Keys
        invariant Contents() == Apply(habits, before, PathsDone(Some(address), wiped, changes, rest))
        invariant written == |Counted(habits, before, PathsDone(Some(address), wiped, changes, rest))|
        decreases |rest|
      {
        var path :| path in rest;
        OneMorePath(habits, before, Some(address), wiped, changes, rest, path, Contents());
        var n := WriteStorage(address, path, changes[path]);
        written := written + n;
        rest := rest - {path};
      }
    }

    /**
     * Writes `updates` and returns the number of table entries written: the tables end as the
     * overlay, whatever order the accounts and the paths come in.
     */
    method WriteTrieUpdates(updates: TrieUpdates) returns (written: nat)
      requires Valid()
      modifies this
      ensures Valid()
      ensures Contents() == Apply(habits, old(Contents()), FlatOf(updates))
      ensures written == |Counted(habits, old(Contents()), FlatOf(updates))|
      ensures AccountsWritten(old(Contents()), updates, Contents())
      ensures StoragesWritten(habits, old(Contents()), updates, Contents())
      ensures written == |AccountUpserts(updates)| + |AccountDeletes(old(Contents()), updates)|
        + |StorageUpserts(habits, updates)| + |StorageDeletes(habits, old(Contents()), updates)|
    {
      hide AccountsWritten, StoragesWritten, AccountUpserts, AccountDeletes, StorageUpserts, StorageDeletes;
      hide Apply, Counted, PathChanges, View, Canonical, UpTo;
      ghost var before := Contents();
      written := WriteAccounts(Changes(updates.accountNodes, updates.removedNodes));
      NoTries(updates);
      var rest := updates.storageTries.Keys;
      assert updates.storageTries.Keys - rest == {};
      while rest != {}
        invariant Valid() && rest <= updates.storageTries.Keys
        invariant Contents() == Apply(habits, before, UpTo(updates, updates.storageTries.Keys - rest))
        invariant written == |Counted(habits, before, UpTo(updates, updates.storageTries.Keys - rest))|
        decreases |rest|
      {
        var address :| address in rest;
        var trie := updates.storageTries[address];
        OneMoreTrie(habits, before, updates, rest, address, Contents());
        var n := WriteStorageTrie(address, trie.isDeleted, Changes(trie.storageNodes, trie.removedNodes));
        written := written + n;
        rest := rest - {address};
      }
      assert updates.storageTries.Keys - rest == updates.storageTries.Keys;
      OverlayMeans(habits, before, updates);
      CountedIsSum(habits, before, updates);
    }
  }
}
