/**
 * Digesting the committed trie tables: a serial scan of the account table and a scan of the
 * storage table in sixteen address ranges.
 */
module TableScan {
  import opened Trie
  import opened XorFold
  import opened NodeDigests
  import opened TrieTables
  import opened KeyOrder

  // ---------------------------------------------------------------------------------------------
  // The sixteen ranges
  // ---------------------------------------------------------------------------------------------

  function Repeat(b: Byte, n: nat): (s: Bytes)
    ensures |s| == n
  {
    seq(n, _ => b)
  }

  function Low(n: Nibble): B256 { [n as int * 16] + Repeat(0, 31) }

  function High(n: Nibble): B256 { [n as int * 16 + 15] + Repeat(255, 31) }

  predicate InRange(n: Nibble, a: B256) { LexLe(Low(n), a) && LexLe(a, High(n)) }

  lemma {:induction false} ZerosAreLeast(s: Bytes)
    ensures LexLe(Repeat(0, |s|), s)
  {
    if s != [] {
      ZerosAreLeast(s[1..]);
      assert Repeat(0, |s|)[1..] == Repeat(0, |s[1..]|);
    }
  }

  lemma {:induction false} OnesAreGreatest(s: Bytes)
    ensures LexLe(s, Repeat(255, |s|))
  {
    if s != [] {
      OnesAreGreatest(s[1..]);
      assert Repeat(255, |s|)[1..] == Repeat(255, |s[1..]|);
    }
  }

  function FirstNibble(a: B256): Nibble { a[0] / 16 }

  /** The ranges are disjoint and cover everything: an address is in the range of its first nibble. */
  lemma RangeIsFirstNibble(n: Nibble, a: B256)
    ensures InRange(n, a) <==> FirstNibble(a) == n
  {
    ZerosAreLeast(a[1..]);
    OnesAreGreatest(a[1..]);
    assert Low(n)[1..] == Repeat(0, 31);
    assert High(n)[1..] == Repeat(255, 31);
  }

  // ---------------------------------------------------------------------------------------------
  // Serial scan
  // ---------------------------------------------------------------------------------------------

  datatype TrieTablesDigest = TrieTablesDigest(accountNodes: nat, storageNodes: nat, digest: Digest)

  ghost function AccountEntries<AK(!new), SK(!new)>(a: Adapter<AK, SK>, accounts: map<AK, Node>,
          keys: set<AK>): set<Entry>
  {
    set k | k in accounts && k in keys :: Entry(Key(None, a.accountPath(k)), accounts[k])
  }

  ghost function StorageEntries<AK(!new), SK(!new)>(a: Adapter<AK, SK>, storages: map<(B256, SK), Node>,
          rows: set<(B256, SK)>): set<Entry>
  {
    set r | r in storages && r in rows :: Entry(Key(Some(r.0), a.subPath(r.1)), storages[r])
  }

  /** The rows of both tables are the nodes of their contents. */
  lemma RowsAreContents<AK(!new), SK(!new)>(a: Adapter<AK, SK>, accounts: map<AK, Node>,
          storages: map<(B256, SK), Node>)
    requires Canonical(a, accounts, storages)
    ensures Entries(View(a, accounts, storages))
         == AccountEntries(a, accounts, accounts.Keys) + StorageEntries(a, storages, storages.Keys)
  {
    var v := View(a, accounts, storages);
    forall e ensures e in Entries(v) <==>
      e in AccountEntries(a, accounts, accounts.Keys) + StorageEntries(a, storages, storages.Keys) {
      ViewAt(a, accounts, storages, e.key);
      match e.key.account {
        case None =>
          var k := a.accountKey(e.key.path);
          assert a.accountPath(k) == e.key.path;
          if e in Entries(v) {
            assert k in accounts && e == Entry(Key(None, a.accountPath(k)), accounts[k]);
          }
        case Some(address) =>
          var r := (address, a.subKey(e.key.path));
          assert a.subPath(r.1) == e.key.path;
          if e in Entries(v) {
            assert r in storages && e == Entry(Key(Some(r.0), a.subPath(r.1)), storages[r]);
          }
      }
    }
  }

  lemma NothingScanned<AK(!new), SK(!new)>(a: Adapter<AK, SK>, accounts: map<AK, Node>)
    ensures AccountEntries(a, accounts, accounts.Keys - accounts.Keys) == Elements([])
    ensures NoDuplicates<Entry>([])
  {
  }

  method ScanAccounts<AK(==, !new), SK(==, !new)>(db: Tables<AK, SK>, digest: NodeDigest) returns (count: nat)
    requires db.Valid() && digest.Valid() && digest.pushed == []
    modifies digest
    ensures digest.Valid() && NoDuplicates(digest.pushed) && count == |digest.pushed|
    ensures Elements(digest.pushed) == AccountEntries(db.adapter, db.accounts, db.accounts.Keys)
  {
    hide AccountEntries, NoDuplicates, Elements, Canonical;
    NothingScanned(db.adapter, db.accounts);
    var rest := db.accounts.Keys;
    count := 0;
    while rest != {}
      invariant digest.Valid() && NoDuplicates(digest.pushed) && count == |digest.pushed|
      invariant rest <= db.accounts.Keys
      invariant Elements(digest.pushed) == AccountEntries(db.adapter, db.accounts, db.accounts.Keys - rest)
      decreases |rest|
    {
      var key :| key in rest;
      ghost var e := Entry(Key(None, db.adapter.accountPath(key)), db.accounts[key]);
      NewAccountRow(db.adapter, db.accounts, db.storages, rest, key);
      ghost var before := digest.pushed;
      digest.Push(None, db.adapter.accountPath(key), db.accounts[key]);
      AppendedElements(before, e);
      count := count + 1;
      rest := rest - {key};
    }
    assert db.accounts.Keys - rest == db.accounts.Keys;
  }

  lemma AppendedElements<T(!new)>(s: seq<T>, x: T)
    requires NoDuplicates(s) && x !in Elements(s)
    ensures NoDuplicates(s + [x]) && Elements(s + [x]) == Elements(s) + {x}
  {
    assert forall y :: y in s ==> y in Elements(s);
  }

  lemma NewAccountRow<AK(!new), SK(!new)>(a: Adapter<AK, SK>, accounts: map<AK, Node>, storages: map<(B256, SK), Node>,
          rest: set<AK>, key: AK)
    requires Canonical(a, accounts, storages) && key in rest && rest <= accounts.Keys
    ensures var e := Entry(Key(None, a.accountPath(key)), accounts[key]);
      && e !in AccountEntries(a, accounts, accounts.Keys - rest)
      && AccountEntries(a, accounts, accounts.Keys - (rest - {key}))
         == AccountEntries(a, accounts, accounts.Keys - rest) + {e}
  {
    forall k | k in accounts && k in accounts.Keys - rest ensures a.accountPath(k) != a.accountPath(key) {
      assert a.accountKey(a.accountPath(k)) == k;
      assert a.accountKey(a.accountPath(key)) == key;
    }
  }

  /** The storage rows whose address lies in one range. */
  function RangeRows<SK(==)>(storages: map<(B256, SK), Node>, n: Nibble): set<(B256, SK)> {
    set r | r in storages && InRange(n, r.0)
  }

  lemma RangeRowsExist<SK(!new)>(storages: map<(B256, SK), Node>, n: Nibble)
    ensures RangeRows(storages, n) <= storages.Keys
  {
  }

  /** The storage rows of the ranges below `n`. */
  ghost function RowsBelow<SK>(storages: map<(B256, SK), Node>, n: nat): set<(B256, SK)> {
    set r | r in storages && FirstNibble(r.0) < n
  }

  /** The rows scanned so far: `done` before this range, and what has left `rest`. */
  ghost function Scanned<AK(!new), SK(!new)>(a: Adapter<AK, SK>, storages: map<(B256, SK), Node>, done: set<(B256, SK)>,
                                   rows: set<(B256, SK)>, rest: set<(B256, SK)>): set<Entry> {
    StorageEntries(a, storages, done + (rows - rest))
  }

  lemma NewStorageRow<AK(!new), SK(!new)>(a: Adapter<AK, SK>, accounts: map<AK, Node>, storages: map<(B256, SK), Node>,
                                        done: set<(B256, SK)>, rows: set<(B256, SK)>, rest: set<(B256, SK)>,
                                          row: (B256, SK))
    requires Canonical(a, accounts, storages) && row in storages
    requires row in rest && rest <= rows && done !! rows
    ensures var e := Entry(Key(Some(row.0), a.subPath(row.1)), storages[row]);
      && e !in Scanned(a, storages, done, rows, rest)
      && Scanned(a, storages, done, rows, rest - {row}) == Scanned(a, storages, done, rows, rest) + {e}
  {
    var now := done + (rows - rest);
    assert done + (rows - (rest - {row})) == now + {row};
    forall r | r in storages && r in now ensures r.0 != row.0 || a.subPath(r.1) != a.subPath(row.1) {
      assert a.subKey(a.subPath(r.1)) == r.1;
      assert a.subKey(a.subPath(row.1)) == row.1;
    }
  }

  lemma ScannedEnds<AK(!new), SK(!new)>(a: Adapter<AK, SK>, storages: map<(B256, SK), Node>, done: set<(B256, SK)>,
          rows: set<(B256, SK)>)
    ensures Scanned(a, storages, done, rows, rows) == StorageEntries(a, storages, done)
    ensures Scanned(a, storages, done, rows, {}) == StorageEntries(a, storages, done + rows)
  {
    assert done + (rows - rows) == done;
    assert done + (rows - {}) == done + rows;
  }

  /** One range: pushes its rows after those already pushed. */
  method ScanRange<AK(==, !new), SK(==, !new)>(db: Tables<AK, SK>, digest: NodeDigest, n: Nibble,
          ghost pushedBefore: set<Entry>,
                                               ghost done: set<(B256, SK)>)
    returns (count: nat)
    requires db.Valid() && digest.Valid() && NoDuplicates(digest.pushed)
    requires forall e :: e in pushedBefore ==> e.key.account.None?
    requires Elements(digest.pushed) == pushedBefore + StorageEntries(db.adapter, db.storages, done)
    requires done !! RangeRows(db.storages, n)
    modifies digest
    ensures digest.Valid() && NoDuplicates(digest.pushed)
    ensures |digest.pushed| == old(|digest.pushed|) + count
    ensures Elements(digest.pushed)
         == pushedBefore + StorageEntries(db.adapter, db.storages, done + RangeRows(db.storages, n))
  {
    hide StorageEntries, Scanned, NoDuplicates, Elements, Canonical, RangeRows;
    var rows := RangeRows(db.storages, n);
    RangeRowsExist(db.storages, n);
    ScannedEnds(db.adapter, db.storages, done, rows);
    var rest := rows;
    count := 0;
    while rest != {}
      invariant digest.Valid() && NoDuplicates(digest.pushed)
      invariant |digest.pushed| == old(|digest.pushed|) + count
      invariant rest <= rows
      invariant Elements(digest.pushed) == pushedBefore + Scanned(db.adapter, db.storages, done, rows, rest)
      decreases |rest|
    {
      var row :| row in rest;
      ghost var e := Entry(Key(Some(row.0), db.adapter.subPath(row.1)), db.storages[row]);
      NewStorageRow(db.adapter, db.accounts, db.storages, done, rows, rest, row);
      ghost var before := digest.pushed;
      digest.Push(Some(row.0), db.adapter.subPath(row.1), db.storages[row]);
      AppendedElements(before, e);
      count := count + 1;
      rest := rest - {row};
    }
  }

  lemma NextRange<SK(!new)>(storages: map<(B256, SK), Node>, n: Nibble)
    ensures RowsBelow(storages, n) !! RangeRows(storages, n)
    ensures RowsBelow(storages, n as int + 1) == RowsBelow(storages, n) + RangeRows(storages, n)
  {
    forall r | r in storages ensures InRange(n, r.0) <==> FirstNibble(r.0) == n {
      RangeIsFirstNibble(n, r.0);
    }
  }

  lemma NoEntries<AK(!new), SK(!new)>(a: Adapter<AK, SK>, accounts: map<AK, Node>, storages: map<(B256, SK), Node>)
    ensures AccountEntries(a, accounts, {}) == {} && StorageEntries(a, storages, {}) == {}
  {
  }

  lemma {:induction false} AccountEntriesCount<AK(!new), SK(!new)>(a: Adapter<AK, SK>, accounts: map<AK, Node>,
          storages: map<(B256, SK), Node>, rest: set<AK>)
    requires Canonical(a, accounts, storages) && rest <= accounts.Keys
    ensures |AccountEntries(a, accounts, accounts.Keys - rest)| == |accounts.Keys - rest|
    decreases |accounts.Keys - rest|
  {
    hide Canonical, AccountEntries;
    if accounts.Keys - rest == {} {
      NoEntries(a, accounts, storages);
    } else {
      var key :| key in accounts.Keys - rest;
      var fewer := accounts.Keys - (rest + {key});
      assert accounts.Keys - rest == fewer + {key} && key !in fewer;
      AccountEntriesCount(a, accounts, storages, rest + {key});
      NewAccountRow(a, accounts, storages, rest + {key}, key);
      assert rest + {key} - {key} == rest;
    }
  }

  lemma {:induction false} StorageEntriesCount<AK(!new), SK(!new)>(a: Adapter<AK, SK>, accounts: map<AK, Node>,
          storages: map<(B256, SK), Node>, rows: set<(B256, SK)>)
    requires Canonical(a, accounts, storages) && rows <= storages.Keys
    ensures |StorageEntries(a, storages, rows)| == |rows|
  {
    hide Canonical, StorageEntries;
    if rows == {} {
      NoEntries(a, accounts, storages);
    } else {
      var row :| row in rows;
      StorageEntriesCount(a, accounts, storages, rows - {row});
      AddStorageRow(a, accounts, storages, rows - {row}, row);
      assert rows - {row} + {row} == rows;
    }
  }

  lemma AddStorageRow<AK(!new), SK(!new)>(a: Adapter<AK, SK>, accounts: map<AK, Node>,
          storages: map<(B256, SK), Node>, rows: set<(B256, SK)>, row: (B256, SK))
    requires Canonical(a, accounts, storages) && row in storages && row !in rows
    ensures var e := Entry(Key(Some(row.0), a.subPath(row.1)), storages[row]);
      && e !in StorageEntries(a, storages, rows)
      && StorageEntries(a, storages, rows + {row}) == StorageEntries(a, storages, rows) + {e}
  {
    forall r | r in storages && r in rows ensures r.0 != row.0 || a.subPath(r.1) != a.subPath(row.1) {
      assert a.subKey(a.subPath(r.1)) == r.1;
      assert a.subKey(a.subPath(row.1)) == row.1;
    }
  }

  lemma NoCommonEntry<AK(!new), SK(!new)>(a: Adapter<AK, SK>, accounts: map<AK, Node>,
          storages: map<(B256, SK), Node>)
    ensures AccountEntries(a, accounts, accounts.Keys) !! StorageEntries(a, storages, storages.Keys)
  {
  }

  /** The rows of both tables are as many different nodes. */
  lemma EntriesApart<AK(!new), SK(!new)>(a: Adapter<AK, SK>, accounts: map<AK, Node>, storages: map<(B256, SK), Node>)
    requires Canonical(a, accounts, storages)
    ensures |AccountEntries(a, accounts, accounts.Keys)| == |accounts|
    ensures |AccountEntries(a, accounts, accounts.Keys) + StorageEntries(a, storages, storages.Keys)|
         == |accounts| + |storages|
  {
    hide Canonical, AccountEntries, StorageEntries;
    assert accounts.Keys - {} == accounts.Keys;
    AccountEntriesCount(a, accounts, storages, {});
    StorageEntriesCount(a, accounts, storages, storages.Keys);
    NoCommonEntry(a, accounts, storages);
    assert |accounts| == |accounts.Keys| && |storages| == |storages.Keys|;
  }

  /** The digest and the counts of the tables, scanned range after range. */
  method DigestTables<AK(==, !new), SK(==, !new)>(db: Tables<AK, SK>, seeds: Seeds) returns (r: TrieTablesDigest)
    requires db.Valid()
    ensures r.digest == DigestOfSet(seeds, Entries(db.Contents()))
    ensures r.accountNodes + r.storageNodes == |db.Contents()|
    ensures r.accountNodes == |db.accounts| && r.storageNodes == |db.storages|
  {
    var digest := new NodeDigest(seeds);
    var accountNodes := ScanAccounts(db, digest);
    ghost var accountEntries := AccountEntries(db.adapter, db.accounts, db.accounts.Keys);
    OddOfDistinct(digest.pushed);
    var storageNodes := 0;
    assert RowsBelow(db.storages, 0) == {};
    for n := 0 to 16
      invariant digest.Valid() && NoDuplicates(digest.pushed) && digest.seeds == seeds
      invariant |digest.pushed| == accountNodes + storageNodes
      invariant Elements(digest.pushed)
             == accountEntries + StorageEntries(db.adapter, db.storages, RowsBelow(db.storages, n))
    {
      NextRange(db.storages, n);
      var count := ScanRange(db, digest, n, accountEntries, RowsBelow(db.storages, n));
      storageNodes := storageNodes + count;
    }
    assert RowsBelow(db.storages, 16) == db.storages.Keys;
    RowsAreContents(db.adapter, db.accounts, db.storages);
    EntriesApart(db.adapter, db.accounts, db.storages);
    DigestOfDistinct(seeds, digest.pushed);
    OddOfDistinct(digest.pushed);
    EntriesCardinality(db.Contents());
    var d := digest.Snapshot();
    r := TrieTablesDigest(accountNodes, storageNodes, d);
  }
}
