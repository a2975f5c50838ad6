/** The values that travel between the trie builder, the sinks and the trie tables. */
module Trie {
  datatype Option<+T> = None | Some(value: T)

  /** A database error carries no more than that it happened. */
  datatype Outcome<+T> = Ok(value: T) | Err

  const TWO_TO_THE_64: int := 0x1_0000_0000_0000_0000

  type Byte = b: int | 0 <= b < 256
  type Nibble = n: int | 0 <= n < 16

  /** A 16-bit trie mask. */
  type Mask = m: int | 0 <= m < 0x1_0000

  type Bytes = seq<Byte>

  /** 32 bytes: a hashed address, a hashed slot or a node hash. */
  type B256 = s: seq<Byte> | |s| == 32 witness seq(32, _ => 0)

  /** A trie path. Keys are 32-byte hashes, so a path has at most 64 nibbles. */
  type Path = p: seq<Nibble> | |p| <= 64 witness []

  function Zero(): B256 { seq(32, _ => 0) }

  /** reth's `BranchNodeCompact`, with any number of hashes. */
  datatype Node = Node(stateMask: Mask, treeMask: Mask, hashMask: Mask, hashes: seq<B256>, rootHash: Option<B256>)

  /** Where a node lives: `account` is `None` for the state trie. */
  datatype Key = Key(account: Option<B256>, path: Path)

  /** One emitted node. */
  datatype Entry = Entry(key: Key, node: Node)

  /** A node set in which every key occurs once, as the entries of a table do. */
  ghost function Entries(m: map<Key, Node>): (s: set<Entry>)
    ensures forall e :: e in s <==> e.key in m && m[e.key] == e.node
  {
    set k | k in m :: Entry(k, m[k])
  }

  lemma {:induction false} EntriesCardinality(m: map<Key, Node>)
    ensures |Entries(m)| == |m|
    decreases |m|
  {
    if m != map[] {
      var k :| k in m;
      var rest := m - {k};
      EntriesCardinality(rest);
      assert Entries(m) == Entries(rest) + {Entry(k, m[k])};
      assert m.Keys == rest.Keys + {k};
    }
  }

  /** The keys of `s` occur once each. */
  predicate DistinctKeys(s: seq<Entry>) {
    forall i, j :: 0 <= i < j < |s| ==> s[i].key != s[j].key
  }

  // ---------------------------------------------------------------------------------------------
  // reth's `TrieUpdates`: two levels of maps, and the plain node map they stand for
  // ---------------------------------------------------------------------------------------------

  datatype StorageTrieUpdates = StorageTrieUpdates(
    isDeleted: bool, storageNodes: map<Path, Node>, removedNodes: set<Path>)

  datatype TrieUpdates = TrieUpdates(
    accountNodes: map<Path, Node>, removedNodes: set<Path>, storageTries: map<B256, StorageTrieUpdates>)

  const NO_STORAGE := StorageTrieUpdates(false, map[], {})

  const NO_UPDATES := TrieUpdates(map[], {}, map[])

  function StorageOf(u: TrieUpdates, account: B256): StorageTrieUpdates {
    if account in u.storageTries then u.storageTries[account] else NO_STORAGE
  }

  /** The insertion every sink does: the account map, or the account's storage map. */
  function Insert(u: TrieUpdates, k: Key, n: Node): TrieUpdates {
    match k.account
    case None => u.(accountNodes := u.accountNodes[k.path := n])
    case Some(a) =>
      var s := StorageOf(u, a);
      u.(storageTries := u.storageTries[a := s.(storageNodes := s.storageNodes[k.path := n])])
  }

  predicate HasNode(u: TrieUpdates, k: Key) {
    match k.account
    case None => k.path in u.accountNodes
    case Some(a) => k.path in StorageOf(u, a).storageNodes
  }

  function NodeAt(u: TrieUpdates, k: Key): Node
    requires HasNode(u, k)
  {
    match k.account
    case None => u.accountNodes[k.path]
    case Some(a) => StorageOf(u, a).storageNodes[k.path]
  }

  ghost function AccountKeys(u: TrieUpdates): set<Key> {
    set p | p in u.accountNodes :: Key(None, p)
  }

  ghost function StorageKeys(u: TrieUpdates): set<Key> {
    set a, p | a in u.storageTries && p in u.storageTries[a].storageNodes :: Key(Some(a), p)
  }

  /** The nodes of both levels in one map. */
  ghost function FlatNodes(u: TrieUpdates): (m: map<Key, Node>)
    ensures forall k :: k in m <==> HasNode(u, k)
    ensures forall k :: k in m ==> m[k] == NodeAt(u, k)
  {
    map k | k in AccountKeys(u) + StorageKeys(u) :: NodeAt(u, k)
  }

  lemma FlatInsert(u: TrieUpdates, k: Key, n: Node)
    ensures FlatNodes(Insert(u, k, n)) == FlatNodes(u)[k := n]
  {
    var v := Insert(u, k, n);
    forall q ensures HasNode(v, q) <==> q == k || HasNode(u, q) {
    }
    forall q | HasNode(v, q) ensures NodeAt(v, q) == if q == k then n else NodeAt(u, q) {
    }
  }
}
