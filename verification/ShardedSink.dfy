/** The collecting sink: sixteen locked shards by first nibble, merged by plain insertion. */
module ShardedSink {
  import opened Trie
  import opened Chunks
  import opened Overlay
  import opened TableScan

  /** First nibble of the account, or of the path in the state trie. */
  function ShardOf(k: Key): nat {
    match k.account
    case Some(a) => FirstNibble(a)
    case None => if k.path == [] then 0 else k.path[0]
  }

  /** The part of a node map that belongs to one shard, or to the shards below it. */
  function ShardPart(m: map<Key, Node>, i: nat): map<Key, Node> {
    map k | k in m && ShardOf(k) == i :: m[k]
  }

  function ShardsBelow(m: map<Key, Node>, i: nat): map<Key, Node> {
    map k | k in m && ShardOf(k) < i :: m[k]
  }

  /** A shard holds its part of the nodes, and storage tries of its own accounts only. */
  ghost predicate IsShard(u: TrieUpdates, i: nat, m: map<Key, Node>) {
    && OnlyInserts(u)
    && FlatNodes(u) == ShardPart(m, i)
    && (forall a :: a in u.storageTries ==> FirstNibble(a) == i)
  }

  /** `extend` on both maps: a storage trie that is already there would be replaced whole. */
  function Extend(u: TrieUpdates, v: TrieUpdates): TrieUpdates {
    u.(accountNodes := u.accountNodes + v.accountNodes, storageTries := u.storageTries + v.storageTries)
  }

  lemma ExtendDisjoint(u: TrieUpdates, v: TrieUpdates)
    requires u.storageTries.Keys !! v.storageTries.Keys
    ensures FlatNodes(Extend(u, v)) == FlatNodes(u) + FlatNodes(v)
  {
    var w := Extend(u, v);
    forall k ensures HasNode(w, k) <==> HasNode(u, k) || HasNode(v, k) {
    }
    forall k | HasNode(w, k) ensures NodeAt(w, k) == if HasNode(v, k) then NodeAt(v, k) else NodeAt(u, k) {
    }
  }

  lemma ShardInsert(u: TrieUpdates, i: nat, m: map<Key, Node>, k: Key, n: Node)
    requires IsShard(u, i, m) && ShardOf(k) == i
    ensures IsShard(Insert(u, k, n), i, m[k := n])
  {
    FlatInsert(u, k, n);
    assert ShardPart(m[k := n], i) == ShardPart(m, i)[k := n];
  }

  lemma OtherShard(u: TrieUpdates, i: nat, m: map<Key, Node>, k: Key, n: Node)
    requires IsShard(u, i, m) && ShardOf(k) != i
    ensures IsShard(u, i, m[k := n])
  {
    assert ShardPart(m[k := n], i) == ShardPart(m, i);
  }

  /** The shards merged so far hold the nodes of the shards below `i`. */
  ghost predicate Merged(u: TrieUpdates, i: nat, m: map<Key, Node>) {
    && OnlyInserts(u)
    && FlatNodes(u) == ShardsBelow(m, i)
    && (forall a :: a in u.storageTries ==> FirstNibble(a) < i)
  }

  lemma MergeStep(u: TrieUpdates, v: TrieUpdates, i: nat, m: map<Key, Node>)
    requires Merged(u, i, m) && IsShard(v, i, m)
    ensures Merged(Extend(u, v), i + 1, m)
  {
    hide HasNode, NodeAt, OnlyInserts;
    ExtendDisjoint(u, v);
    ExtendInserts(u, v);
    JoinShards(m, i);
  }

  lemma ExtendInserts(u: TrieUpdates, v: TrieUpdates)
    requires OnlyInserts(u) && OnlyInserts(v)
    ensures OnlyInserts(Extend(u, v))
  {
  }

  lemma JoinShards(m: map<Key, Node>, i: nat)
    ensures ShardsBelow(m, i + 1) == ShardsBelow(m, i) + ShardPart(m, i)
  {
  }

  lemma MergeAll(u: TrieUpdates, m: map<Key, Node>)
    requires Merged(u, 16, m)
    ensures FlatNodes(u) == m
  {
    assert ShardsBelow(m, 16) == m;
  }

  lemma NothingEmitted(i: nat)
    ensures IsShard(NO_UPDATES, i, Latest([])) && Merged(NO_UPDATES, 0, map[])
  {
    assert FlatNodes(NO_UPDATES) == map[];
    assert ShardPart(map[], i) == map[];
    assert ShardsBelow(map[], 0) == map[];
  }

  lemma NothingMerged(m: map<Key, Node>)
    ensures Merged(NO_UPDATES, 0, m)
  {
    assert FlatNodes(NO_UPDATES) == map[];
    assert ShardsBelow(m, 0) == map[];
  }

  class TrieUpdatesSink {
    var shards: seq<TrieUpdates>
    /** Every emission so far; each runs under its shard's lock, so they happen one at a time. */
    ghost var emitted: seq<Entry>

    ghost predicate Valid()
      reads this
    {
      && |shards| == 16
      && forall i :: 0 <= i < 16 ==> IsShard(shards[i], i, Latest(emitted))
    }

    constructor ()
      ensures Valid() && emitted == []
    {
      shards := seq(16, _ => NO_UPDATES);
      emitted := [];
      new;
      forall i | 0 <= i < 16 ensures IsShard(shards[i], i, Latest(emitted)) {
        NothingEmitted(i);
      }
    }

    /** Inserts the node into its shard; the state trie's root, which has no first nibble, panics. */
    method OnBranchNode(account: Option<B256>, path: Path, node: Node)
      requires Valid()
      requires account.None? ==> path != []
      modifies this
      ensures Valid()
      ensures emitted == old(emitted) + [Entry(Key(account, path), node)]
    {
      hide IsShard, Insert;
      var key := Key(account, path);
      var shard := match account
        case Some(a) => FirstNibble(a)
        case None => path[0];
      ghost var before := Latest(emitted);
      ghost var shardsBefore := shards;
      shards := shards[shard as int := Insert(shards[shard], key, node)];
      emitted := emitted + [Entry(key, node)];
      LatestOne(old(emitted), Entry(key, node));
      forall i | 0 <= i < 16 ensures IsShard(shards[i], i, Latest(emitted)) {
        if i == shard {
          ShardInsert(shardsBefore[i], i, before, key, node);
        } else {
          OtherShard(shardsBefore[i], i, before, key, node);
        }
      }
    }

    /** Merges the shards: exactly the last node emitted for each key, whatever the order. */
    method IntoTrieUpdates() returns (updates: TrieUpdates)
      requires Valid()
      ensures OnlyInserts(updates)
      ensures FlatNodes(updates) == Latest(emitted)
      ensures forall i :: IsLast(emitted, i) ==> Holds(FlatNodes(updates), emitted[i].key, emitted[i].node)
      ensures forall k :: HasNode(updates, k) <==> Arrived(emitted, k)
    {
      updates := NO_UPDATES;
      NothingMerged(Latest(emitted));
      for i := 0 to 16
        invariant Merged(updates, i, Latest(emitted))
      {
        MergeStep(updates, shards[i], i, Latest(emitted));
        updates := Extend(updates, shards[i]);
      }
      MergeAll(updates, Latest(emitted));
      LastEmitted(emitted);
    }
  }

  lemma LastEmitted(items: seq<Entry>)
    ensures forall i :: IsLast(items, i) ==> Holds(Latest(items), items[i].key, items[i].node)
    ensures forall k :: k in Latest(items) <==> Arrived(items, k)
  {
    hide Latest, IsLast, Arrived, Holds;
    LastsAreIndices(items);
    forall i | 0 <= i < |items| && IsLast(items, i) ensures Holds(Latest(items), items[i].key, items[i].node) {
      LatestIsLast(items, i);
    }
    forall k ensures k in Latest(items) <==> Arrived(items, k) {
      LatestArrived(items, k);
    }
  }

  lemma LatestOne(s: seq<Entry>, e: Entry)
    ensures Latest(s + [e]) == Latest(s)[e.key := e.node]
  {
    assert (s + [e])[..|s|] == s;
  }
}
