/** What committing a sequence of nodes chunk by chunk adds up to. */
module Chunks {
  import opened Trie
  import opened Overlay

  /** The last node that arrived for each key. */
  function Latest(items: seq<Entry>): map<Key, Node> {
    if items == [] then map[]
    else
      var last := items[|items| - 1];
      Latest(items[..|items| - 1])[last.key := last.node]
  }

  /** Whether a node under this key is stored at all. */
  predicate Stored(c: CursorHabits, k: Key) {
    match k.account
    case None => k.path != []
    case Some(_) => !(c.skipsRoot && k.path == [])
  }

  /** Last write per stored key. */
  function LastWrites(c: CursorHabits, items: seq<Entry>): map<Key, Node> {
    var latest := Latest(items);
    map k | k in latest && Stored(c, k) :: latest[k]
  }

  lemma {:induction false} LatestAppend(a: seq<Entry>, b: seq<Entry>)
    ensures Latest(a + b) == Latest(a) + Latest(b)
    decreases |b|
  {
    if b == [] {
      assert a + b == a;
    } else {
      var init := b[..|b| - 1];
      LatestAppend(a, init);
      assert (a + b)[..|a + b| - 1] == a + init;
    }
  }

  lemma LastWritesAppend(c: CursorHabits, a: seq<Entry>, b: seq<Entry>)
    ensures LastWrites(c, a + b) == LastWrites(c, a) + LastWrites(c, b)
  {
    LatestAppend(a, b);
  }

  /** The chunk the writer holds after inserting `items` one by one. */
  function ChunkOf(items: seq<Entry>): TrieUpdates {
    if items == [] then NO_UPDATES
    else
      var last := items[|items| - 1];
      Insert(ChunkOf(items[..|items| - 1]), last.key, last.node)
  }

  /** Nothing in the chunk removes anything. */
  ghost predicate OnlyInserts(u: TrieUpdates) {
    && u.removedNodes == {}
    && forall a :: a in u.storageTries ==>
      u.storageTries[a].removedNodes == {} && !u.storageTries[a].isDeleted
  }

  lemma {:induction false} ChunkIsLatest(items: seq<Entry>)
    ensures OnlyInserts(ChunkOf(items))
    ensures FlatNodes(ChunkOf(items)) == Latest(items)
  {
    if items == [] {
      assert FlatNodes(NO_UPDATES) == map[];
    } else {
      var last := items[|items| - 1];
      var init := items[..|items| - 1];
      ChunkIsLatest(init);
      FlatInsert(ChunkOf(init), last.key, last.node);
    }
  }

  lemma InsertsAt(u: TrieUpdates, k: Key)
    requires OnlyInserts(u)
    ensures k in FlatOf(u).changes <==> k in FlatNodes(u)
    ensures k in FlatNodes(u) ==> FlatOf(u).changes[k] == Some(FlatNodes(u)[k])
    ensures FlatOf(u).wiped == {}
  {
    UpToAt(u, u.storageTries.Keys, k);
  }

  lemma CommitAt(c: CursorHabits, m: map<Key, Node>, items: seq<Entry>, k: Key)
    ensures Get(Apply(c, m, FlatOf(ChunkOf(items))), k) == Get(m + LastWrites(c, items), k)
    ensures k in Counted(c, m, FlatOf(ChunkOf(items))) <==> k in LastWrites(c, items)
  {
    var u := ChunkOf(items);
    ChunkIsLatest(items);
    ApplyAt(c, m, FlatOf(u), k);
    InsertsAt(u, k);
  }

  /** Committing a chunk writes the last node of each stored key, and counts those keys. */
  lemma CommitChunk(c: CursorHabits, m: map<Key, Node>, items: seq<Entry>)
    ensures Apply(c, m, FlatOf(ChunkOf(items))) == m + LastWrites(c, items)
    ensures |Counted(c, m, FlatOf(ChunkOf(items)))| == |LastWrites(c, items)|
  {
    var u := ChunkOf(items);
    forall k ensures Get(Apply(c, m, FlatOf(u)), k) == Get(m + LastWrites(c, items), k) {
      CommitAt(c, m, items, k);
    }
    SameMap(Apply(c, m, FlatOf(u)), m + LastWrites(c, items));
    forall k ensures k in Counted(c, m, FlatOf(u)) <==> k in LastWrites(c, items).Keys {
      CommitAt(c, m, items, k);
    }
    assert Counted(c, m, FlatOf(u)) == LastWrites(c, items).Keys;
  }

  /** `n` nodes fill chunks of `size` nodes without a remainder. */
  predicate Full(n: nat, size: nat)
    requires size > 0
  {
    n == 0 || (n >= size && Full(n - size, size))
  }

  /** Chunks committed for `n` nodes; the last one may be short. */
  function WrittenChunks(n: nat, size: nat): nat
    requires size > 0
  {
    if n == 0 then 0 else if n <= size then 1 else 1 + WrittenChunks(n - size, size)
  }

  /** Table entries written when `items` are committed every `size` nodes. */
  function WrittenNodes(c: CursorHabits, items: seq<Entry>, size: nat): nat
    requires size > 0
  {
    if |items| <= size then |LastWrites(c, items)|
    else |LastWrites(c, items[..size])| + WrittenNodes(c, items[size..], size)
  }

  lemma {:induction false} OneMoreFull(n: nat, m: nat, size: nat)
    requires size > 0 && Full(n, size) && 0 < m <= size
    ensures WrittenChunks(n + m, size) == WrittenChunks(n, size) + 1
    ensures m == size ==> Full(n + m, size)
    decreases n
  {
    if n > 0 {
      OneMoreFull(n - size, m, size);
    }
  }

  /** Committing one more chunk after full ones. */
  lemma {:induction false} OneMoreChunk(c: CursorHabits, done: seq<Entry>, chunk: seq<Entry>, size: nat)
    requires size > 0 && Full(|done|, size) && 0 < |chunk| <= size
    ensures WrittenNodes(c, done + chunk, size) == WrittenNodes(c, done, size) + |LastWrites(c, chunk)|
    decreases |done|
  {
    EmptyWrites(c);
    hide LastWrites;
    if done == [] {
      assert done + chunk == chunk;
    } else {
      var rest := done[size..];
      OneMoreChunk(c, rest, chunk, size);
      assert (done + chunk)[..size] == done[..size];
      assert (done + chunk)[size..] == rest + chunk;
      FirstChunkFirst(c, done, size);
    }
  }

  lemma EmptyWrites(c: CursorHabits)
    ensures LastWrites(c, []) == map[]
  {
  }

  lemma FirstChunkFirst(c: CursorHabits, items: seq<Entry>, size: nat)
    requires size > 0 && |items| >= size
    ensures WrittenNodes(c, items, size) == |LastWrites(c, items[..size])| + WrittenNodes(c, items[size..], size)
  {
    if |items| == size {
      assert items[..size] == items;
      assert LastWrites(c, []) == map[];
    }
  }

  /** The number of chunks is the ceiling of nodes over chunk size; full chunks leave no remainder. */
  lemma {:induction false} ChunksAreCeiling(n: nat, size: nat)
    requires size > 0
    ensures n <= WrittenChunks(n, size) * size
    ensures n > 0 ==> (WrittenChunks(n, size) - 1) * size < n
    ensures Full(n, size) <==> n == WrittenChunks(n, size) * size
    decreases n
  {
    if n > size {
      ChunksAreCeiling(n - size, size);
      var w := WrittenChunks(n - size, size);
      assert (w + 1) * size == w * size + size;
      assert (w - 1) * size == w * size - size;
    }
  }

  lemma {:induction false} LatestKeys(items: seq<Entry>)
    ensures Latest(items).Keys == set e | e in items :: e.key
  {
    if items != [] {
      var init, last := items[..|items| - 1], items[|items| - 1];
      LatestKeys(init);
      assert items == init + [last];
    }
  }

  /** Nodes with keys of their own all stay. */
  lemma {:induction false} DistinctLatest(items: seq<Entry>)
    requires DistinctKeys(items)
    ensures |Latest(items)| == |items|
    ensures forall e :: e in Entries(Latest(items)) <==> e in items
  {
    hide Entries;
    if items != [] {
      var init, last := items[..|items| - 1], items[|items| - 1];
      assert Latest(items) == Latest(init)[last.key := last.node];
      hide Latest;
      DistinctLatest(init);
      LatestKeys(init);
      assert last.key !in Latest(init) by {
        assert forall e :: e in init ==> e.key != last.key;
      }
      NewEntry(Latest(init), last);
      assert items == init + [last];
    }
  }

  lemma NewEntry(m: map<Key, Node>, e: Entry)
    requires e.key !in m
    ensures Entries(m[e.key := e.node]) == Entries(m) + {e}
    ensures |m[e.key := e.node]| == |m| + 1
  {
    forall x ensures x in Entries(m[e.key := e.node]) <==> x in Entries(m) + {e} {
    }
  }

  /** The nodes are all stored. */
  ghost predicate AllStored(c: CursorHabits, items: seq<Entry>) {
    forall e :: e in items ==> Stored(c, e.key)
  }

  lemma DistinctLastWrites(c: CursorHabits, items: seq<Entry>)
    requires DistinctKeys(items) && AllStored(c, items)
    ensures LastWrites(c, items) == Latest(items)
    ensures |LastWrites(c, items)| == |items|
  {
    DistinctLatest(items);
  }

  lemma DisjointSum(m: map<Key, Node>, n: map<Key, Node>)
    requires m.Keys !! n.Keys
    ensures |m + n| == |m| + |n|
  {
    assert (m + n).Keys == m.Keys + n.Keys;
  }

  lemma DistinctHalves(items: seq<Entry>, size: nat)
    requires size <= |items| && DistinctKeys(items)
    ensures Latest(items[..size]).Keys !! Latest(items[size..]).Keys
    ensures DistinctKeys(items[..size]) && DistinctKeys(items[size..])
  {
    LatestKeys(items[..size]);
    LatestKeys(items[size..]);
  }

  /** Distinct nodes are written once each however they are cut, those that are stored at all. */
  lemma {:induction false} DistinctWritesOnce(c: CursorHabits, items: seq<Entry>, size: nat)
    requires size > 0 && DistinctKeys(items)
    ensures WrittenNodes(c, items, size) == |LastWrites(c, items)|
    decreases |items|
  {
    if |items| > size {
      var a, b := items[..size], items[size..];
      DistinctHalves(items, size);
      DistinctWritesOnce(c, b, size);
      assert items == a + b;
      LastWritesAppend(c, a, b);
      DisjointSum(LastWrites(c, a), LastWrites(c, b));
    }
  }

  lemma ChunkFlat(items: seq<Entry>, k: Key)
    ensures k in FlatOf(ChunkOf(items)).changes <==> k in Latest(items)
    ensures k in Latest(items) ==> FlatOf(ChunkOf(items)).changes[k] == Some(Latest(items)[k])
    ensures FlatOf(ChunkOf(items)).wiped == {}
  {
    ChunkIsLatest(items);
    InsertsAt(ChunkOf(items), k);
  }

  lemma {:induction false} DistinctWrittenNodes(c: CursorHabits, items: seq<Entry>, size: nat)
    requires size > 0 && DistinctKeys(items) && AllStored(c, items)
    ensures WrittenNodes(c, items, size) == |items|
    decreases |items|
  {
    if |items| <= size {
      DistinctLastWrites(c, items);
    } else {
      DistinctLastWrites(c, items[..size]);
      DistinctWrittenNodes(c, items[size..], size);
    }
  }

  /** What the writer committed: table entries, and write transactions. */
  datatype Written = Written(nodes: nat, chunks: nat)

  /** The tables hold exactly `items` on top of what was there, and the totals are theirs. */
  ghost predicate HoldsExactly(c: CursorHabits, before: map<Key, Node>, now: map<Key, Node>, items: seq<Entry>,
                               size: nat, written: Written)
    requires size > 0
  {
    && now == before + LastWrites(c, items)
    && written == Written(WrittenNodes(c, items, size), WrittenChunks(|items|, size))
  }

  lemma ChunksWritten(c: CursorHabits, before: map<Key, Node>, now: map<Key, Node>, items: seq<Entry>,
                      size: nat, written: Written)
    requires size > 0 && HoldsExactly(c, before, now, items, size, written)
    ensures written.chunks == WrittenChunks(|items|, size)
  {
  }

  lemma MapAssociates(a: map<Key, Node>, b: map<Key, Node>, c: map<Key, Node>)
    ensures a + b + c == a + (b + c)
  {
  }

  lemma TablesStep(c: CursorHabits, before: map<Key, Node>, done: seq<Entry>, items: seq<Entry>)
    ensures before + LastWrites(c, done) + LastWrites(c, items) == before + LastWrites(c, done + items)
  {
    hide LastWrites;
    LastWritesAppend(c, done, items);
    MapAssociates(before, LastWrites(c, done), LastWrites(c, items));
  }

  lemma HoldsNothing(c: CursorHabits, before: map<Key, Node>, size: nat)
    requires size > 0
    ensures HoldsExactly(c, before, before, [], size, Written(0, 0))
  {
    EmptyWrites(c);
  }

  /** Committing the chunk of `items` after full chunks of `done`. */
  lemma CommitStep(c: CursorHabits, before: map<Key, Node>, now: map<Key, Node>, done: seq<Entry>,
                   items: seq<Entry>, size: nat, written: Written)
    requires size > 0 && Full(|done|, size) && 0 < |items| <= size
    requires HoldsExactly(c, before, now, done, size, written)
    ensures HoldsExactly(c, before, Apply(c, now, FlatOf(ChunkOf(items))), done + items, size,
                         Written(written.nodes + |Counted(c, now, FlatOf(ChunkOf(items)))|, written.chunks + 1))
  {
    hide LastWrites, WrittenNodes, WrittenChunks, Full, Apply, Counted, FlatOf, ChunkOf;
    var next := Apply(c, now, FlatOf(ChunkOf(items)));
    assert next == before + LastWrites(c, done + items) by {
      CommitChunk(c, now, items);
      TablesStep(c, before, done, items);
    }
    assert |Counted(c, now, FlatOf(ChunkOf(items)))| == |LastWrites(c, items)| by {
      CommitChunk(c, now, items);
    }
    OneMoreChunk(c, done, items, size);
    OneMoreFull(|done|, |items|, size);
  }

  // ---------------------------------------------------------------------------------------------
  // What the tables hold afterwards, arrival by arrival
  // ---------------------------------------------------------------------------------------------

  /** No later arrival has the key of arrival `i`. */
  ghost predicate IsLast(items: seq<Entry>, i: int) {
    0 <= i < |items| && forall j :: i < j < |items| ==> items[j].key != items[i].key
  }

  ghost predicate Arrived(items: seq<Entry>, k: Key) {
    exists i :: 0 <= i < |items| && items[i].key == k
  }

  /**
   * Every last arrival under its key is in the tables, but for the state trie's root and, if the
   * cursor ignores them, the roots of storage tries; every other key is as it was.
   */
  ghost predicate HoldsLast(c: CursorHabits, before: map<Key, Node>, now: map<Key, Node>, items: seq<Entry>) {
    && (forall i :: IsLast(items, i) ==>
          if items[i].key.path != [] || (items[i].key.account.Some? && !c.skipsRoot)
          then Holds(now, items[i].key, items[i].node) else Same(before, now, items[i].key))
    && (forall k :: !Arrived(items, k) ==> Same(before, now, k))
  }

  lemma {:induction false} LatestIsLast(items: seq<Entry>, i: int)
    requires IsLast(items, i)
    ensures Holds(Latest(items), items[i].key, items[i].node)
  {
    var last, init := |items| - 1, items[..|items| - 1];
    if i < last {
      assert IsLast(init, i);
      LatestIsLast(init, i);
    }
  }

  lemma LatestArrived(items: seq<Entry>, k: Key)
    ensures k in Latest(items) <==> Arrived(items, k)
  {
    LatestKeys(items);
    if k in Latest(items) {
      var e :| e in items && e.key == k;
      var i :| 0 <= i < |items| && items[i] == e;
    }
  }

  lemma LastsAreIndices(items: seq<Entry>)
    ensures forall i :: IsLast(items, i) ==> 0 <= i < |items|
  {
  }

  lemma LastWritesHold(c: CursorHabits, before: map<Key, Node>, items: seq<Entry>)
    ensures HoldsLast(c, before, before + LastWrites(c, items), items)
  {
    hide Latest, IsLast, Arrived;
    var now := before + LastWrites(c, items);
    LastsAreIndices(items);
    forall i | 0 <= i < |items| && IsLast(items, i)
      ensures if items[i].key.path != [] || (items[i].key.account.Some? && !c.skipsRoot)
              then Holds(now, items[i].key, items[i].node) else Same(before, now, items[i].key)
    {
      LatestIsLast(items, i);
    }
    forall k | !Arrived(items, k) ensures Same(before, now, k) {
      LatestArrived(items, k);
    }
  }
}
