/** The writer thread's loop: fills a chunk and commits it in a transaction. */
module Writer {
  import opened Trie
  import opened Overlay
  import opened TrieTables
  import opened Chunks

  /**
   * One write transaction. `succeeds` is false when opening it, writing or committing fails; the
   * committed rows then stay as they were.
   */
  method Commit<AK(==, !new), SK(==, !new)>(db: Tables<AK, SK>, chunk: TrieUpdates, succeeds: bool)
    returns (r: Outcome<nat>)
    requires db.Valid()
    modifies db
    ensures db.Valid()
    ensures r.Ok? <==> succeeds
    ensures r.Ok? ==> db.Contents() == Apply(db.habits, old(db.Contents()), FlatOf(chunk))
    ensures r.Ok? ==> r.value == |Counted(db.habits, old(db.Contents()), FlatOf(chunk))|
    ensures r.Err? ==> db.Contents() == old(db.Contents())
  {
    var tx := new Tables.Begin(db);
    var nodes := tx.WriteTrieUpdates(chunk);
    if succeeds {
      db.accounts := tx.accounts;
      db.storages := tx.storages;
      r := Ok(nodes);
    } else {
      r := Err;
    }
  }

  /** The first `chunks` commits went through. */
  ghost predicate AllSucceed(commits: nat -> bool, chunks: nat) {
    forall j: nat :: j < chunks ==> commits(j)
  }

  /** `items` are committed, each chunk in a commit that succeeded. */
  ghost predicate CommittedUpTo(c: CursorHabits, before: map<Key, Node>, now: map<Key, Node>,
                                items: seq<Entry>, size: nat, commits: nat -> bool, written: Written)
    requires size > 0
  {
    && HoldsExactly(c, before, now, items, size, written)
    && AllSucceed(commits, WrittenChunks(|items|, size))
  }

  lemma OneMoreSucceeds(commits: nat -> bool, chunks: nat)
    requires AllSucceed(commits, chunks) && commits(chunks)
    ensures AllSucceed(commits, chunks + 1)
  {
  }

  /** Commits the pending chunk, which holds the nodes `items`, after the nodes `done`. */
  method CommitPending<AK(==, !new), SK(==, !new)>(
      db: Tables<AK, SK>, chunk: TrieUpdates, written: Written, succeeds: bool, ghost before: map<Key, Node>,
      ghost done: seq<Entry>, ghost items: seq<Entry>, ghost size: nat, ghost commits: nat -> bool)
    returns (r: Outcome<Written>)
    requires db.Valid() && size > 0 && Full(|done|, size) && 0 < |items| <= size
    requires chunk == ChunkOf(items) && succeeds == commits(written.chunks)
    requires CommittedUpTo(db.habits, before, db.Contents(), done, size, commits, written)
    modifies db
    ensures db.Valid()
    ensures r.Ok? <==> succeeds
    ensures r.Ok? ==> CommittedUpTo(db.habits, before, db.Contents(), done + items, size, commits, r.value)
    ensures r.Err? ==> db.Contents() == old(db.Contents())
  {
    hide HoldsExactly, AllSucceed, WrittenChunks, Full, LastWrites, Apply, Counted, FlatOf, ChunkOf;
    ChunksWritten(db.habits, before, db.Contents(), done, size, written);
    ghost var now := db.Contents();
    var n := Commit(db, chunk, succeeds);
    match n {
      case Err =>
        r := Err;
      case Ok(nodes) =>
        CommitStep(db.habits, before, now, done, items, size, written);
        OneMoreSucceeds(commits, WrittenChunks(|done|, size));
        OneMoreFull(|done|, |items|, size);
        r := Ok(Written(written.nodes + nodes, written.chunks + 1));
    }
  }

  /** The state a failed run leaves: a prefix of full chunks, up to the commit that failed. */
  ghost predicate StoppedAt(c: CursorHabits, before: map<Key, Node>, now: map<Key, Node>, arrivals: seq<Entry>,
                            size: nat, commits: nat -> bool, m: nat)
    requires size > 0
  {
    && m < |arrivals| && Full(m, size)
    && AllSucceed(commits, WrittenChunks(m, size)) && !commits(WrittenChunks(m, size))
    && now == before + LastWrites(c, arrivals[..m])
  }

  lemma StopsHere(c: CursorHabits, before: map<Key, Node>, now: map<Key, Node>, arrivals: seq<Entry>,
                  size: nat, commits: nat -> bool, m: nat, written: Written)
    requires size > 0 && m < |arrivals| && Full(m, size) && !commits(written.chunks)
    requires CommittedUpTo(c, before, now, arrivals[..m], size, commits, written)
    ensures StoppedAt(c, before, now, arrivals, size, commits, m)
    ensures !AllSucceed(commits, WrittenChunks(|arrivals|, size))
  {
    ChunksWritten(c, before, now, arrivals[..m], size, written);
    StoppedEarly(c, before, now, arrivals, size, commits, m);
  }

  /** A run that stopped did not have all its commits succeed. */
  lemma StoppedEarly(c: CursorHabits, before: map<Key, Node>, now: map<Key, Node>, arrivals: seq<Entry>,
                     size: nat, commits: nat -> bool, m: nat)
    requires size > 0 && StoppedAt(c, before, now, arrivals, size, commits, m)
    ensures !AllSucceed(commits, WrittenChunks(|arrivals|, size))
  {
    FailsBefore(|arrivals|, m, size, 1);
  }

  lemma NothingCommitted(c: CursorHabits, before: map<Key, Node>, arrivals: seq<Entry>, size: nat, commits: nat -> bool)
    requires size > 0
    ensures CommittedUpTo(c, before, before, arrivals[..0], size, commits, Written(0, 0))
    ensures Full(0, size) && ChunkOf(arrivals[0..0]) == NO_UPDATES
  {
    HoldsNothing(c, before, size);
    hide HoldsExactly;
  }

  lemma InsertStep(arrivals: seq<Entry>, m: nat, i: nat)
    requires m <= i < |arrivals|
    ensures ChunkOf(arrivals[m..i + 1]) == Insert(ChunkOf(arrivals[m..i]), arrivals[i].key, arrivals[i].node)
  {
    assert arrivals[m..i + 1][..i - m] == arrivals[m..i];
  }

  lemma ChunkDone(arrivals: seq<Entry>, m: nat, i: nat, size: nat)
    requires m < i <= |arrivals| && size > 0 && Full(m, size) && i - m == size
    ensures arrivals[..m] + arrivals[m..i] == arrivals[..i]
    ensures Full(i, size)
    ensures ChunkOf(arrivals[i..i]) == NO_UPDATES
  {
    OneMoreFull(m, size, size);
  }

  /**
   * The loop over the receiver, which yields `arrivals` until the channel closes. `commits(k)`
   * says whether the k-th transaction goes through.
   */
  method WriteChunks<AK(==, !new), SK(==, !new)>(db: Tables<AK, SK>, chunkNodes: nat, arrivals: seq<Entry>,
          commits: nat -> bool)
    returns (r: Outcome<Written>)
    requires db.Valid() && chunkNodes > 0
    modifies db
    ensures db.Valid()
    ensures r.Ok? <==> AllSucceed(commits, WrittenChunks(|arrivals|, chunkNodes))
    ensures r.Ok? ==>
      CommittedUpTo(db.habits, old(db.Contents()), db.Contents(), arrivals, chunkNodes, commits, r.value)
    ensures r.Ok? ==> HoldsLast(db.habits, old(db.Contents()), db.Contents(), arrivals)
    ensures r.Err? ==>
      exists m: nat :: StoppedAt(db.habits, old(db.Contents()), db.Contents(), arrivals, chunkNodes, commits, m)
  {
    hide HoldsLast, CommittedUpTo, HoldsExactly, StoppedAt, LastWrites, AllSucceed, Insert, ChunkOf, Full, WrittenNodes,
      WrittenChunks;
    var written := Written(0, 0);
    var chunk := NO_UPDATES;
    var pending := 0;
    ghost var before := db.Contents();
    ghost var m: nat := 0;
    NothingCommitted(db.habits, before, arrivals, chunkNodes, commits);
    for i := 0 to |arrivals|
      invariant db.Valid()
      invariant i == m + pending && pending < chunkNodes && Full(m, chunkNodes)
      invariant chunk == ChunkOf(arrivals[m..i])
      invariant CommittedUpTo(db.habits, before, db.Contents(), arrivals[..m], chunkNodes, commits, written)
    {
      InsertStep(arrivals, m, i);
      chunk := Insert(chunk, arrivals[i].key, arrivals[i].node);
      pending := pending + 1;
      if pending >= chunkNodes {
        var n := CommitPending(db, chunk, written, commits(written.chunks), before,
                               arrivals[..m], arrivals[m..i + 1], chunkNodes, commits);
        if n.Err? {
          StopsHere(db.habits, before, db.Contents(), arrivals, chunkNodes, commits, m, written);
          return Err;
        }
        ChunkDone(arrivals, m, i + 1, chunkNodes);
        written := n.value;
        chunk := NO_UPDATES;
        pending := 0;
        m := i + 1;
      }
    }
    assert arrivals[..m] + arrivals[m..] == arrivals;
    assert arrivals[m..|arrivals|] == arrivals[m..];
    if pending > 0 {
      var n := CommitPending(db, chunk, written, commits(written.chunks), before,
                             arrivals[..m], arrivals[m..], chunkNodes, commits);
      if n.Err? {
        StopsHere(db.habits, before, db.Contents(), arrivals, chunkNodes, commits, m, written);
        return Err;
      }
      written := n.value;
    } else {
      assert arrivals[..m] == arrivals;
    }
    AllCommitted(db.habits, before, db.Contents(), arrivals, chunkNodes, commits, written);
    r := Ok(written);
  }

  lemma AllCommitted(c: CursorHabits, before: map<Key, Node>, now: map<Key, Node>, arrivals: seq<Entry>,
                     size: nat, commits: nat -> bool, written: Written)
    requires size > 0 && CommittedUpTo(c, before, now, arrivals, size, commits, written)
    ensures AllSucceed(commits, WrittenChunks(|arrivals|, size))
    ensures HoldsLast(c, before, now, arrivals)
  {
    hide HoldsLast, LastWrites;
    LastWritesHold(c, before, arrivals);
  }

  /** A chunk that is due before the end belongs to the chunks of the whole. */
  lemma {:induction false} FailsBefore(n: nat, m: nat, size: nat, pending: nat)
    requires size > 0 && Full(m, size) && 0 < pending && m + pending <= n
    ensures WrittenChunks(m, size) < WrittenChunks(n, size)
    decreases m
  {
    if m > 0 {
      FailsBefore(n - size, m - size, size, pending);
    }
  }

  /** The chunk size `MdbxWriteSink::new` hands to the loop: the configured one, but never zero. */
  function ChunkSize(chunkNodes: nat): (n: nat)
    ensures n >= 1 && n >= chunkNodes && (n == 1 || n == chunkNodes)
  {
    if chunkNodes == 0 then 1 else chunkNodes
  }
}
