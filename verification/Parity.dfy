/**
 * End to end: the writing sink, the table digest, the digest sink and the collecting sink agree
 * on the nodes a build emits.
 */
module Parity {
  import opened Trie
  import opened Overlay
  import opened XorFold
  import opened NodeDigests
  import opened TrieTables
  import opened Chunks
  import opened Writer
  import opened Sequences
  import opened Pipeline
  import opened TableScan
  import opened ShardedSink

  lemma DistinctIsNoDuplicates(s: seq<Entry>)
    requires DistinctKeys(s)
    ensures NoDuplicates(s)
  {
  }

  /** Having keys of their own does not depend on the order. */
  lemma DistinctPermuted(s: seq<Entry>, t: seq<Entry>)
    requires multiset(s) == multiset(t) && DistinctKeys(s)
    ensures DistinctKeys(t)
  {
    forall i, j | 0 <= i < j < |t| ensures t[i].key != t[j].key {
      assert t[i] in multiset(t) && t[j] in multiset(t);
      var a :| 0 <= a < |s| && s[a] == t[i];
      var b :| 0 <= b < |s| && s[b] == t[j];
      if t[i] == t[j] {
        DistinctMultiplicity(s, t[i]);
        TwoOccurrences(t, i, j);
      } else {
        assert a != b;
      }
    }
  }

  lemma TwoOccurrences<T(!new)>(t: seq<T>, i: nat, j: nat)
    requires i < j < |t| && t[i] == t[j]
    ensures multiset(t)[t[i]] >= 2
  {
    assert t == t[..j] + t[j..];
    assert t[i] in t[..j] && t[j] in t[j..];
  }

  lemma StoredPermuted(c: CursorHabits, s: seq<Entry>, t: seq<Entry>)
    requires multiset(s) == multiset(t) && AllStored(c, s)
    ensures AllStored(c, t)
  {
    forall e | e in t ensures Stored(c, e.key) {
      assert e in multiset(t);
      assert e in s;
    }
  }

  /** The digest of the table rows is the digest of the pushes. */
  lemma RowsDigestAsPushed(seeds: Seeds, items: seq<Entry>)
    requires DistinctKeys(items)
    ensures DigestOfSet(seeds, Entries(Latest(items))) == DigestOf(seeds, items)
  {
    DistinctLatest(items);
    DistinctIsNoDuplicates(items);
    DigestOfDistinct(seeds, items);
    assert Entries(Latest(items)) == Elements(items);
  }

  /** Nodes with keys of their own that are all stored: what the builder emits. */
  ghost predicate IsBuild(c: CursorHabits, nodes: seq<Entry>) {
    DistinctKeys(nodes) && AllStored(c, nodes)
  }

  lemma BuildIsWritten(c: CursorHabits, nodes: seq<Entry>, arrived: seq<Entry>, now: map<Key, Node>, size: nat,
          w: Written)
    requires size > 0 && IsBuild(c, nodes) && multiset(arrived) == multiset(nodes)
    requires HoldsExactly(c, map[], now, arrived, size, w)
    ensures now == Latest(arrived) && DistinctKeys(arrived)
    ensures w == Written(|nodes|, WrittenChunks(|nodes|, size))
    ensures forall e :: e in Entries(now) <==> e in nodes
  {
    DistinctPermuted(nodes, arrived);
    StoredPermuted(c, nodes, arrived);
    DistinctLastWrites(c, arrived);
    DistinctWrittenNodes(c, arrived, size);
    DistinctLatest(arrived);
    assert |multiset(arrived)| == |arrived| && |multiset(nodes)| == |nodes|;
    forall e ensures e in arrived <==> e in nodes {
      assert e in multiset(arrived) <==> e in multiset(nodes);
    }
    assert map[] + LastWrites(c, arrived) == LastWrites(c, arrived);
  }

  /**
   * Once `finish` has returned what was written, the tables hold exactly the emitted nodes, their
   * number was reported, and they digest as the nodes do in any order.
   */
  ghost predicate HoldsBuild(cfg: Config, work: seq<seq<Entry>>, s: State, seeds: Seeds, anyOrder: seq<Entry>)
    requires cfg.size > 0
  {
    && s.joined == Some(Ok(Written(|Flatten(work)|, WrittenChunks(|Flatten(work)|, cfg.size))))
    && (forall e :: e in Entries(s.tables) <==> e in Flatten(work))
    && DigestOfSet(seeds, Entries(s.tables)) == DigestOf(seeds, anyOrder)
  }

  lemma FinishedSinkParity(cfg: Config, work: seq<seq<Entry>>, run: seq<State>, seeds: Seeds, anyOrder: seq<Entry>)
    requires Sane(cfg) && IsRun(cfg, work, run) && cfg.initial == map[]
    requires run[|run| - 1].joined.Some? && run[|run| - 1].joined.value.Ok?
    requires IsBuild(cfg.habits, Flatten(work)) && multiset(anyOrder) == multiset(Flatten(work))
    ensures HoldsBuild(cfg, work, run[|run| - 1], seeds, anyOrder)
  {
    hide IsBuild, HoldsExactly, DigestOf, DigestOfSet;
    var s := run[|run| - 1];
    FinishedOk(cfg, work, run);
    BuildIsWritten(cfg.habits, Flatten(work), s.arrived, s.tables, cfg.size, s.joined.value.value);
    RowsDigestAsPushed(seeds, s.arrived);
    DigestIgnoresOrder(seeds, s.arrived, anyOrder);
  }

  /**
   * For any number of workers, any interleaving and any chunk size: a run in which no transaction
   * fails ends with the build in the tables.
   */
  lemma WriteSinkParity(cfg: Config, work: seq<seq<Entry>>, run: seq<State>, seeds: Seeds, anyOrder: seq<Entry>)
    requires Sane(cfg) && FailureFree(cfg, work, run) && AtEnd(cfg, run[|run| - 1]) && cfg.initial == map[]
    requires IsBuild(cfg.habits, Flatten(work)) && multiset(anyOrder) == multiset(Flatten(work))
    ensures HoldsBuild(cfg, work, run[|run| - 1], seeds, anyOrder)
  {
    hide IsBuild, HoldsBuild, AtEnd;
    FailureFreeFinishes(cfg, work, run);
    FailureFreeIsRun(cfg, work, run);
    FinishedSinkParity(cfg, work, run, seeds, anyOrder);
  }

  /**
   * Two finished runs over the same nodes leave the same tables, however the nodes are dealt to
   * workers, interleaved and cut into chunks.
   */
  lemma TablesDoNotDependOnTheRun(cfg: Config, cfg': Config, work: seq<seq<Entry>>, work': seq<seq<Entry>>,
                                  run: seq<State>, run': seq<State>)
    requires Sane(cfg) && IsRun(cfg, work, run)
    requires run[|run| - 1].joined.Some? && run[|run| - 1].joined.value.Ok?
    requires Sane(cfg') && IsRun(cfg', work', run')
    requires run'[|run'| - 1].joined.Some? && run'[|run'| - 1].joined.value.Ok?
    requires cfg.habits == cfg'.habits && cfg.initial == cfg'.initial
    requires DistinctKeys(Flatten(work)) && multiset(Flatten(work)) == multiset(Flatten(work'))
    ensures run[|run| - 1].tables == run'[|run'| - 1].tables
  {
    hide LastWrites;
    var s, t := run[|run| - 1], run'[|run'| - 1];
    FinishedOk(cfg, work, run);
    FinishedOk(cfg', work', run');
    DistinctPermuted(Flatten(work), s.arrived);
    DistinctPermuted(s.arrived, t.arrived);
    SameLatest(s.arrived, t.arrived);
    SameLastWrites(cfg.habits, s.arrived, t.arrived);
  }

  lemma SameLatest(s: seq<Entry>, t: seq<Entry>)
    requires DistinctKeys(s) && DistinctKeys(t) && multiset(s) == multiset(t)
    ensures Latest(s) == Latest(t)
  {
    DistinctLatest(s);
    DistinctLatest(t);
    forall e ensures e in Entries(Latest(s)) <==> e in Entries(Latest(t)) {
      assert e in multiset(s) <==> e in multiset(t);
    }
    EntriesDetermine(Latest(s), Latest(t));
  }

  lemma EntriesDetermine(m: map<Key, Node>, n: map<Key, Node>)
    requires forall e :: e in Entries(m) <==> e in Entries(n)
    ensures m == n
  {
    forall k ensures k in m <==> k in n {
      if k in m {
        assert Entry(k, m[k]) in Entries(m);
      }
      if k in n {
        assert Entry(k, n[k]) in Entries(n);
      }
    }
    forall k | k in m ensures m[k] == n[k] {
      assert Entry(k, m[k]) in Entries(m);
    }
  }

  lemma SameLastWrites(c: CursorHabits, s: seq<Entry>, t: seq<Entry>)
    requires Latest(s) == Latest(t)
    ensures LastWrites(c, s) == LastWrites(c, t)
  {
  }

  /** Writing a build in chunks and digesting the tables gives the build's own digest and count. */
  method WriteThenDigest<AK(==, !new), SK(==, !new)>(db: Tables<AK, SK>, seeds: Seeds, chunkNodes: nat,
          nodes: seq<Entry>,
                                                     commits: nat -> bool)
    returns (r: Outcome<(Written, TrieTablesDigest)>)
    requires db.Valid() && db.Contents() == map[] && IsBuild(db.habits, nodes)
    modifies db
    ensures db.Valid()
    ensures r.Ok? <==> AllSucceed(commits, WrittenChunks(|nodes|, ChunkSize(chunkNodes)))
    ensures r.Ok? ==>
      && r.value.0 == Written(|nodes|, WrittenChunks(|nodes|, ChunkSize(chunkNodes)))
      && r.value.1.digest == DigestOf(seeds, nodes)
      && r.value.1.accountNodes + r.value.1.storageNodes == |nodes|
  {
    hide HoldsExactly, DigestOf, DigestOfSet, IsBuild, LastWrites, AllSucceed, WrittenChunks;
    var written := WriteChunks(db, ChunkSize(chunkNodes), nodes, commits);
    if written.Err? {
      return Err;
    }
    BuildIsWritten(db.habits, nodes, nodes, db.Contents(), ChunkSize(chunkNodes), written.value);
    RowsDigestAsPushed(seeds, nodes);
    DistinctLatest(nodes);
    var tables := DigestTables(db, seeds);
    r := Ok((written.value, tables));
  }

  /** The collected `TrieUpdates` digest as the emissions did. */
  method CollectThenDigest(sink: TrieUpdatesSink, seeds: Seeds) returns (updates: TrieUpdates, d: Digest)
    requires sink.Valid() && DistinctKeys(sink.emitted)
    ensures d == DigestOf(seeds, sink.emitted)
    ensures forall e :: e in Entries(FlatNodes(updates)) <==> e in sink.emitted
  {
    updates := sink.IntoTrieUpdates();
    d := NodeDigest.OfTrieUpdates(seeds, updates);
    RowsDigestAsPushed(seeds, sink.emitted);
    DistinctLatest(sink.emitted);
  }
}
