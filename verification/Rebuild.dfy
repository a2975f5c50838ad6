/**
 * reth's own rebuild: clear the trie tables, then walk and commit piece by piece until the walk
 * completes.
 */
module Rebuild {
  import opened Trie
  import opened Overlay
  import opened TrieTables
  import opened Chunks
  import opened Writer

  // ---------------------------------------------------------------------------------------------
  // The resumable walk, which is not part of this repository
  // ---------------------------------------------------------------------------------------------

  /** What one call hands out: a piece and where to resume, or the last piece and the root. */
  datatype Progress<+S> =
    | Progress(next: S, entries: nat, updates: TrieUpdates)
    | Complete(root: B256, entries: nat, updates: TrieUpdates)

  datatype Whole = Whole(root: B256, entries: nat, updates: TrieUpdates)

  /**
   * `step` is one call, from the beginning (`None`) or from an intermediate state; `left` bounds
   * what is still ahead; `whole` is the walk of the same rest in one go.
   */
  datatype Walk<!S> = Walk(
    step: (Option<nat>, Option<S>) -> Progress<S>, ghost left: Option<S> -> nat, ghost whole: Option<S> -> Whole)

  /** Two batches do the same to any tables. */
  ghost predicate SameEffect(c: CursorHabits, f: FlatUpdates, g: FlatUpdates) {
    forall m: map<Key, Node> :: Apply(c, m, f) == Apply(c, m, g)
  }

  /** A call from `s` takes a piece off the whole and leaves the whole of what follows. */
  ghost predicate StepCoherent<S>(c: CursorHabits, w: Walk<S>, threshold: Option<nat>, s: Option<S>) {
    match w.step(threshold, s)
    case Progress(next, entries, updates) =>
      && w.left(Some(next)) < w.left(s)
      && w.whole(s).root == w.whole(Some(next)).root
      && w.whole(s).entries == entries + w.whole(Some(next)).entries
      && SameEffect(c, FlatOf(w.whole(s).updates), Then(c, FlatOf(updates), FlatOf(w.whole(Some(next)).updates)))
    case Complete(root, entries, updates) =>
      w.whole(s) == Whole(root, entries, updates)
  }

  ghost predicate Coherent<S(!new)>(c: CursorHabits, w: Walk<S>) {
    forall threshold, s :: StepCoherent(c, w, threshold, s)
  }

  /** The pieces touch different nodes, as those of a walk in key order do. */
  ghost predicate StepSeparate<S>(w: Walk<S>, threshold: Option<nat>, s: Option<S>) {
    match w.step(threshold, s)
    case Progress(next, _, updates) =>
      && Separate(FlatOf(updates), FlatOf(w.whole(Some(next)).updates))
      && FlatOf(w.whole(s).updates) == Both(FlatOf(updates), FlatOf(w.whole(Some(next)).updates))
    case Complete(_, _, _) => true
  }

  ghost predicate PiecesSeparate<S(!new)>(w: Walk<S>) {
    forall threshold, s :: StepSeparate(w, threshold, s)
  }

  /** Pieces that touch different nodes compose to their union. */
  lemma SeparateComposes(c: CursorHabits, f: FlatUpdates, g: FlatUpdates)
    requires Separate(f, g)
    ensures SameEffect(c, Both(f, g), Then(c, f, g))
  {
    hide Apply, Separate, Then, Both;
    forall m: map<Key, Node> ensures Apply(c, m, Both(f, g)) == Apply(c, m, Then(c, f, g)) {
      ApplySeparately(c, m, f, g);
      ApplyThen(c, m, f, g);
    }
  }

  // ---------------------------------------------------------------------------------------------
  // The rebuild
  // ---------------------------------------------------------------------------------------------

  datatype Rebuilt = Rebuilt(root: B256, entries: nat, written: nat, chunks: nat)

  /** With `entries` walked and `now` in the tables, what the walk from `s` still brings completes the whole. */
  ghost predicate Ahead<S>(c: CursorHabits, w: Walk<S>, before: map<Key, Node>, now: map<Key, Node>, s: Option<S>,
          entries: nat)
  {
    && w.whole(None).root == w.whole(s).root
    && w.whole(None).entries == entries + w.whole(s).entries
    && Apply(c, before, FlatOf(w.whole(None).updates)) == Apply(c, now, FlatOf(w.whole(s).updates))
  }

  ghost predicate WrittenSoFar<S>(c: CursorHabits, w: Walk<S>, before: map<Key, Node>, now: map<Key, Node>,
          s: Option<S>, written: nat)
  {
    |Counted(c, before, FlatOf(w.whole(None).updates))|
      == written + |Counted(c, now, FlatOf(w.whole(s).updates))|
  }

  /** What a rebuild has done: where it resumes, the entries walked, the tables, and whether the walk is over. */
  datatype Done<+S> = Done(state: Option<S>, entries: nat, tables: map<Key, Node>, complete: bool)

  /** The first `k` pieces, committed one after the other onto the tables `before`. */
  ghost function Pieces<S>(c: CursorHabits, w: Walk<S>, threshold: Option<nat>, before: map<Key, Node>, k: nat): Done<S>
  {
    if k == 0 then Done(None, 0, before, false)
    else
      var d := Pieces(c, w, threshold, before, k - 1);
      if d.complete then d
      else
        var p := w.step(threshold, d.state);
        Done(if p.Progress? then Some(p.next) else d.state, d.entries + p.entries,
             Apply(c, d.tables, FlatOf(p.updates)), p.Complete?)
  }

  /** The walk is over with piece `k`, and not before. */
  ghost predicate CompleteAfter<S>(c: CursorHabits, w: Walk<S>, threshold: Option<nat>, before: map<Key, Node>, k: nat)
  {
    && Pieces(c, w, threshold, before, k).complete
    && forall j: nat :: j < k ==> !Pieces(c, w, threshold, before, j).complete
  }

  lemma {:induction false} CompleteStays<S>(c: CursorHabits, w: Walk<S>, threshold: Option<nat>, before: map<Key, Node>,
                                            j: nat, k: nat)
    requires j <= k && Pieces(c, w, threshold, before, j).complete
    ensures Pieces(c, w, threshold, before, k).complete
  {
    hide Apply, FlatOf;
    if j < k {
      CompleteStays(c, w, threshold, before, j, k - 1);
    }
  }

  lemma FirstComplete<S>(c: CursorHabits, w: Walk<S>, threshold: Option<nat>, before: map<Key, Node>, k: nat)
    requires k > 0 && Pieces(c, w, threshold, before, k).complete && !Pieces(c, w, threshold, before, k - 1).complete
    ensures CompleteAfter(c, w, threshold, before, k)
  {
    hide Pieces;
    forall j: nat | j < k ensures !Pieces(c, w, threshold, before, j).complete {
      if Pieces(c, w, threshold, before, j).complete {
        CompleteStays(c, w, threshold, before, j, k - 1);
      }
    }
  }

  /** The walk from there on completes the whole. */
  lemma {:induction false} PiecesAhead<S(!new)>(c: CursorHabits, w: Walk<S>, threshold: Option<nat>,
                                                before: map<Key, Node>, k: nat)
    requires Coherent(c, w) && !Pieces(c, w, threshold, before, k).complete
    ensures var d := Pieces(c, w, threshold, before, k); Ahead(c, w, before, d.tables, d.state, d.entries)
  {
    hide Apply, FlatOf, Coherent;
    if k > 0 {
      PiecesAhead(c, w, threshold, before, k - 1);
      var d := Pieces(c, w, threshold, before, k - 1);
      PieceTaken(c, w, threshold, before, d.tables, d.state, d.entries);
    }
  }

  /**
   * The tables hold exactly the `k` pieces whose commits went through, the commit of the next
   * failed, and a walk resumed where these pieces end would bring exactly what is missing.
   */
  ghost predicate StoppedAfter<S>(c: CursorHabits, w: Walk<S>, threshold: Option<nat>, before: map<Key, Node>,
                                  now: map<Key, Node>, commits: nat -> bool, k: nat) {
    var d := Pieces(c, w, threshold, before, k);
    && AllSucceed(commits, k) && !commits(k) && !d.complete && now == d.tables
    && Ahead(c, w, before, now, d.state, d.entries)
  }

  lemma PieceTaken<S(!new)>(c: CursorHabits, w: Walk<S>, threshold: Option<nat>, before: map<Key, Node>,
          now: map<Key, Node>,
                            s: Option<S>, entries: nat)
    requires Coherent(c, w) && w.step(threshold, s).Progress? && Ahead(c, w, before, now, s, entries)
    ensures var p := w.step(threshold, s);
      Ahead(c, w, before, Apply(c, now, FlatOf(p.updates)), Some(p.next), entries + p.entries)
  {
    hide Apply, Then, FlatOf;
    var p := w.step(threshold, s);
    assert StepCoherent(c, w, threshold, s);
    ApplyThen(c, now, FlatOf(p.updates), FlatOf(w.whole(Some(p.next)).updates));
  }

  lemma PieceCounted<S(!new)>(c: CursorHabits, w: Walk<S>, threshold: Option<nat>, before: map<Key, Node>,
          now: map<Key, Node>,
                              s: Option<S>, written: nat)
    requires PiecesSeparate(w) && w.step(threshold, s).Progress? && WrittenSoFar(c, w, before, now, s, written)
    ensures var p := w.step(threshold, s);
      WrittenSoFar(c, w, before, Apply(c, now, FlatOf(p.updates)), Some(p.next),
                   written + |Counted(c, now, FlatOf(p.updates))|)
  {
    hide Apply, Counted, FlatOf, Separate, Both;
    var p := w.step(threshold, s);
    assert StepSeparate(w, threshold, s);
    ApplySeparately(c, now, FlatOf(p.updates), FlatOf(w.whole(Some(p.next)).updates));
  }

  method ClearTrieTables<AK(==, !new), SK(==, !new)>(db: Tables<AK, SK>, succeeds: bool) returns (r: Outcome<()>)
    requires db.Valid()
    modifies db
    ensures db.Valid()
    ensures r.Ok? <==> succeeds
    ensures db.Contents() == if succeeds then map[] else old(db.Contents())
  {
    if !succeeds {
      return Err;
    }
    db.Clear();
    r := Ok(());
  }

  /**
   * Ends for every threshold. When all its commits go through, it leaves the tables as the whole
   * walk committed once does, with the same root and number of entries, and with the same number
   * of table entries written if the pieces touch different nodes. When a commit fails, the tables
   * hold exactly the pieces before it.
   */
  method RebuildTables<AK(==, !new), SK(==, !new), S(!new)>(
      db: Tables<AK, SK>, w: Walk<S>, threshold: Option<nat>, commits: nat -> bool)
    returns (r: Outcome<Rebuilt>)
    requires db.Valid() && Coherent(db.habits, w)
    modifies db
    ensures db.Valid()
    ensures r.Ok? ==> db.Contents() == Apply(db.habits, old(db.Contents()), FlatOf(w.whole(None).updates))
    ensures r.Ok? ==> r.value.root == w.whole(None).root && r.value.entries == w.whole(None).entries
    ensures r.Ok? && PiecesSeparate(w) ==>
      r.value.written == |Counted(db.habits, old(db.Contents()), FlatOf(w.whole(None).updates))|
    ensures r.Ok? ==> AllSucceed(commits, r.value.chunks)
    ensures r.Ok? ==> r.value.chunks > 0 && CompleteAfter(db.habits, w, threshold, old(db.Contents()), r.value.chunks)
    ensures r.Err? ==>
      exists k: nat :: StoppedAfter(db.habits, w, threshold, old(db.Contents()), db.Contents(), commits, k)
  {
    hide Apply, Counted, FlatOf, Coherent, PiecesSeparate, AllSucceed, Ahead, CompleteAfter, WrittenSoFar,
      StepCoherent, Then;
    var state: Option<S> := None;
    var totals := Rebuilt(Zero(), 0, 0, 0);
    ghost var before := db.Contents();
    NothingCommitted(commits);
    NothingWritten(db.habits, w, before);
    while true
      invariant db.Valid()
      invariant Pieces(db.habits, w, threshold, before, totals.chunks)
             == Done(state, totals.entries, db.Contents(), false)
      invariant PiecesSeparate(w) ==> WrittenSoFar(db.habits, w, before, db.Contents(), state, totals.written)
      invariant AllSucceed(commits, totals.chunks)
      decreases w.left(state)
    {
      var progress := w.step(threshold, state);
      ghost var now := db.Contents();
      PiecesAhead(db.habits, w, threshold, before, totals.chunks);
      var n := Commit(db, progress.updates, commits(totals.chunks));
      if n.Err? {
        assert StoppedAfter(db.habits, w, threshold, before, db.Contents(), commits, totals.chunks);
        return Err;
      }
      OneMoreSucceeds(commits, totals.chunks);
      totals := Rebuilt(totals.root, totals.entries + progress.entries, totals.written + n.value, totals.chunks + 1);
      match progress {
        case Complete(root, entries, _) =>
          FirstComplete(db.habits, w, threshold, before, totals.chunks);
          LastPiece(db.habits, w, threshold, state);
          NothingAhead(db.habits, w, before, now, state, totals.entries - entries);
          if PiecesSeparate(w) {
            WrittenInAll(db.habits, w, before, now, state, totals.written - n.value);
          }
          return Ok(totals.(root := root));
        case Progress(next, _, _) =>
          NextIsCloser(db.habits, w, threshold, state);
          if PiecesSeparate(w) {
            PieceCounted(db.habits, w, threshold, before, now, state, totals.written - n.value);
          }
          state := Some(next);
      }
    }
  }

  lemma NothingAhead<S>(c: CursorHabits, w: Walk<S>, before: map<Key, Node>, now: map<Key, Node>, s: Option<S>,
                        entries: nat)
    requires Ahead(c, w, before, now, s, entries)
    ensures w.whole(None).root == w.whole(s).root && w.whole(None).entries == entries + w.whole(s).entries
    ensures Apply(c, before, FlatOf(w.whole(None).updates)) == Apply(c, now, FlatOf(w.whole(s).updates))
  {
  }

  lemma NothingCommitted(commits: nat -> bool)
    ensures AllSucceed(commits, 0)
  {
  }

  lemma NothingWritten<S>(c: CursorHabits, w: Walk<S>, before: map<Key, Node>)
    ensures WrittenSoFar(c, w, before, before, None, 0)
  {
  }

  lemma WrittenInAll<S>(c: CursorHabits, w: Walk<S>, before: map<Key, Node>, now: map<Key, Node>, s: Option<S>,
                        written: nat)
    requires WrittenSoFar(c, w, before, now, s, written)
    ensures |Counted(c, before, FlatOf(w.whole(None).updates))|
         == written + |Counted(c, now, FlatOf(w.whole(s).updates))|
  {
  }

  lemma LastPiece<S(!new)>(c: CursorHabits, w: Walk<S>, threshold: Option<nat>, s: Option<S>)
    requires Coherent(c, w) && w.step(threshold, s).Complete?
    ensures var p := w.step(threshold, s); w.whole(s) == Whole(p.root, p.entries, p.updates)
  {
    assert StepCoherent(c, w, threshold, s);
  }

  lemma NextIsCloser<S(!new)>(c: CursorHabits, w: Walk<S>, threshold: Option<nat>, s: Option<S>)
    requires Coherent(c, w) && w.step(threshold, s).Progress?
    ensures w.left(Some(w.step(threshold, s).next)) < w.left(s)
  {
    assert StepCoherent(c, w, threshold, s);
  }

  /** The tables are cleared in a transaction of their own before the walk starts. */
  method RethRebuild<AK(==, !new), SK(==, !new), S(!new)>(
      db: Tables<AK, SK>, w: Walk<S>, threshold: Option<nat>, clears: bool, commits: nat -> bool)
    returns (r: Outcome<Rebuilt>)
    requires db.Valid() && Coherent(db.habits, w)
    modifies db
    ensures db.Valid()
    ensures r.Ok? ==> db.Contents() == Apply(db.habits, map[], FlatOf(w.whole(None).updates))
    ensures r.Ok? ==> r.value.root == w.whole(None).root && r.value.entries == w.whole(None).entries
    ensures r.Ok? && PiecesSeparate(w) ==>
      r.value.written == |Counted(db.habits, map[], FlatOf(w.whole(None).updates))|
    ensures r.Ok? ==> AllSucceed(commits, r.value.chunks)
    ensures r.Ok? ==> r.value.chunks > 0 && CompleteAfter(db.habits, w, threshold, map[], r.value.chunks)
    ensures !clears ==> r.Err? && db.Contents() == old(db.Contents())
    ensures clears && r.Err? ==>
      exists k: nat :: StoppedAfter(db.habits, w, threshold, map[], db.Contents(), commits, k)
  {
    hide Apply, Counted, FlatOf, Coherent, PiecesSeparate;
    var cleared := ClearTrieTables(db, clears);
    if cleared.Err? {
      return Err;
    }
    hide StoppedAfter, CompleteAfter;
    r := RebuildTables(db, w, threshold, commits);
  }

  /** The walk in one go, committed once onto cleared tables. */
  method OneShot<AK(==, !new), SK(==, !new)>(db: Tables<AK, SK>, all: Whole) returns (written: nat)
    requires db.Valid()
    modifies db
    ensures db.Valid()
    ensures db.Contents() == Apply(db.habits, map[], FlatOf(all.updates))
    ensures written == |Counted(db.habits, map[], FlatOf(all.updates))|
  {
    db.Clear();
    written := db.WriteTrieUpdates(all.updates);
  }

  /** For every threshold, piecewise and one-shot rebuilds of two databases agree. */
  method RebuildMatchesOneShot<AK(==, !new), SK(==, !new), S(!new)>(
      pieces: Tables<AK, SK>, once: Tables<AK, SK>, w: Walk<S>, all: Whole, threshold: Option<nat>,
        commits: nat -> bool)
    returns (r: Outcome<Rebuilt>, written: nat)
    requires pieces != once && pieces.Valid() && once.Valid() && pieces.habits == once.habits
    requires Coherent(pieces.habits, w) && all == w.whole(None)
    modifies pieces, once
    ensures r.Ok? ==>
      && pieces.Contents() == once.Contents()
      && r.value.root == all.root && r.value.entries == all.entries
      && (PiecesSeparate(w) ==> r.value.written == written)
  {
    hide Apply, Counted, FlatOf, Coherent, PiecesSeparate;
    r := RethRebuild(pieces, w, threshold, true, commits);
    written := OneShot(once, all);
  }

  // ---------------------------------------------------------------------------------------------
  // A rebuild and a parallel build of the same nodes
  // ---------------------------------------------------------------------------------------------

  function Position(s: Option<nat>, end: nat): (p: nat)
    ensures p <= end
  {
    match s
    case None => 0
    case Some(p) => if p < end then p else end
  }

  /** The walk that meets `nodes` in this order and pauses wherever `cut` says, one entry a node. */
  function EmissionWalk(nodes: seq<Entry>, root: B256, cut: (Option<nat>, nat) -> nat): Walk<nat> {
    Walk((threshold, s) => Emit(nodes, root, cut, threshold, s),
         s => |nodes| - Position(s, |nodes|),
         s => Whole(root, |nodes| - Position(s, |nodes|), ChunkOf(nodes[Position(s, |nodes|)..])))
  }

  function Emit(nodes: seq<Entry>, root: B256, cut: (Option<nat>, nat) -> nat, threshold: Option<nat>,
          s: Option<nat>): Progress<nat>
  {
    var p := Position(s, |nodes|);
    var end := p + 1 + cut(threshold, p);
    if end < |nodes| then Progress(end, end - p, ChunkOf(nodes[p..end]))
    else Complete(root, |nodes| - p, ChunkOf(nodes[p..]))
  }

  /** A chunk does what its two halves do one after the other, also when a node occurs in both. */
  lemma ChunkComposes(c: CursorHabits, a: seq<Entry>, b: seq<Entry>)
    ensures SameEffect(c, FlatOf(ChunkOf(a + b)), Then(c, FlatOf(ChunkOf(a)), FlatOf(ChunkOf(b))))
  {
    hide Apply, Then, FlatOf, ChunkOf, LastWrites;
    var f, g := FlatOf(ChunkOf(a)), FlatOf(ChunkOf(b));
    forall m: map<Key, Node> ensures Apply(c, m, FlatOf(ChunkOf(a + b))) == Apply(c, m, Then(c, f, g)) {
      CommitChunk(c, m, a + b);
      CommitChunk(c, m, a);
      CommitChunk(c, Apply(c, m, f), b);
      ApplyThen(c, m, f, g);
      LastWritesAppend(c, a, b);
      MapAssociates(m, LastWrites(c, a), LastWrites(c, b));
    }
  }

  /** However it is cut, such a walk is coherent. */
  lemma EmissionWalkCoherent(c: CursorHabits, nodes: seq<Entry>, root: B256, cut: (Option<nat>, nat) -> nat)
    ensures Coherent(c, EmissionWalk(nodes, root, cut))
  {
    hide SameEffect, Then, FlatOf, ChunkOf;
    var w := EmissionWalk(nodes, root, cut);
    forall threshold, s ensures StepCoherent(c, w, threshold, s) {
      var p := Position(s, |nodes|);
      var end := p + 1 + cut(threshold, p);
      if end < |nodes| {
        assert nodes[p..] == nodes[p..end] + nodes[end..];
        ChunkComposes(c, nodes[p..end], nodes[end..]);
      }
    }
  }

  /** Two chunks of distinct nodes touch different keys, and their union is the chunk of both. */
  lemma ChunksSeparate(a: seq<Entry>, b: seq<Entry>)
    requires Latest(a).Keys !! Latest(b).Keys
    ensures Separate(FlatOf(ChunkOf(a)), FlatOf(ChunkOf(b)))
    ensures FlatOf(ChunkOf(a + b)) == Both(FlatOf(ChunkOf(a)), FlatOf(ChunkOf(b)))
  {
    hide FlatOf, ChunkOf, Latest;
    var f, g, h := FlatOf(ChunkOf(a)), FlatOf(ChunkOf(b)), FlatOf(ChunkOf(a + b));
    LatestAppend(a, b);
    forall k ensures (k in f.changes <==> k in Latest(a)) && (k in g.changes <==> k in Latest(b))
                     && (k in h.changes <==> k in f.changes || k in g.changes)
                     && (k in h.changes ==> h.changes[k] == if k in g.changes then g.changes[k] else f.changes[k]) {
      ChunkFlat(a, k);
      ChunkFlat(b, k);
      ChunkFlat(a + b, k);
    }
    ChunkFlat(a, Key(None, []));
    ChunkFlat(b, Key(None, []));
    ChunkFlat(a + b, Key(None, []));
    SameChanges(f.changes, g.changes, h.changes);
  }

  /** Distinct nodes come in pieces that touch different keys, however they are cut. */
  lemma EmissionWalkSeparate(nodes: seq<Entry>, root: B256, cut: (Option<nat>, nat) -> nat)
    requires DistinctKeys(nodes)
    ensures PiecesSeparate(EmissionWalk(nodes, root, cut))
  {
    hide Separate, FlatOf, ChunkOf, Both, Latest;
    var w := EmissionWalk(nodes, root, cut);
    forall threshold, s ensures StepSeparate(w, threshold, s) {
      var p := Position(s, |nodes|);
      var end := p + 1 + cut(threshold, p);
      if end < |nodes| {
        assert nodes[p..] == nodes[p..end] + nodes[end..];
        DistinctHalves(nodes[p..], end - p);
        assert nodes[p..][..end - p] == nodes[p..end] && nodes[p..][end - p..] == nodes[end..];
        ChunksSeparate(nodes[p..end], nodes[end..]);
      }
    }
  }

  lemma WrittenBy(c: CursorHabits, now: map<Key, Node>, nodes: seq<Entry>, size: nat, commits: nat -> bool, w: Written)
    requires size > 0 && CommittedUpTo(c, map[], now, nodes, size, commits, w)
    ensures now == LastWrites(c, nodes) && w.nodes == WrittenNodes(c, nodes, size)
  {
    hide LastWrites, WrittenNodes, WrittenChunks, AllSucceed;
    NothingBefore(LastWrites(c, nodes));
  }

  /**
   * reth's rebuild and the writing sink, given the same nodes, leave the same tables: whatever the
   * pauses of the one and the chunk size of the other, and also when a node is emitted twice. When
   * none is, they report the same number of entries written.
   */
  method RebuildMatchesWriter<AK(==, !new), SK(==, !new)>(
      rebuilt: Tables<AK, SK>, written: Tables<AK, SK>, nodes: seq<Entry>, root: B256,
      cut: (Option<nat>, nat) -> nat, threshold: Option<nat>, chunkNodes: nat,
      commits: nat -> bool, commits': nat -> bool)
    returns (r: Outcome<Rebuilt>, s: Outcome<Written>)
    requires rebuilt != written && rebuilt.Valid() && written.Valid() && rebuilt.habits == written.habits
    requires written.Contents() == map[]
    modifies rebuilt, written
    ensures r.Ok? && s.Ok? ==> rebuilt.Contents() == written.Contents() == LastWrites(written.habits, nodes)
    ensures r.Ok? ==> r.value.root == root
    ensures r.Ok? && s.Ok? && DistinctKeys(nodes) ==>
      r.value.written == s.value.nodes == |LastWrites(written.habits, nodes)|
  {
    hide Apply, FlatOf, Coherent, LastWrites, ChunkOf, Counted, PiecesSeparate, AllSucceed, WrittenNodes,
         WrittenChunks, StoppedAt, CommittedUpTo, DistinctKeys;
    EmissionWalkCoherent(rebuilt.habits, nodes, root, cut);
    r := RethRebuild(rebuilt, EmissionWalk(nodes, root, cut), threshold, true, commits);
    s := WriteChunks(written, ChunkSize(chunkNodes), nodes, commits');
    assert nodes[0..] == nodes;
    CommitChunk(rebuilt.habits, map[], nodes);
    NothingBefore(LastWrites(written.habits, nodes));
    if s.Ok? {
      WrittenBy(written.habits, written.Contents(), nodes, ChunkSize(chunkNodes), commits', s.value);
    }
    if DistinctKeys(nodes) {
      EmissionWalkSeparate(nodes, root, cut);
      DistinctWritesOnce(written.habits, nodes, ChunkSize(chunkNodes));
    }
  }

  lemma NothingBefore(m: map<Key, Node>)
    ensures map[] + m == m
  {
  }
}
