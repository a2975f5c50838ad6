/**
 * The writing sink as a step system: any number of workers send nodes over a bounded channel, one
 * writer receives, commits and fails or flushes, and `finish` closes the channel and joins.
 */
module Pipeline {
  import opened Trie
  import opened Overlay
  import opened Chunks
  import opened Writer
  import opened Sequences

  /** `size` is the chunk size, `initial` what the tables held before. */
  datatype Config = Config(habits: CursorHabits, size: nat, capacity: nat, initial: map<Key, Node>)

  ghost predicate Sane(cfg: Config) { cfg.size > 0 && cfg.capacity > 0 }

  const CHANNEL_CAPACITY: nat := 0x1_0000

  /** What `MdbxWriteSink::new` sets up. Results below hold for every sane configuration. */
  function SinkConfig(habits: CursorHabits, chunkNodes: nat, initial: map<Key, Node>): (cfg: Config)
    ensures Sane(cfg)
    ensures cfg.size >= chunkNodes && (cfg.size == 1 || cfg.size == chunkNodes)
    ensures cfg.habits == habits && cfg.initial == initial && cfg.capacity == 65_536
  {
    Config(habits, ChunkSize(chunkNodes), CHANNEL_CAPACITY, initial)
  }

  /** Where the writer thread is. Committing and flushing stand for an open transaction. */
  datatype Pc = Receiving | Committing | Flushing | Returned(result: Outcome<Written>)

  /**
   * `todo` holds what each worker still has to send, `panicked` the workers whose send failed,
   * and `arrived` everything that ever entered the channel, in order.
   */
  datatype State = State(
    todo: seq<seq<Entry>>, panicked: set<nat>, open: bool, queue: seq<Entry>, arrived: seq<Entry>,
    chunk: TrieUpdates, pending: nat, written: Written, pc: Pc, tables: map<Key, Node>,
    joined: Option<Outcome<Written>>)

  datatype Action =
    | Send(worker: nat)
    | SendFails(worker: nat)
    | Receive
    | CommitOk
    | CommitErr
    | Disconnect
    | FlushOk
    | FlushErr
    | Close
    | Join

  ghost predicate Init(cfg: Config, work: seq<seq<Entry>>, s: State) {
    s == State(work, {}, true, [], [], NO_UPDATES, 0, Written(0, 0), Receiving, cfg.initial, None)
  }

  /** A worker is done once it has sent everything or has panicked. */
  predicate WorkerDone(todo: seq<seq<Entry>>, panicked: set<nat>, i: nat)
    requires i < |todo|
  {
    todo[i] == [] || i in panicked
  }

  predicate AllDone(s: State) {
    forall i :: 0 <= i < |s.todo| ==> WorkerDone(s.todo, s.panicked, i)
  }

  predicate Enabled(cfg: Config, s: State, a: Action) {
    match a
    // A send blocks while the channel is full, and while the receiver lives.
    case Send(i) =>
      i < |s.todo| && s.open && !WorkerDone(s.todo, s.panicked, i) && !s.pc.Returned? && |s.queue| < cfg.capacity
    // The writer is gone, and with it the receiver: the send fails and the worker panics.
    case SendFails(i) => i < |s.todo| && s.open && !WorkerDone(s.todo, s.panicked, i) && s.pc.Returned?
    case Receive => s.pc.Receiving? && s.queue != []
    case CommitOk => s.pc.Committing?
    case CommitErr => s.pc.Committing?
    // The loop over the receiver ends once the channel is closed and empty.
    case Disconnect => s.pc.Receiving? && s.queue == [] && !s.open
    case FlushOk => s.pc.Flushing?
    case FlushErr => s.pc.Flushing?
    // `finish` takes the sink by value, so no worker is using it any more.
    case Close => s.open && AllDone(s)
    case Join => !s.open && s.pc.Returned? && s.joined.None?
  }

  /** The transaction goes through: the chunk is written, counted and replaced by an empty one. */
  ghost function CommitTo(cfg: Config, s: State, next: Pc): State {
    s.(tables := Apply(cfg.habits, s.tables, FlatOf(s.chunk)),
       written := Written(s.written.nodes + |Counted(cfg.habits, s.tables, FlatOf(s.chunk))|, s.written.chunks + 1),
       chunk := NO_UPDATES, pending := 0, pc := next)
  }

  ghost function After(cfg: Config, s: State, a: Action): State
    requires Enabled(cfg, s, a)
  {
    match a
    case Send(i) =>
      s.(todo := s.todo[i := s.todo[i][1..]], queue := s.queue + [s.todo[i][0]],
         arrived := s.arrived + [s.todo[i][0]])
    case SendFails(i) => s.(panicked := s.panicked + {i})
    case Receive =>
      s.(queue := s.queue[1..], chunk := Insert(s.chunk, s.queue[0].key, s.queue[0].node),
         pending := s.pending + 1, pc := if s.pending + 1 >= cfg.size then Committing else Receiving)
    case CommitOk => CommitTo(cfg, s, Receiving)
    case CommitErr => s.(pc := Returned(Err))
    case Disconnect => s.(pc := if s.pending > 0 then Flushing else Returned(Ok(s.written)))
    case FlushOk =>
      var t := CommitTo(cfg, s, Receiving);
      t.(pc := Returned(Ok(t.written)))
    case FlushErr => s.(pc := Returned(Err))
    case Close => s.(open := false)
    case Join => s.(joined := Some(s.pc.result))
  }

  ghost predicate Step(cfg: Config, s: State, t: State) {
    exists a :: Enabled(cfg, s, a) && t == After(cfg, s, a)
  }

  ghost predicate IsRun(cfg: Config, work: seq<seq<Entry>>, run: seq<State>) {
    && run != [] && Init(cfg, work, run[0])
    && forall n :: 0 < n < |run| ==> Step(cfg, run[n - 1], run[n])
  }

  // ---------------------------------------------------------------------------------------------
  // The invariant
  // ---------------------------------------------------------------------------------------------

  /** How many arrivals are committed. */
  function Done(s: State): int { |s.arrived| - |s.queue| - s.pending }

  /** Arrivals are committed, pending in the chunk, or queued, in that order. */
  ghost predicate Split(s: State) {
    && Done(s) >= 0
    && s.queue == s.arrived[|s.arrived| - |s.queue|..]
    && s.chunk == ChunkOf(s.arrived[Done(s)..Done(s) + s.pending])
  }

  /** The tables hold exactly the committed prefix on top of what was there. */
  ghost predicate Prefix(cfg: Config, s: State)
    requires cfg.size > 0 && Done(s) >= 0
  {
    HoldsExactly(cfg.habits, cfg.initial, s.tables, s.arrived[..Done(s)], cfg.size, s.written)
  }

  /** What each place in the writer's loop implies. */
  ghost predicate AtPc(cfg: Config, s: State)
    requires cfg.size > 0 && Done(s) >= 0
  {
    match s.pc
    case Receiving => s.pending < cfg.size && Full(Done(s), cfg.size)
    case Committing => s.pending == cfg.size && Full(Done(s), cfg.size)
    case Flushing => 0 < s.pending < cfg.size && Full(Done(s), cfg.size) && s.queue == [] && !s.open
    case Returned(Ok(w)) => s.pending == 0 && s.queue == [] && !s.open && w == s.written
    case Returned(Err) => 0 < s.pending <= cfg.size && Full(Done(s), cfg.size)
  }

  /** No node is lost or invented between the workers and the channel. */
  ghost predicate Accounted(work: seq<seq<Entry>>, s: State) {
    && |s.todo| == |work|
    && multiset(s.arrived) + multiset(Flatten(s.todo)) == multiset(Flatten(work))
  }

  ghost predicate Closing(s: State) {
    && (s.panicked != {} ==> s.pc == Returned(Err))
    && (forall i :: i in s.panicked ==> i < |s.todo|)
    && (!s.open ==> AllDone(s))
    && (s.joined.Some? ==> !s.open && s.pc == Returned(s.joined.value))
  }

  ghost predicate Inv(cfg: Config, work: seq<seq<Entry>>, s: State)
    requires Sane(cfg)
  {
    && Split(s) && Prefix(cfg, s) && AtPc(cfg, s)
    && |s.queue| <= cfg.capacity
    && Accounted(work, s) && Closing(s)
  }

  lemma InitInv(cfg: Config, work: seq<seq<Entry>>, s: State)
    requires Sane(cfg) && Init(cfg, work, s)
    ensures Inv(cfg, work, s)
  {
    hide Flatten, HoldsExactly;
    HoldsNothing(cfg.habits, cfg.initial, cfg.size);
    assert s.arrived[..Done(s)] == [];
    assert Accounted(work, s) by {
      assert multiset(s.arrived) == multiset{};
    }
  }

  lemma SendInv(cfg: Config, work: seq<seq<Entry>>, s: State, i: nat)
    requires Sane(cfg) && Inv(cfg, work, s) && Enabled(cfg, s, Send(i))
    ensures Inv(cfg, work, After(cfg, s, Send(i)))
  {
    hide HoldsExactly, ChunkOf, Full, Flatten;
    var t := After(cfg, s, Send(i));
    FlattenTake(s.todo, i);
    var m := Done(s);
    assert t.arrived[..m] == s.arrived[..m];
    assert t.arrived[m..m + s.pending] == s.arrived[m..m + s.pending];
  }

  lemma ReceiveInv(cfg: Config, work: seq<seq<Entry>>, s: State)
    requires Sane(cfg) && Inv(cfg, work, s) && Enabled(cfg, s, Receive)
    ensures Inv(cfg, work, After(cfg, s, Receive))
  {
    hide HoldsExactly, ChunkOf, Full, Flatten, Insert;
    var m := Done(s);
    assert s.arrived[m + s.pending] == s.queue[0];
    InsertStep(s.arrived, m, m + s.pending);
  }

  /** A commit that goes through moves the pending nodes into the committed prefix. */
  lemma CommitPrefix(cfg: Config, s: State, next: Pc)
    requires Sane(cfg) && Split(s) && Prefix(cfg, s) && Full(Done(s), cfg.size) && 0 < s.pending <= cfg.size
    ensures Prefix(cfg, CommitTo(cfg, s, next))
    ensures s.pending == cfg.size ==> Full(Done(CommitTo(cfg, s, next)), cfg.size)
  {
    hide HoldsExactly, Full, Apply, Counted, FlatOf, ChunkOf;
    var m := Done(s);
    var done, items := s.arrived[..m], s.arrived[m..m + s.pending];
    CommitStep(cfg.habits, cfg.initial, s.tables, done, items, cfg.size, s.written);
    OneMoreFull(m, s.pending, cfg.size);
    assert done + items == s.arrived[..m + s.pending];
  }

  lemma CommitSplit(cfg: Config, s: State, next: Pc)
    requires Split(s)
    ensures Split(CommitTo(cfg, s, next))
  {
    assert s.arrived[Done(s) + s.pending..Done(s) + s.pending] == [];
  }

  lemma CommitInv(cfg: Config, work: seq<seq<Entry>>, s: State)
    requires Sane(cfg) && Inv(cfg, work, s)
    ensures Enabled(cfg, s, CommitOk) ==> Inv(cfg, work, After(cfg, s, CommitOk))
    ensures Enabled(cfg, s, FlushOk) ==> Inv(cfg, work, After(cfg, s, FlushOk))
  {
    hide HoldsExactly, ChunkOf, Full, Flatten, Apply, Counted, FlatOf;
    if s.pc.Committing? || s.pc.Flushing? {
      CommitPrefix(cfg, s, Receiving);
      CommitSplit(cfg, s, Receiving);
    }
  }

  lemma {:induction false} StepInv(cfg: Config, work: seq<seq<Entry>>, s: State, a: Action)
    requires Sane(cfg) && Inv(cfg, work, s) && Enabled(cfg, s, a)
    ensures Inv(cfg, work, After(cfg, s, a))
  {
    hide HoldsExactly, ChunkOf, Full, Flatten, Apply, Counted, FlatOf;
    match a {
      case Send(i) => SendInv(cfg, work, s, i);
      case Receive => ReceiveInv(cfg, work, s);
      case CommitOk => CommitInv(cfg, work, s);
      case FlushOk => CommitInv(cfg, work, s);
      case _ =>
    }
  }

  /** Every reachable state keeps the invariant, whatever the interleaving and the failures. */
  lemma {:induction false} ReachableInv(cfg: Config, work: seq<seq<Entry>>, run: seq<State>)
    requires Sane(cfg) && IsRun(cfg, work, run)
    ensures Inv(cfg, work, run[|run| - 1])
  {
    hide Inv, After, Enabled;
    var last := |run| - 1;
    if last == 0 {
      InitInv(cfg, work, run[0]);
    } else {
      ReachableInv(cfg, work, run[..last]);
      assert Step(cfg, run[last - 1], run[last]);
      var a :| Enabled(cfg, run[last - 1], a) && run[last] == After(cfg, run[last - 1], a);
      StepInv(cfg, work, run[last - 1], a);
    }
  }

  // ---------------------------------------------------------------------------------------------
  // What the invariant says about runs
  // ---------------------------------------------------------------------------------------------

  /**
   * Prefix atomicity: at any moment, failed or not, the tables hold the first `m` arrivals on top
   * of the initial ones, `m` filling whole chunks unless everything that arrived is in.
   */
  lemma PrefixAtomicity(cfg: Config, work: seq<seq<Entry>>, run: seq<State>) returns (m: nat)
    requires Sane(cfg) && IsRun(cfg, work, run)
    ensures var s := run[|run| - 1];
      && m <= |s.arrived|
      && s.tables == cfg.initial + LastWrites(cfg.habits, s.arrived[..m])
      && (Full(m, cfg.size) || (m == |s.arrived| && s.joined != Some(Err) && !s.open))
      && (s.pc == Returned(Err) ==> Full(m, cfg.size) && m < |s.arrived|)
  {
    ReachableInv(cfg, work, run);
    m := Done(run[|run| - 1]);
  }

  /** Nodes held between the workers and the tables never exceed the channel and one chunk. */
  lemma BoundedMemory(cfg: Config, work: seq<seq<Entry>>, run: seq<State>)
    requires Sane(cfg) && IsRun(cfg, work, run)
    ensures var s := run[|run| - 1]; |s.queue| + s.pending <= cfg.capacity + cfg.size
  {
    ReachableInv(cfg, work, run);
  }

  lemma SinkBoundedMemory(habits: CursorHabits, chunkNodes: nat, initial: map<Key, Node>, work: seq<seq<Entry>>,
          run: seq<State>)
    requires IsRun(SinkConfig(habits, chunkNodes, initial), work, run)
    ensures var s := run[|run| - 1]; |s.queue| + s.pending <= 65_536 + (if chunkNodes == 0 then 1 else chunkNodes)
  {
    BoundedMemory(SinkConfig(habits, chunkNodes, initial), work, run);
  }

  lemma NothingLeft(s: State)
    requires AllDone(s) && s.panicked == {}
    ensures Flatten(s.todo) == []
  {
    forall i | 0 <= i < |s.todo| ensures s.todo[i] == [] {
      assert WorkerDone(s.todo, s.panicked, i);
    }
    FlattenEmpty(s.todo);
  }

  /**
   * When `finish` returns what was written, every node of every worker was sent, received and
   * committed, the queue and the chunk are empty, and the tables do not depend on the chunk size.
   */
  lemma FinishedOk(cfg: Config, work: seq<seq<Entry>>, run: seq<State>)
    requires Sane(cfg) && IsRun(cfg, work, run) && run[|run| - 1].joined.Some? && run[|run| - 1].joined.value.Ok?
    ensures var s := run[|run| - 1];
      && multiset(s.arrived) == multiset(Flatten(work))
      && s.queue == [] && s.pending == 0
      && HoldsExactly(cfg.habits, cfg.initial, s.tables, s.arrived, cfg.size, s.joined.value.value)
  {
    hide Flatten, HoldsExactly, ChunkOf, Full;
    var s := run[|run| - 1];
    ReachableInv(cfg, work, run);
    NothingLeft(s);
    assert s.arrived[..|s.arrived|] == s.arrived;
  }

  /**
   * When `finish` reports an error, the tables hold the full chunks committed before it and none
   * of the nodes of the commit that failed.
   */
  lemma FinishedErr(cfg: Config, work: seq<seq<Entry>>, run: seq<State>) returns (m: nat)
    requires Sane(cfg) && IsRun(cfg, work, run) && run[|run| - 1].joined == Some(Err)
    ensures var s := run[|run| - 1];
      && m < |s.arrived| && Full(m, cfg.size)
      && s.tables == cfg.initial + LastWrites(cfg.habits, s.arrived[..m])
      && multiset(s.arrived) <= multiset(Flatten(work))
  {
    hide Flatten, ChunkOf, Full, LastWrites;
    ReachableInv(cfg, work, run);
    m := Done(run[|run| - 1]);
  }

  // ---------------------------------------------------------------------------------------------
  // Progress and termination
  // ---------------------------------------------------------------------------------------------

  predicate IsFailure(a: Action) { a.CommitErr? || a.FlushErr? }

  /** Until `finish` has returned, something other than a new failure can happen. */
  lemma NeverStuck(cfg: Config, work: seq<seq<Entry>>, s: State) returns (a: Action)
    requires Sane(cfg) && Inv(cfg, work, s) && s.joined.None?
    ensures Enabled(cfg, s, a) && !IsFailure(a)
    ensures a.SendFails? ==> s.pc == Returned(Err)
  {
    hide HoldsExactly, ChunkOf, Full, Flatten;
    match s.pc {
      case Committing => a := CommitOk;
      case Flushing => a := FlushOk;
      case Receiving =>
        if s.queue != [] {
          a := Receive;
        } else if !s.open {
          a := Disconnect;
        } else if AllDone(s) {
          a := Close;
        } else {
          var i: nat :| i < |s.todo| && !WorkerDone(s.todo, s.panicked, i);
          a := Send(i);
        }
      case Returned(_) =>
        if !s.open {
          a := Join;
        } else if AllDone(s) {
          a := Close;
        } else {
          var i: nat :| i < |s.todo| && !WorkerDone(s.todo, s.panicked, i);
          a := SendFails(i);
        }
    }
  }

  function Rank(pc: Pc): nat {
    match pc
    case Receiving => 2
    case Committing => 2
    case Flushing => 1
    case Returned(_) => 0
  }

  /** Unsent, queued and pending nodes, and the few steps that move none. */
  ghost function Measure(s: State): int {
    3 * |Flatten(s.todo)| + 2 * |s.queue| + s.pending + Rank(s.pc)
    + (|s.todo| - |s.panicked|) + (if s.open then 1 else 0) + (if s.joined.None? then 1 else 0)
  }

  lemma {:induction false} SetBelow(s: set<nat>, n: nat)
    requires forall i :: i in s ==> i < n
    ensures |s| <= n
  {
    if n > 0 {
      SetBelow(s - {n - 1}, n - 1);
      if n - 1 in s {
        assert s == (s - {n - 1}) + {n - 1};
      } else {
        assert s == s - {n - 1};
      }
    } else {
      assert s == {};
    }
  }

  lemma PanickedBelow(cfg: Config, work: seq<seq<Entry>>, s: State)
    requires Sane(cfg) && Inv(cfg, work, s)
    ensures |s.panicked| <= |s.todo|
  {
    SetBelow(s.panicked, |s.todo|);
  }

  /** Every step brings the end closer. */
  lemma StepDecreases(cfg: Config, work: seq<seq<Entry>>, s: State, a: Action)
    requires Sane(cfg) && Inv(cfg, work, s) && Enabled(cfg, s, a)
    ensures 0 <= Measure(After(cfg, s, a)) < Measure(s)
  {
    hide HoldsExactly, ChunkOf, Full, Flatten, Apply, Counted, FlatOf, Prefix, Split, Closing, Insert;
    StepInv(cfg, work, s, a);
    PanickedBelow(cfg, work, After(cfg, s, a));
    if a.Send? {
      FlattenTake(s.todo, a.worker);
    }
  }

  /** Every run ends after as many steps as the measure of its start, however it interleaves and fails. */
  lemma {:induction false} RunsAreFinite(cfg: Config, work: seq<seq<Entry>>, run: seq<State>)
    requires Sane(cfg) && IsRun(cfg, work, run)
    ensures |run| - 1 + Measure(run[|run| - 1]) <= 3 * |Flatten(work)| + |work| + 4
    ensures 0 <= Measure(run[|run| - 1])
  {
    hide Inv, After, Enabled, Measure;
    var last := |run| - 1;
    if last == 0 {
      InitMeasure(cfg, work, run[0]);
    } else {
      RunsAreFinite(cfg, work, run[..last]);
      ReachableInv(cfg, work, run[..last]);
      assert Step(cfg, run[last - 1], run[last]);
      var a :| Enabled(cfg, run[last - 1], a) && run[last] == After(cfg, run[last - 1], a);
      StepDecreases(cfg, work, run[last - 1], a);
    }
  }

  lemma InitMeasure(cfg: Config, work: seq<seq<Entry>>, s: State)
    requires Init(cfg, work, s)
    ensures Measure(s) == 3 * |Flatten(work)| + |work| + 4
  {
  }

  // ---------------------------------------------------------------------------------------------
  // Runs in which no transaction fails
  // ---------------------------------------------------------------------------------------------

  ghost predicate GoodStep(cfg: Config, s: State, t: State) {
    exists a :: !IsFailure(a) && Enabled(cfg, s, a) && t == After(cfg, s, a)
  }

  /** Every step is something other than a failing transaction. */
  ghost predicate FailureFree(cfg: Config, work: seq<seq<Entry>>, run: seq<State>) {
    && run != [] && Init(cfg, work, run[0])
    && forall n :: 0 < n < |run| ==> GoodStep(cfg, run[n - 1], run[n])
  }

  lemma FailureFreeIsRun(cfg: Config, work: seq<seq<Entry>>, run: seq<State>)
    requires FailureFree(cfg, work, run)
    ensures IsRun(cfg, work, run)
  {
    hide Init, Enabled, After;
    forall n | 0 < n < |run| ensures Step(cfg, run[n - 1], run[n]) {
      assert GoodStep(cfg, run[n - 1], run[n]);
    }
  }

  ghost predicate NoError(s: State) {
    s.pc != Returned(Err) && s.joined != Some(Err)
  }

  lemma GoodStepNoError(cfg: Config, s: State, a: Action)
    requires Enabled(cfg, s, a) && !IsFailure(a) && NoError(s)
    ensures NoError(After(cfg, s, a))
  {
    hide Apply, Counted, FlatOf, Insert;
  }

  /** Only a failing transaction makes the writer, or `finish`, return an error. */
  lemma {:induction false} FailureFreeNoError(cfg: Config, work: seq<seq<Entry>>, run: seq<State>)
    requires FailureFree(cfg, work, run)
    ensures NoError(run[|run| - 1])
  {
    hide After, Enabled;
    var last := |run| - 1;
    if last > 0 {
      FailureFreeNoError(cfg, work, run[..last]);
      assert GoodStep(cfg, run[last - 1], run[last]);
      var a :| !IsFailure(a) && Enabled(cfg, run[last - 1], a) && run[last] == After(cfg, run[last - 1], a);
      GoodStepNoError(cfg, run[last - 1], a);
    }
  }

  /** Nothing but a failing transaction can happen next. */
  ghost predicate AtEnd(cfg: Config, s: State) {
    forall a :: Enabled(cfg, s, a) ==> IsFailure(a)
  }

  /** A run without failures that is at its end has `finish` return what was written. */
  lemma FailureFreeFinishes(cfg: Config, work: seq<seq<Entry>>, run: seq<State>)
    requires Sane(cfg) && FailureFree(cfg, work, run) && AtEnd(cfg, run[|run| - 1])
    ensures run[|run| - 1].joined.Some? && run[|run| - 1].joined.value.Ok?
  {
    hide Inv, Enabled, Init;
    var s := run[|run| - 1];
    FailureFreeIsRun(cfg, work, run);
    FailureFreeNoError(cfg, work, run);
    ReachableInv(cfg, work, run);
    if s.joined.None? {
      var a := NeverStuck(cfg, work, s);
    }
  }

  /** And every run without failures goes on to such an end. */
  lemma {:induction false} FailureFreeGoesOn(cfg: Config, work: seq<seq<Entry>>, run: seq<State>)
    returns (longer: seq<State>)
    requires Sane(cfg) && FailureFree(cfg, work, run)
    ensures FailureFree(cfg, work, longer) && run <= longer
    ensures longer[|longer| - 1].joined.Some? && longer[|longer| - 1].joined.value.Ok?
    decreases Measure(run[|run| - 1])
  {
    hide Inv, Enabled, After, Init, Measure;
    var s := run[|run| - 1];
    FailureFreeIsRun(cfg, work, run);
    FailureFreeNoError(cfg, work, run);
    ReachableInv(cfg, work, run);
    RunsAreFinite(cfg, work, run);
    if s.joined.Some? {
      longer := run;
    } else {
      var a := NeverStuck(cfg, work, s);
      StepDecreases(cfg, work, s, a);
      assert GoodStep(cfg, s, After(cfg, s, a));
      longer := FailureFreeGoesOn(cfg, work, run + [After(cfg, s, a)]);
    }
  }

  // ---------------------------------------------------------------------------------------------
  // The sink as it is constructed
  // ---------------------------------------------------------------------------------------------

  /**
   * A sink built for chunks of `chunkNodes` starts from the tables given, and when no transaction
   * fails it reports as many chunks as nodes over the greater of that and one, rounded up.
   */
  lemma SinkCommitsInChunks(habits: CursorHabits, chunkNodes: nat, initial: map<Key, Node>,
                            work: seq<seq<Entry>>, run: seq<State>)
    requires var cfg := SinkConfig(habits, chunkNodes, initial);
      FailureFree(cfg, work, run) && AtEnd(cfg, run[|run| - 1])
    ensures run[0].tables == initial
    ensures run[|run| - 1].joined.Some? && run[|run| - 1].joined.value.Ok?
    ensures var size, nodes := if chunkNodes > 1 then chunkNodes else 1, |Flatten(work)|;
      var chunks := run[|run| - 1].joined.value.value.chunks;
      && nodes <= chunks * size
      && (nodes > 0 ==> (chunks - 1) * size < nodes)
      && (nodes == 0 ==> chunks == 0)
  {
    hide Flatten, WrittenNodes, LastWrites, AtEnd, Enabled, After;
    var cfg, s := SinkConfig(habits, chunkNodes, initial), run[|run| - 1];
    FailureFreeFinishes(cfg, work, run);
    FailureFreeIsRun(cfg, work, run);
    FinishedOk(cfg, work, run);
    assert |multiset(s.arrived)| == |s.arrived| && |multiset(Flatten(work))| == |Flatten(work)|;
    ChunksAreCeiling(|s.arrived|, cfg.size);
  }

  lemma OneMoreGoodStep(cfg: Config, work: seq<seq<Entry>>, run: seq<State>, a: Action) returns (longer: seq<State>)
    requires FailureFree(cfg, work, run) && Enabled(cfg, run[|run| - 1], a) && !IsFailure(a)
    ensures FailureFree(cfg, work, longer) && longer[|longer| - 1] == After(cfg, run[|run| - 1], a)
  {
    hide Enabled, After, Init;
    longer := run + [After(cfg, run[|run| - 1], a)];
    assert GoodStep(cfg, run[|run| - 1], longer[|run|]);
  }

  /** One worker, with `left` nodes to send, and a writer with `pending` in its chunk. */
  ghost predicate Filling(cfg: Config, s: State, left: nat, queued: nat, pending: nat) {
    && |s.todo| == 1 && |s.todo[0]| == left && s.panicked == {} && s.open
    && |s.queue| == queued && s.pending == pending
    && s.pc == if pending >= cfg.size then Committing else Receiving
  }

  lemma SendFills(cfg: Config, s: State, left: nat, queued: nat, pending: nat)
    requires Filling(cfg, s, left, queued, pending) && left > 0 && queued < cfg.capacity
    ensures Enabled(cfg, s, Send(0)) && Filling(cfg, After(cfg, s, Send(0)), left - 1, queued + 1, pending)
  {
  }

  lemma ReceiveFills(cfg: Config, s: State, left: nat, pending: nat)
    requires Filling(cfg, s, left, 1, pending) && pending < cfg.size
    ensures Enabled(cfg, s, Receive) && Filling(cfg, After(cfg, s, Receive), left, 0, pending + 1)
  {
    hide Insert;
  }

  /** The chunk fills up one node at a time. */
  lemma {:induction false} FillChunk(cfg: Config, work: seq<seq<Entry>>, pending: nat) returns (run: seq<State>)
    requires Sane(cfg) && |work| == 1 && pending <= cfg.size && pending <= |work[0]|
    ensures FailureFree(cfg, work, run) && Filling(cfg, run[|run| - 1], |work[0]| - pending, 0, pending)
  {
    if pending == 0 {
      run := [State(work, {}, true, [], [], NO_UPDATES, 0, Written(0, 0), Receiving, cfg.initial, None)];
    } else {
      run := FillChunk(cfg, work, pending - 1);
      hide Enabled, After, Filling, FailureFree;
      SendFills(cfg, run[|run| - 1], |work[0]| - pending + 1, 0, pending - 1);
      run := OneMoreGoodStep(cfg, work, run, Send(0));
      ReceiveFills(cfg, run[|run| - 1], |work[0]| - pending, pending - 1);
      run := OneMoreGoodStep(cfg, work, run, Receive);
    }
  }

  /** While the writer commits, the channel fills up. */
  lemma {:induction false} FillQueue(cfg: Config, work: seq<seq<Entry>>, queued: nat) returns (run: seq<State>)
    requires Sane(cfg) && |work| == 1 && |work[0]| >= cfg.size + queued && queued <= cfg.capacity
    ensures FailureFree(cfg, work, run)
    ensures Filling(cfg, run[|run| - 1], |work[0]| - cfg.size - queued, queued, cfg.size)
  {
    if queued == 0 {
      run := FillChunk(cfg, work, cfg.size);
    } else {
      run := FillQueue(cfg, work, queued - 1);
      hide Enabled, After, Filling, FailureFree;
      SendFills(cfg, run[|run| - 1], |work[0]| - cfg.size - queued + 1, queued - 1, cfg.size);
      run := OneMoreGoodStep(cfg, work, run, Send(0));
    }
  }

  /** The bound on what is held is reached: a full channel and a full chunk. */
  lemma SinkHoldsMost(habits: CursorHabits, chunkNodes: nat, initial: map<Key, Node>, e: Entry)
    returns (work: seq<seq<Entry>>, run: seq<State>)
    ensures FailureFree(SinkConfig(habits, chunkNodes, initial), work, run)
    ensures var s := run[|run| - 1];
      |s.queue| == 65_536 && s.pending == if chunkNodes > 1 then chunkNodes else 1
  {
    var cfg := SinkConfig(habits, chunkNodes, initial);
    work := [seq(cfg.size + cfg.capacity, _ => e)];
    run := FillQueue(cfg, work, cfg.capacity);
  }
}
