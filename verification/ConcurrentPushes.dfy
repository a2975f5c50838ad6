/**
 * Many threads push into one digest. A push is three atomic updates, and the threads interleave
 * between them in any way.
 */
module ConcurrentPushes {
  import opened Trie
  import opened XorFold
  import opened NodeDigests
  import opened Sequences

  /** A thread with nodes left to push; `at` of the three updates for the first are done. */
  datatype Pusher = Pusher(todo: seq<Entry>, at: nat)

  datatype Shared = Shared(count: nat, first: Word, second: Word, pushers: seq<Pusher>)

  ghost predicate Init(s: Shared, work: seq<seq<Entry>>) {
    && s.count == 0 && s.first == NoBits() && s.second == NoBits()
    && |s.pushers| == |work|
    && forall i :: 0 <= i < |work| ==> s.pushers[i] == Pusher(work[i], 0)
  }

  predicate Enabled(s: Shared, i: nat) {
    i < |s.pushers| && s.pushers[i].todo != []
  }

  function Advance(p: Pusher): Pusher
    requires p.todo != []
  {
    if p.at <= 1 then p.(at := p.at + 1) else Pusher(p.todo[1..], 0)
  }

  /** Thread `i` does its next atomic update. */
  function After(seeds: Seeds, s: Shared, i: nat): (t: Shared)
    requires Enabled(s, i)
    ensures t.pushers == s.pushers[i := Advance(s.pushers[i])]
  {
    var p := s.pushers[i];
    var pushers := s.pushers[i := Advance(p)];
    match p.at
    case 0 => s.(first := Xor(s.first, FirstHash(seeds)(p.todo[0])), pushers := pushers)
    case 1 => s.(second := Xor(s.second, SecondHash(seeds)(p.todo[0])), pushers := pushers)
    case _ => s.(count := (s.count + 1) % TWO_TO_THE_64, pushers := pushers)
  }

  ghost predicate Step(seeds: Seeds, s: Shared, i: nat, t: Shared) {
    Enabled(s, i) && t == After(seeds, s, i)
  }

  ghost predicate Next(seeds: Seeds, s: Shared, t: Shared) {
    exists i: nat :: Step(seeds, s, i, t)
  }

  ghost predicate IsRun(seeds: Seeds, work: seq<seq<Entry>>, run: seq<Shared>) {
    && run != [] && Init(run[0], work)
    && forall n :: 0 < n < |run| ==> Next(seeds, run[n - 1], run[n])
  }

  ghost predicate Quiet(s: Shared) {
    forall i :: 0 <= i < |s.pushers| ==> s.pushers[i].todo == []
  }

  /** What `snapshot` reads when no push is under way. */
  function SnapshotOf(seeds: Seeds, s: Shared): Digest { Digest(s.count, Join(seeds.width, s.first, s.second)) }

  /** The nodes whose update number `u` is still to come, thread by thread. */
  function Owed(p: Pusher, u: nat): seq<Entry> {
    if p.at > u && p.todo != [] then p.todo[1..] else p.todo
  }

  function AllOwed(s: Shared, u: nat): seq<seq<Entry>> {
    seq(|s.pushers|, i requires 0 <= i < |s.pushers| => Owed(s.pushers[i], u))
  }

  /** What an accumulator holds and what is owed to it add up to the whole work. */
  ghost predicate Balanced(f: Entry -> Word, acc: Word, owed: seq<seq<Entry>>, work: seq<seq<Entry>>) {
    Xor(acc, XorAll(f, Flatten(owed))) == XorAll(f, Flatten(work))
  }

  lemma BalancedTake(f: Entry -> Word, acc: Word, owed: seq<seq<Entry>>, work: seq<seq<Entry>>, i: nat)
    requires Balanced(f, acc, owed, work) && i < |owed| && owed[i] != []
    ensures Balanced(f, Xor(acc, f(owed[i][0])), owed[i := owed[i][1..]], work)
  {
    var after := owed[i := owed[i][1..]];
    var x := owed[i][0];
    FlattenTake(owed, i);
    FoldIgnoresOrder(f, Flatten(owed), Flatten(after) + [x]);
    XorAllAppend(f, Flatten(after), x);
    XorMoves(acc, XorAll(f, Flatten(after)), f(x));
  }

  lemma XorMoves(acc: Word, rest: Word, x: Word)
    ensures Xor(acc, Xor(rest, x)) == Xor(Xor(acc, x), rest)
  {
  }

  ghost predicate Counted(count: nat, owed: seq<seq<Entry>>, work: seq<seq<Entry>>) {
    && |Flatten(owed)| <= |Flatten(work)|
    && count == (|Flatten(work)| - |Flatten(owed)|) % TWO_TO_THE_64
  }

  lemma CountedTake(count: nat, owed: seq<seq<Entry>>, work: seq<seq<Entry>>, i: nat)
    requires Counted(count, owed, work) && i < |owed| && owed[i] != []
    ensures Counted((count + 1) % TWO_TO_THE_64, owed[i := owed[i][1..]], work)
  {
    hide Flatten;
    FlattenTake(owed, i);
    NextCount(|Flatten(work)| - |Flatten(owed)|);
  }

  lemma NextCount(n: nat)
    ensures (n % TWO_TO_THE_64 + 1) % TWO_TO_THE_64 == (n + 1) % TWO_TO_THE_64
  {
  }

  ghost predicate WellFormed(s: Shared) {
    forall i :: 0 <= i < |s.pushers| ==>
      s.pushers[i].at <= 2 && (s.pushers[i].todo == [] ==> s.pushers[i].at == 0)
  }

  /** Conservation, for the two folds and the count. */
  ghost predicate Conserves(seeds: Seeds, work: seq<seq<Entry>>, s: Shared) {
    && WellFormed(s)
    && Balanced(FirstHash(seeds), s.first, AllOwed(s, 0), work)
    && Balanced(SecondHash(seeds), s.second, AllOwed(s, 1), work)
    && Counted(s.count, AllOwed(s, 2), work)
  }

  lemma InitConserves(seeds: Seeds, work: seq<seq<Entry>>, s: Shared)
    requires Init(s, work)
    ensures Conserves(seeds, work, s)
  {
    assert AllOwed(s, 0) == work;
    assert AllOwed(s, 1) == work;
    assert AllOwed(s, 2) == work;
    XorZero(XorAll(FirstHash(seeds), Flatten(work)));
    XorZero(XorAll(SecondHash(seeds), Flatten(work)));
  }

  /** Only the update that was done is owed for one node less. */
  lemma StepOwes(seeds: Seeds, s: Shared, i: nat, t: Shared)
    requires WellFormed(s) && Step(seeds, s, i, t)
    ensures WellFormed(t)
    ensures forall u :: 0 <= u <= 2 ==>
      AllOwed(t, u) == if u == s.pushers[i].at then AllOwed(s, u)[i := s.pushers[i].todo[1..]] else AllOwed(s, u)
    ensures AllOwed(s, s.pushers[i].at)[i] == s.pushers[i].todo
  {
  }

  lemma FirstUpdate(seeds: Seeds, work: seq<seq<Entry>>, s: Shared, i: nat, t: Shared)
    requires WellFormed(s) && Balanced(FirstHash(seeds), s.first, AllOwed(s, 0), work)
    requires Step(seeds, s, i, t) && s.pushers[i].at == 0
    ensures Balanced(FirstHash(seeds), t.first, AllOwed(t, 0), work)
  {
    StepOwes(seeds, s, i, t);
    BalancedTake(FirstHash(seeds), s.first, AllOwed(s, 0), work, i);
  }

  lemma SecondUpdate(seeds: Seeds, work: seq<seq<Entry>>, s: Shared, i: nat, t: Shared)
    requires WellFormed(s) && Balanced(SecondHash(seeds), s.second, AllOwed(s, 1), work)
    requires Step(seeds, s, i, t) && s.pushers[i].at == 1
    ensures Balanced(SecondHash(seeds), t.second, AllOwed(t, 1), work)
  {
    StepOwes(seeds, s, i, t);
    BalancedTake(SecondHash(seeds), s.second, AllOwed(s, 1), work, i);
  }

  lemma CountUpdate(seeds: Seeds, work: seq<seq<Entry>>, s: Shared, i: nat, t: Shared)
    requires WellFormed(s) && Counted(s.count, AllOwed(s, 2), work)
    requires Step(seeds, s, i, t) && s.pushers[i].at == 2
    ensures Counted(t.count, AllOwed(t, 2), work)
  {
    StepOwes(seeds, s, i, t);
    CountedTake(s.count, AllOwed(s, 2), work, i);
  }

  lemma StepConserves(seeds: Seeds, work: seq<seq<Entry>>, s: Shared, i: nat, t: Shared)
    requires Conserves(seeds, work, s) && Step(seeds, s, i, t)
    ensures Conserves(seeds, work, t)
  {
    StepOwes(seeds, s, i, t);
    if s.pushers[i].at == 0 {
      FirstUpdate(seeds, work, s, i, t);
    } else if s.pushers[i].at == 1 {
      SecondUpdate(seeds, work, s, i, t);
    } else {
      CountUpdate(seeds, work, s, i, t);
    }
  }

  lemma {:induction false} RunConserves(seeds: Seeds, work: seq<seq<Entry>>, run: seq<Shared>)
    requires IsRun(seeds, work, run)
    ensures Conserves(seeds, work, run[|run| - 1])
  {
    var last := |run| - 1;
    if last == 0 {
      InitConserves(seeds, work, run[0]);
    } else {
      RunConserves(seeds, work, run[..last]);
      assert Next(seeds, run[last - 1], run[last]);
      var i: nat :| Step(seeds, run[last - 1], i, run[last]);
      StepConserves(seeds, work, run[last - 1], i, run[last]);
    }
  }

  /**
   * However the updates of the pushes interleave, once the threads are quiet the snapshot is the
   * digest of the pushed nodes in any order whatever.
   */
  lemma QuietSnapshot(seeds: Seeds, work: seq<seq<Entry>>, run: seq<Shared>, anyOrder: seq<Entry>)
    requires IsRun(seeds, work, run) && Quiet(run[|run| - 1])
    requires multiset(anyOrder) == multiset(Flatten(work))
    ensures SnapshotOf(seeds, run[|run| - 1]) == DigestOf(seeds, anyOrder)
  {
    RunConserves(seeds, work, run);
    QuietConserved(seeds, work, run[|run| - 1]);
    DigestIgnoresOrder(seeds, anyOrder, Flatten(work));
  }

  lemma NothingOwed(s: Shared, u: nat)
    requires Quiet(s)
    ensures Flatten(AllOwed(s, u)) == []
  {
    FlattenEmpty(AllOwed(s, u));
  }

  lemma QuietConserved(seeds: Seeds, work: seq<seq<Entry>>, s: Shared)
    requires Conserves(seeds, work, s) && Quiet(s)
    ensures SnapshotOf(seeds, s) == DigestOf(seeds, Flatten(work))
  {
    NothingOwed(s, 0);
    NothingOwed(s, 1);
    NothingOwed(s, 2);
    XorZero(s.first);
    XorZero(s.second);
  }

  /** Updates still to be done. */
  ghost function Work(pushers: seq<Pusher>): int {
    if pushers == [] then 0 else 3 * |pushers[0].todo| - pushers[0].at + Work(pushers[1..])
  }

  lemma {:induction false} WorkUpdate(pushers: seq<Pusher>, i: nat, p: Pusher)
    requires i < |pushers|
    ensures Work(pushers[i := p]) == Work(pushers)
            + 3 * (|p.todo| - |pushers[i].todo|) - (p.at - pushers[i].at)
  {
    if i == 0 {
      assert pushers[0 := p][1..] == pushers[1..];
    } else {
      WorkUpdate(pushers[1..], i - 1, p);
      assert pushers[i := p][1..] == pushers[1..][i - 1 := p];
    }
  }

  /** Every step does one of the three updates per node. */
  lemma StepDoesOneUpdate(seeds: Seeds, s: Shared, i: nat, t: Shared)
    requires WellFormed(s) && Step(seeds, s, i, t)
    ensures Work(t.pushers) == Work(s.pushers) - 1
  {
    WorkUpdate(s.pushers, i, Advance(s.pushers[i]));
  }

  lemma {:induction false} WorkDone(pushers: seq<Pusher>)
    requires forall i :: 0 <= i < |pushers| ==>
      pushers[i].at <= 2 && (pushers[i].todo == [] ==> pushers[i].at == 0)
    ensures Work(pushers) >= 0
    ensures Work(pushers) == 0 <==> forall i :: 0 <= i < |pushers| ==> pushers[i].todo == []
  {
    if pushers != [] {
      WorkDone(pushers[1..]);
      if forall i :: 0 <= i < |pushers| ==> pushers[i].todo == [] {
        assert forall i :: 0 <= i < |pushers[1..]| ==> pushers[1..][i] == pushers[i + 1];
      } else {
        var i :| 0 <= i < |pushers| && pushers[i].todo != [];
        assert i > 0 ==> pushers[1..][i - 1] == pushers[i];
      }
    }
  }

  lemma {:induction false} InitialWork(pushers: seq<Pusher>, work: seq<seq<Entry>>)
    requires |pushers| == |work|
    requires forall i :: 0 <= i < |work| ==> pushers[i] == Pusher(work[i], 0)
    ensures Work(pushers) == 3 * |Flatten(work)|
  {
    if pushers != [] {
      InitialWork(pushers[1..], work[1..]);
    }
  }

  lemma {:induction false} RunWork(seeds: Seeds, work: seq<seq<Entry>>, run: seq<Shared>)
    requires IsRun(seeds, work, run)
    ensures Work(run[|run| - 1].pushers) + |run| - 1 == 3 * |Flatten(work)|
  {
    var last := |run| - 1;
    if last == 0 {
      InitialWork(run[0].pushers, work);
    } else {
      RunWork(seeds, work, run[..last]);
      RunConserves(seeds, work, run[..last]);
      assert Next(seeds, run[last - 1], run[last]);
      var i: nat :| Step(seeds, run[last - 1], i, run[last]);
      StepDoesOneUpdate(seeds, run[last - 1], i, run[last]);
    }
  }

  /** No run does more than three updates per node, and the ones that do that many are the quiet ones. */
  lemma QuietAfterThreeUpdatesPerNode(seeds: Seeds, work: seq<seq<Entry>>, run: seq<Shared>)
    requires IsRun(seeds, work, run)
    ensures |run| - 1 <= 3 * |Flatten(work)|
    ensures Quiet(run[|run| - 1]) <==> |run| - 1 == 3 * |Flatten(work)|
  {
    RunConserves(seeds, work, run);
    RunWork(seeds, work, run);
    WorkDone(run[|run| - 1].pushers);
  }
}
