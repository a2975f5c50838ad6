/**
 * The peak against live bytes rather than against the counter, which lags behind them while
 * operations are under way.
 */
module LivePeak {
  import opened PeakAllocs
  import opened Sequences

  /** The highest number of live bytes from state `from` to state `to`. */
  function HighestLive(states: seq<State>, from: nat, to: nat): int
    requires from <= to < |states|
  {
    if from == to then Live(states[from]) else Max(HighestLive(states, from, to - 1), Live(states[to]))
  }

  /** At most one thread, `i`, is in the middle of an operation. */
  ghost predicate OnlyBusy(s: State, i: nat) {
    forall j :: 0 <= j < |s.threads| && j != i ==> s.threads[j].Idle?
  }

  ghost predicate OneAtATime(s: State) {
    exists i: nat :: OnlyBusy(s, i)
  }

  function DoingOf(s: State, i: nat): Doing {
    if i < |s.threads| then s.threads[i] else Idle
  }

  lemma {:induction false} SumOfOnly(f: Doing -> nat, threads: seq<Doing>, i: nat)
    requires f(Idle) == 0 && forall j :: 0 <= j < |threads| && j != i ==> threads[j].Idle?
    ensures SumOf(f, threads) == if i < |threads| then f(threads[i]) else 0
  {
    if i >= |threads| {
      IdleSum(f, threads);
    } else {
      SumRemove(f, threads, i);
      IdleSum(f, threads[..i] + threads[i + 1..]);
    }
  }

  /** The counter is off by what that one operation has yet to add and to take off. */
  lemma LiveOfOnly(s: State, i: nat)
    requires Balanced(s) && OnlyBusy(s, i)
    ensures Live(s) == s.current + ToAdd(DoingOf(s, i)) - ToSubtract(DoingOf(s, i))
  {
    hide SumOf;
    ChargesAreAdjustments(s.threads);
    SumOfOnly(ToAdd, s.threads, i);
    SumOfOnly(ToSubtract, s.threads, i);
  }

  lemma BusyIs(s: State, i: nat, j: nat)
    requires OnlyBusy(s, i) && j < |s.threads| && !s.threads[j].Idle?
    ensures i == j
  {
  }

  lemma OthersStay(s: State, a: Action, j: nat)
    requires Enabled(s, a) && j != a.thread
    ensures DoingOf(After(s, a), j) == DoingOf(s, j)
  {
  }

  lemma IdleStarts(s: State, a: Action)
    requires Enabled(s, a) && s.threads[a.thread].Idle?
    ensures |After(s, a).threads| == |s.threads| && !After(s, a).threads[a.thread].Idle?
  {
  }

  /** A step keeps the one busy thread busy, or happens while none was. */
  lemma SameBusy(s: State, a: Action, i: nat)
    requires Enabled(s, a) && OnlyBusy(s, i) && OneAtATime(After(s, a))
    ensures DoingOf(s, i).Idle? || a.thread == i
    ensures OnlyBusy(After(s, a), a.thread)
  {
    var t, w := After(s, a), a.thread;
    assert w < |s.threads| && |t.threads| == |s.threads|;
    var j: nat :| OnlyBusy(t, j);
    if s.threads[w].Idle? {
      IdleStarts(s, a);
      BusyIs(t, j, w);
      if i != w {
        OthersStay(s, a, i);
      }
    } else {
      BusyIs(s, i, w);
      forall k | 0 <= k < |t.threads| && k != w ensures t.threads[k].Idle? {
        OthersStay(s, a, k);
      }
    }
  }

  /** What the step does to the live bytes and to the counter. */
  lemma StepLive(s: State, a: Action, i: nat)
    requires Enabled(s, a) && OnlyBusy(s, i) && OneAtATime(After(s, a)) && Balanced(s)
    ensures var t := After(s, a);
      && Live(s) <= Max(s.current, Max(t.current, Live(t)))
      && t.current <= Max(s.current, Live(s))
  {
    hide SumOf;
    var t := After(s, a);
    SameBusy(s, a, i);
    StepBalances(s, a);
    LiveOfOnly(s, i);
    LiveOfOnly(t, a.thread);
    if DoingOf(s, i).Idle? {
      LiveOfOnly(s, a.thread);
    }
  }

  lemma {:induction false} SequentialLive(states: seq<State>, actions: seq<Action>, from: nat, to: nat)
    requires IsRun(states, actions) && from <= to < |states|
    requires forall t :: from <= t <= to ==> OneAtATime(states[t])
    requires Live(states[from]) == states[from].current
    ensures HighestLive(states, from, to) == Max(Highest(states, from, to), Live(states[to]))
  {
    hide OnlyBusy, After, Enabled, Live, Balanced;
    if from < to {
      SequentialLive(states, actions, from, to - 1);
      assert StepAt(states, actions, to - 1);
      AlwaysBalanced(states, actions, to - 1);
      assert OneAtATime(states[to - 1]) && OneAtATime(states[to]);
      var i: nat :| OnlyBusy(states[to - 1], i);
      StepLive(states[to - 1], actions[to - 1], i);
      HighestIsAtLeast(states, from, to - 1);
    }
  }

  lemma QuietLive(states: seq<State>, actions: seq<Action>, from: nat, to: nat)
    requires IsRun(states, actions) && from <= to < |states| && Quiet(states[to])
    requires forall t :: from <= t <= to ==> OneAtATime(states[t])
    requires Live(states[from]) == states[from].current
    ensures HighestLive(states, from, to) == Highest(states, from, to)
  {
    hide OneAtATime, Quiet;
    SequentialLive(states, actions, from, to);
    QuietCounterIsExact(states, actions, to);
    HighestIsAtLeast(states, from, to);
  }

  /** Without a reset, operations one at a time leave the highest number of live bytes ever as the peak. */
  lemma SequentialPeakWithoutReset(states: seq<State>, actions: seq<Action>, to: nat)
    requires IsRun(states, actions) && to < |states| && Quiet(states[to])
    requires forall t :: 0 <= t <= to ==> OneAtATime(states[t])
    requires forall t :: 0 <= t < to ==> !actions[t].Store?
    ensures states[to].peak == HighestLive(states, 0, to)
  {
    hide OneAtATime;
    PeakWithoutReset(states, actions, to);
    QuietCounterIsExact(states, actions, 0);
    QuietLive(states, actions, 0, to);
  }

  lemma {:induction false} ThreadCount(states: seq<State>, actions: seq<Action>, from: nat, t: nat)
    requires IsRun(states, actions) && from <= t < |states|
    ensures |states[t].threads| == |states[from].threads|
  {
    if from < t {
      ThreadCount(states, actions, from, t - 1);
      assert StepAt(states, actions, t - 1);
    }
  }

  /** As a reset reads no other operation is under way, and none steps until it has stored. */
  lemma NobodyElse(states: seq<State>, actions: seq<Action>, load: nat, store: nat, to: nat)
    requires IsRun(states, actions) && LastReset(actions, load, store, to)
    requires forall t :: load <= t <= to ==> OneAtATime(states[t])
    ensures Quiet(states[load])
    ensures forall t :: load < t < store ==> !actions[t].FetchMax?
  {
    var r := actions[load].thread;
    assert StepAt(states, actions, load);
    assert OneAtATime(states[load + 1]);
    var i: nat :| OnlyBusy(states[load + 1], i);
    forall j | 0 <= j < |states[load].threads| ensures states[load].threads[j].Idle? {
      assert states[load + 1].threads[r].Resetting?;
      assert j != r ==> states[load + 1].threads[j] == states[load].threads[j];
    }
    forall t | load < t < store ensures !actions[t].FetchMax? {
      assert StepAt(states, actions, t);
      ThreadCount(states, actions, load + 1, t);
      Untouched(states, actions, load + 1, t, r);
      assert OneAtATime(states[t]);
      var k: nat :| OnlyBusy(states[t], k);
      assert states[t].threads[r].Resetting?;
    }
  }

  /** After a reset, operations one at a time leave the highest number of live bytes since as the peak. */
  lemma SequentialPeak(states: seq<State>, actions: seq<Action>, load: nat, store: nat, to: nat)
    requires IsRun(states, actions) && LastReset(actions, load, store, to) && Quiet(states[to])
    requires forall t :: load <= t <= to ==> OneAtATime(states[t])
    ensures states[to].peak == HighestLive(states, load, to)
  {
    hide OneAtATime, Live;
    NobodyElse(states, actions, load, store, to);
    QuietCounterIsExact(states, actions, load);
    PeakSinceReset(states, actions, load, store, to);
    QuietLive(states, actions, load, to);
  }

  // ---------------------------------------------------------------------------------------------
  // Two runs in which operations overlap
  // ---------------------------------------------------------------------------------------------

  ghost predicate BeginsWithBlock(states: seq<State>) {
    && |states| >= 4
    && states[0] == State(0, 0, [], [Idle, Idle]) && states[1] == State(0, 0, [], [Adding(8), Idle])
    && states[2] == State(8, 0, [], [Raising(8, 8), Idle]) && states[3] == State(8, 8, [8], [Idle, Idle])
  }

  lemma OneBlock() returns (states: seq<State>, actions: seq<Action>)
    ensures IsRun(states, actions) && actions == [Allocate(0, 8), FetchAdd(0), FetchMax(0)]
    ensures |states| == 4 && BeginsWithBlock(states)
  {
    states, actions := [State(0, 0, [], [Idle, Idle])], [];
    states, actions := Extend(states, actions, Allocate(0, 8));
    assert states[1] == State(0, 0, [], [Adding(8), Idle]);
    hide IsRun;
    states, actions := Extend(states, actions, FetchAdd(0));
    states, actions := Extend(states, actions, FetchMax(0));
  }

  lemma FreeThenAllocate() returns (states: seq<State>, actions: seq<Action>)
    ensures IsRun(states, actions) && |actions| == 8 && forall t :: 0 <= t < 8 ==> !actions[t].Store?
    ensures |states| == 9 && BeginsWithBlock(states)
    ensures states[4] == State(8, 8, [], [Subtracting(8), Idle])
    ensures states[5] == State(8, 8, [], [Subtracting(8), Adding(8)])
    ensures states[6] == State(16, 8, [], [Subtracting(8), Raising(8, 16)])
    ensures states[7] == State(16, 16, [8], [Subtracting(8), Idle])
    ensures states[8] == State(8, 16, [8], [Idle, Idle])
  {
    states, actions := OneBlock();
    assert states[3] == State(8, 8, [8], [Idle, Idle]);
    hide IsRun, BeginsWithBlock;
    states, actions := Extend(states, actions, Free(0, 0));
    assert states[4] == State(8, 8, [], [Subtracting(8), Idle]);
    states, actions := Extend(states, actions, Allocate(1, 8));
    assert states[5] == State(8, 8, [], [Subtracting(8), Adding(8)]);
    states, actions := Extend(states, actions, FetchAdd(1));
    assert states[6] == State(16, 8, [], [Subtracting(8), Raising(8, 16)]);
    states, actions := Extend(states, actions, FetchMax(1));
    states, actions := Extend(states, actions, FetchSub(0));
  }

  /** A freed block still counts until it is taken off: the peak exceeds what was ever live. */
  lemma PeakAboveLive() returns (states: seq<State>, actions: seq<Action>)
    ensures IsRun(states, actions) && |actions| == 8 && Quiet(states[8])
    ensures forall t :: 0 <= t < 8 ==> !actions[t].Store?
    ensures states[8].peak == 16 && HighestLive(states, 0, 8) == 8
  {
    hide IsRun, HighestLive, Live;
    states, actions := FreeThenAllocate();
    LiveOfTwo(states[0]);
    LiveOfTwo(states[1]);
    LiveOfTwo(states[2]);
    LiveOfTwo(states[3]);
    LiveOfTwo(states[4]);
    LiveOfTwo(states[5]);
    LiveOfTwo(states[6]);
    LiveOfTwo(states[7]);
    LiveOfTwo(states[8]);
    UpToEight(states);
  }

  lemma AllocateThenFree() returns (states: seq<State>, actions: seq<Action>)
    ensures IsRun(states, actions) && |actions| == 8 && forall t :: 0 <= t < 8 ==> !actions[t].Store?
    ensures |states| == 9 && BeginsWithBlock(states)
    ensures states[4] == State(8, 8, [8], [Idle, Adding(8)])
    ensures states[5] == State(8, 8, [], [Subtracting(8), Adding(8)])
    ensures states[6] == State(0, 8, [], [Idle, Adding(8)])
    ensures states[7] == State(8, 8, [], [Idle, Raising(8, 8)])
    ensures states[8] == State(8, 8, [8], [Idle, Idle])
  {
    states, actions := OneBlock();
    assert states[3] == State(8, 8, [8], [Idle, Idle]);
    hide IsRun, BeginsWithBlock;
    states, actions := Extend(states, actions, Allocate(1, 8));
    assert states[4] == State(8, 8, [8], [Idle, Adding(8)]);
    states, actions := Extend(states, actions, Free(0, 0));
    states, actions := Extend(states, actions, FetchSub(0));
    assert states[6] == State(0, 8, [], [Idle, Adding(8)]);
    states, actions := Extend(states, actions, FetchAdd(1));
    states, actions := Extend(states, actions, FetchMax(1));
  }

  /** A block not yet counted is live already: the peak falls short of what was live. */
  lemma PeakBelowLive() returns (states: seq<State>, actions: seq<Action>)
    ensures IsRun(states, actions) && |actions| == 8 && Quiet(states[8])
    ensures forall t :: 0 <= t < 8 ==> !actions[t].Store?
    ensures states[8].peak == 8 && HighestLive(states, 0, 8) == 16
  {
    hide IsRun, HighestLive, Live;
    states, actions := AllocateThenFree();
    LiveOfTwo(states[0]);
    LiveOfTwo(states[1]);
    LiveOfTwo(states[2]);
    LiveOfTwo(states[3]);
    LiveOfTwo(states[4]);
    LiveOfTwo(states[5]);
    LiveOfTwo(states[6]);
    LiveOfTwo(states[7]);
    LiveOfTwo(states[8]);
    UpToEight(states);
  }

  lemma LiveOfTwo(s: State)
    requires |s.threads| == 2 && |s.owned| <= 1
    ensures Live(s) == (if s.owned == [] then 0 else s.owned[0]) + Held(s.threads[0]) + Held(s.threads[1])
  {
    assert s.threads == [s.threads[0], s.threads[1]];
    SumConcat(Held, [s.threads[0]], [s.threads[1]]);
    if s.owned != [] {
      assert s.owned == [] + [s.owned[0]];
      SumAppend(Itself, [], s.owned[0]);
    }
  }

  lemma UpToEight(states: seq<State>)
    requires |states| == 9
    ensures HighestLive(states, 0, 8) == Max(Max(Max(Max(Max(Max(Max(Max(
      Live(states[0]), Live(states[1])), Live(states[2])), Live(states[3])), Live(states[4])),
      Live(states[5])), Live(states[6])), Live(states[7])), Live(states[8]))
  {
    hide Live, Max;
    assert HighestLive(states, 0, 0) == Live(states[0]);
    assert HighestLive(states, 0, 1) == Max(HighestLive(states, 0, 0), Live(states[1]));
    assert HighestLive(states, 0, 2) == Max(HighestLive(states, 0, 1), Live(states[2]));
    assert HighestLive(states, 0, 3) == Max(HighestLive(states, 0, 2), Live(states[3]));
    assert HighestLive(states, 0, 4) == Max(HighestLive(states, 0, 3), Live(states[4]));
    assert HighestLive(states, 0, 5) == Max(HighestLive(states, 0, 4), Live(states[5]));
    assert HighestLive(states, 0, 6) == Max(HighestLive(states, 0, 5), Live(states[6]));
    assert HighestLive(states, 0, 7) == Max(HighestLive(states, 0, 6), Live(states[7]));
  }
}
