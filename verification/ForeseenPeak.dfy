/**
 * What a reset will have been worth is settled as soon as it has stored: a condition on that state
 * decides whether the peak will be right whenever the allocator is next quiet.
 */
module ForeseenPeak {
  import opened PeakAllocs
  import opened Sequences

  /** The run goes on, without another store. */
  ghost predicate Continues(states: seq<State>, actions: seq<Action>, states': seq<State>, actions': seq<Action>) {
    && |states| == |actions| + 1 && IsRun(states', actions')
    && |actions| <= |actions'| && states == states'[..|states|] && actions == actions'[..|actions|]
    && forall t :: |actions| <= t < |actions'| ==> !actions'[t].Store?
  }

  /** An operation under way has at least `n` bytes yet to add. */
  predicate Owes(d: Doing, n: int) {
    (d.Adding? && n <= d.bytes) || (d.Resizing? && n <= d.newBytes)
  }

  ghost predicate SomeoneOwes(s: State, n: int) {
    exists i :: 0 <= i < |s.threads| && Owes(s.threads[i], n)
  }

  ghost predicate SomeoneRaises(s: State, n: int) {
    exists i :: 0 <= i < |s.threads| && s.threads[i].Raising? && n <= s.threads[i].now
  }

  /** Thread `i` has a `fetch_max` with `n` outstanding since before step `load`. */
  ghost predicate OldRaise(states: seq<State>, actions: seq<Action>, load: nat, i: nat, n: int)
    requires |states| == |actions| + 1
  {
    var s := states[|actions|];
    && i < |s.threads| && s.threads[i].Raising? && s.threads[i].now == n
    && forall k :: load <= k < |actions| ==> actions[k].thread != i
  }

  /**
   * As the reset has stored: what completed during it was no more than the stored value, or than
   * what operations under way have still to put up; and what is outstanding from before it is no
   * more than the counter reached since, or than what they have still to add.
   */
  ghost predicate Foreseen(states: seq<State>, actions: seq<Action>, load: nat, store: nat)
    requires |states| == |actions| + 1 && load <= |actions|
  {
    var s, high := states[|actions|], Highest(states, load, |actions|);
    && (forall n :: Missed(states, actions, load, store, n) ==> n <= s.peak || SomeoneRaises(s, n) || SomeoneOwes(s, n))
    && (forall i, n :: OldRaise(states, actions, load, i, n) ==> n <= high || SomeoneOwes(s, n))
  }

  // ---------------------------------------------------------------------------------------------
  // What is under way lands
  // ---------------------------------------------------------------------------------------------

  lemma NotNegative(states: seq<State>, actions: seq<Action>, t: nat)
    requires IsRun(states, actions) && t < |states|
    ensures states[t].current >= 0
  {
    CounterIsLiveAdjusted(states, actions, t);
  }

  /** A `fetch_max` outstanding in state `from` has happened once the allocator is quiet. */
  lemma {:induction false} RaiseLands(states: seq<State>, actions: seq<Action>, from: nat, to: nat, i: nat)
    returns (t: nat)
    requires IsRun(states, actions) && from <= to < |states| && Quiet(states[to])
    requires i < |states[from].threads| == |states[to].threads| && states[from].threads[i].Raising?
    ensures from <= t < to && Raises(states, actions, t, states[from].threads[i].now)
    decreases |states| - from
  {
    assert states[to].threads[i].Idle?;
    assert from < to;
    assert StepAt(states, actions, from);
    if actions[from].thread == i {
      t := from;
    } else {
      t := RaiseLands(states, actions, from + 1, to, i);
    }
  }

  /** Bytes owed in state `from` have been added, and put to the peak, once the allocator is quiet. */
  lemma {:induction false} AddLands(states: seq<State>, actions: seq<Action>, from: nat, to: nat, i: nat, n: int)
    returns (t: nat, v: int, u: nat)
    requires IsRun(states, actions) && from <= to < |states| && Quiet(states[to])
    requires i < |states[from].threads| == |states[to].threads| && Owes(states[from].threads[i], n)
    ensures from <= t < to && Raises(states, actions, t, v) && n <= v
    ensures from <= u <= to && n <= states[u].current
    decreases |states| - from
  {
    assert states[to].threads[i].Idle?;
    assert from < to;
    assert StepAt(states, actions, from);
    NotNegative(states, actions, from);
    if actions[from].thread == i && states[from].threads[i].Adding? {
      t := RaiseLands(states, actions, from + 1, to, i);
      v, u := states[from + 1].threads[i].now, from + 1;
    } else {
      t, v, u := AddLands(states, actions, from + 1, to, i, n);
    }
  }

  lemma {:induction false} ThreadsStay(states: seq<State>, actions: seq<Action>, from: nat, to: nat)
    requires IsRun(states, actions) && from <= to < |states|
    ensures |states[from].threads| == |states[to].threads|
  {
    if from < to {
      ThreadsStay(states, actions, from, to - 1);
      assert StepAt(states, actions, to - 1);
    }
  }

  lemma {:induction false} HighestGrows(states: seq<State>, from: nat, mid: nat, to: nat)
    requires from <= mid <= to < |states|
    ensures Highest(states, from, mid) <= Highest(states, from, to)
  {
    if mid < to {
      HighestGrows(states, from, mid, to - 1);
    }
  }

  lemma {:induction false} HighestOfPrefix(states: seq<State>, states': seq<State>, from: nat, to: nat)
    requires from <= to < |states| <= |states'| && states == states'[..|states|]
    ensures Highest(states', from, to) == Highest(states, from, to)
  {
    assert states'[to] == states[to];
    if from < to {
      HighestOfPrefix(states, states', from, to - 1);
    }
  }

  lemma RaisesOfPrefix(states: seq<State>, actions: seq<Action>, states': seq<State>, actions': seq<Action>, t: nat,
          n: int)
    requires Continues(states, actions, states', actions') && t < |actions|
    ensures Raises(states', actions', t, n) <==> Raises(states, actions, t, n)
  {
    assert states'[t] == states[t] && actions'[t] == actions[t];
  }

  lemma MissedOfPrefix(states: seq<State>, actions: seq<Action>, states': seq<State>, actions': seq<Action>,
                       load: nat, store: nat, n: int)
    requires Continues(states, actions, states', actions') && store <= |actions|
    ensures Missed(states', actions', load, store, n) <==> Missed(states, actions, load, store, n)
  {
    hide Raises;
    forall t: nat | load < t < store
      ensures Raises(states', actions', t, n) <==> Raises(states, actions, t, n)
      ensures Begun(actions', load, t) <==> Begun(actions, load, t)
    {
      RaisesOfPrefix(states, actions, states', actions', t, n);
      forall k | load <= k <= t ensures actions'[k] == actions[k] {
      }
    }
  }

  // ---------------------------------------------------------------------------------------------
  // The condition suffices
  // ---------------------------------------------------------------------------------------------

  /** The run up to a reset's store, after which no other reset is under way. */
  ghost predicate JustReset(states: seq<State>, actions: seq<Action>, load: nat, store: nat) {
    && IsRun(states, actions) && |actions| == store + 1 && LastReset(actions, load, store, store + 1)
    && forall i :: 0 <= i < |states[|actions|].threads| ==> !states[|actions|].threads[i].Resetting?
  }

  lemma StillLast(states: seq<State>, actions: seq<Action>, states': seq<State>, actions': seq<Action>,
                  load: nat, store: nat)
    requires JustReset(states, actions, load, store) && Continues(states, actions, states', actions')
    ensures LastReset(actions', load, store, |actions'|)
    ensures states'[store + 1] == states[store + 1] && states'[store + 1].peak == states'[load].current
  {
    forall t | 0 <= t < |actions| ensures actions'[t] == actions[t] {
    }
    assert states'[store + 1] == states[store + 1];
    StoresWhatItLoaded(states', actions', load, store, |actions'|);
  }

  lemma MissedIsPut(states: seq<State>, actions: seq<Action>, states': seq<State>, actions': seq<Action>,
                    load: nat, store: nat, n: int)
    requires JustReset(states, actions, load, store) && Continues(states, actions, states', actions')
    requires Quiet(states'[|actions'|])
    requires var s := states[|actions|]; n <= s.peak || SomeoneRaises(s, n) || SomeoneOwes(s, n)
    ensures LastReset(actions', load, store, |actions'|)
    ensures n <= PutSince(states', actions', load, store, |actions'|)
  {
    var s, to := states[|actions|], |actions'|;
    StillLast(states, actions, states', actions', load, store);
    PutIsMaximum(states', actions', states'[load].current, store + 1, to);
    ThreadsStay(states', actions', store + 1, to);
    if n > s.peak {
      if SomeoneRaises(s, n) {
        var i :| 0 <= i < |s.threads| && s.threads[i].Raising? && n <= s.threads[i].now;
        var t := RaiseLands(states', actions', store + 1, to, i);
      } else {
        var i :| 0 <= i < |s.threads| && Owes(s.threads[i], n);
        var t, v, u := AddLands(states', actions', store + 1, to, i, n);
      }
    }
  }

  lemma OldRaiseIsReached(states: seq<State>, actions: seq<Action>, states': seq<State>, actions': seq<Action>,
                          load: nat, store: nat, n: int)
    requires JustReset(states, actions, load, store) && Continues(states, actions, states', actions')
    requires Quiet(states'[|actions'|])
    requires n <= Highest(states, load, |actions|) || SomeoneOwes(states[|actions|], n)
    ensures n <= Highest(states', load, |actions'|)
  {
    var s, to := states[|actions|], |actions'|;
    StillLast(states, actions, states', actions', load, store);
    HighestOfPrefix(states, states', load, |actions|);
    HighestGrows(states', load, |actions|, to);
    if n > Highest(states, load, |actions|) {
      ThreadsStay(states', actions', store + 1, to);
      var i :| 0 <= i < |s.threads| && Owes(s.threads[i], n);
      var t, v, u := AddLands(states', actions', store + 1, to, i, n);
      var top := HighestIsMaximum(states', load, to);
    }
  }

  lemma StaleWasOld(states: seq<State>, actions: seq<Action>, states': seq<State>, actions': seq<Action>,
                    load: nat, store: nat, n: int)
    returns (i: nat)
    requires JustReset(states, actions, load, store) && Continues(states, actions, states', actions')
    requires Stale(states', actions', load, store, |actions'|, n)
    ensures OldRaise(states, actions, load, i, n)
  {
    var t :| store < t < |actions'| && Raises(states', actions', t, n) && !Begun(actions', load, t);
    i := actions'[t].thread;
    forall k | load <= k < t ensures actions'[k].thread != i {
    }
    forall k | load <= k < |actions| ensures actions[k].thread != i {
      assert actions[k] == actions'[k];
    }
    Untouched(states', actions', store + 1, t, i);
    assert states'[store + 1] == states[store + 1];
  }

  lemma ForeseenIsRight(states: seq<State>, actions: seq<Action>, states': seq<State>, actions': seq<Action>,
                        load: nat, store: nat)
    requires JustReset(states, actions, load, store) && Foreseen(states, actions, load, store)
    requires Continues(states, actions, states', actions') && Quiet(states'[|actions'|])
    ensures states'[|actions'|].peak == Highest(states', load, |actions'|)
  {
    hide Quiet, Missed, Stale, OldRaise, SomeoneOwes, SomeoneRaises, Continues, JustReset, PutSince;
    var to := |actions'|;
    Unfold(states, actions, states', actions', load, store);
    PeakExactly(states', actions', load, store, to);
    forall n | Missed(states', actions', load, store, n) ensures n <= PutSince(states', actions', load, store, to) {
      MissedOfPrefix(states, actions, states', actions', load, store, n);
      MissedIsPut(states, actions, states', actions', load, store, n);
    }
    forall n | Stale(states', actions', load, store, to, n) ensures n <= Highest(states', load, to) {
      var i := StaleWasOld(states, actions, states', actions', load, store, n);
      OldRaiseIsReached(states, actions, states', actions', load, store, n);
    }
  }

  lemma Unfold(states: seq<State>, actions: seq<Action>, states': seq<State>, actions': seq<Action>, load: nat,
          store: nat)
    requires JustReset(states, actions, load, store) && Continues(states, actions, states', actions')
    ensures |states| == |actions| + 1 && |states'| == |actions'| + 1 && |actions| == store + 1 <= |actions'|
    ensures IsRun(states', actions') && LastReset(actions', load, store, |actions'|)
  {
    StillLast(states, actions, states', actions', load, store);
  }

  // ---------------------------------------------------------------------------------------------
  // And is needed: everything can be finished and freed before the next bytes are added
  // ---------------------------------------------------------------------------------------------

  function Weight(d: Doing): nat {
    match d
    case Idle => 0
    case Subtracting(_) => 1
    case Raising(_, _) => 3
    case Adding(_) => 4
    case Resizing(_, _) => 5
    case Resetting(_) => 6
  }

  function WorkLeft(s: State): nat { SumOf(Weight, s.threads) + 2 * |s.owned| }

  lemma StepWorks(s: State, a: Action)
    requires Enabled(s, a) && (a.FetchMax? || a.FetchSub? || a.FetchAdd? || a.Free?)
    ensures WorkLeft(After(s, a)) < WorkLeft(s)
  {
    hide SumOf;
    SumUpdate(Weight, s.threads, a.thread, After(s, a).threads[a.thread]);
  }

  /** Thread `r` is free to release blocks; nothing under way exceeds the given bounds. */
  ghost predicate Calm(s: State, r: nat, capped: bool, put: int, reach: int, owed: nat) {
    && r < |s.threads| && (s.threads[r].Idle? || s.threads[r].Subtracting?)
    && (forall i :: 0 <= i < |s.threads| ==> !s.threads[i].Resetting? && ToAdd(s.threads[i]) <= owed)
    && s.current <= reach && owed <= reach
    && (capped ==> owed <= put && s.peak <= put)
    && (capped ==> forall i :: 0 <= i < |s.threads| && s.threads[i].Raising? ==> s.threads[i].now <= put)
  }

  lemma StepCalm(s: State, a: Action, r: nat, capped: bool, put: int, reach: int, owed: nat)
    requires Enabled(s, a) && Calm(s, r, capped, put, reach, owed)
    requires a.FetchMax? || a.FetchSub? || (a.FetchAdd? && s.current == 0) || (a.Free? && a.thread == r)
    ensures Calm(After(s, a), r, capped, put, reach, owed)
  {
    var t := After(s, a);
    assert ToAdd(s.threads[a.thread]) <= owed;
    forall i | 0 <= i < |t.threads| && i != a.thread ensures t.threads[i] == s.threads[i] {
    }
  }

  lemma {:induction false} NothingCharged(threads: seq<Doing>)
    requires forall i :: 0 <= i < |threads| ==> Charged(threads[i]) == 0
    ensures SumOf(Charged, threads) == 0
  {
    if threads != [] {
      assert Charged(threads[0]) == 0;
      NothingCharged(threads[1..]);
    }
  }

  lemma NothingCounted(s: State)
    requires Balanced(s) && s.owned == [] && forall i :: 0 <= i < |s.threads| ==> Charged(s.threads[i]) == 0
    ensures s.current == 0
  {
    NothingCharged(s.threads);
  }

  /** The next step that finishes something, adding only when nothing else is counted. */
  lemma NextToFinish(s: State, r: nat, capped: bool, put: int, reach: int, owed: nat) returns (a: Action)
    requires Calm(s, r, capped, put, reach, owed) && Balanced(s) && !Quiet(s)
    ensures Enabled(s, a)
    ensures a.FetchMax? || a.FetchSub? || (a.FetchAdd? && s.current == 0) || (a.Free? && a.thread == r)
  {
    hide Balanced;
    if i: nat :| i < |s.threads| && s.threads[i].Raising? {
      a := FetchMax(i);
    } else if i: nat :| i < |s.threads| && (s.threads[i].Subtracting? || s.threads[i].Resizing?) {
      a := FetchSub(i);
    } else if s.owned != [] {
      a := Free(r, 0);
    } else {
      var i: nat :| i < |s.threads| && !s.threads[i].Idle?;
      a := FetchAdd(i);
      forall j | 0 <= j < |s.threads| ensures Charged(s.threads[j]) == 0 {
      }
      NothingCounted(s);
    }
  }

  /** The run can come to quiet without another store and within the bounds. */
  lemma {:induction false} Drain(states: seq<State>, actions: seq<Action>, load: nat, r: nat,
                                 capped: bool, put: int, reach: int, owed: nat)
    returns (states': seq<State>, actions': seq<Action>)
    requires IsRun(states, actions) && load <= |actions|
    requires Calm(states[|actions|], r, capped, put, reach, owed) && Highest(states, load, |actions|) <= reach
    ensures Continues(states, actions, states', actions') && Quiet(states'[|actions'|])
    ensures Highest(states', load, |actions'|) <= reach
    ensures capped ==> states'[|actions'|].peak <= put
    decreases WorkLeft(states[|actions|])
  {
    var s := states[|actions|];
    if Quiet(s) {
      states', actions' := states, actions;
    } else {
      hide Calm, Quiet, After, Enabled, WorkLeft;
      AlwaysBalanced(states, actions, |actions|);
      var a := NextToFinish(s, r, capped, put, reach, owed);
      StepCalm(s, a, r, capped, put, reach, owed);
      StepWorks(s, a);
      var longer, more := Extend(states, actions, a);
      CalmReaches(longer[|more|], r, capped, put, reach, owed);
      HighestOfPrefix(states, longer, load, |actions|);
      states', actions' := Drain(longer, more, load, r, capped, put, reach, owed);
      Continued(states, actions, a, longer, states', actions');
    }
  }

  lemma CalmReaches(s: State, r: nat, capped: bool, put: int, reach: int, owed: nat)
    requires Calm(s, r, capped, put, reach, owed)
    ensures s.current <= reach
  {
  }

  lemma Continued(states: seq<State>, actions: seq<Action>, a: Action, longer: seq<State>,
                  states': seq<State>, actions': seq<Action>)
    requires |states| == |actions| + 1 && |longer| == |states| + 1 && longer[..|states|] == states && !a.Store?
    requires Continues(longer, actions + [a], states', actions')
    ensures Continues(states, actions, states', actions')
  {
    assert |states'| == |actions'| + 1;
    hide IsRun;
    assert states'[..|states|] == longer[..|states|];
    assert actions'[..|actions|] == (actions + [a])[..|actions|];
    assert actions'[|actions|] == (actions + [a])[|actions|];
  }

  lemma ResetterIsIdle(states: seq<State>, actions: seq<Action>, load: nat, store: nat)
    requires JustReset(states, actions, load, store)
    ensures var s, r := states[store + 1], actions[load].thread; r < |s.threads| && s.threads[r].Idle?
    ensures states[store + 1].peak == states[load].current >= 0
  {
    assert StepAt(states, actions, store);
    StoresWhatItLoaded(states, actions, load, store, store + 1);
    NotNegative(states, actions, load);
  }

  lemma MissedIsReached(states: seq<State>, actions: seq<Action>, load: nat, store: nat, n: int)
    requires IsRun(states, actions) && LastReset(actions, load, store, store + 1)
    requires Missed(states, actions, load, store, n)
    ensures n <= Highest(states, load, store + 1)
  {
    hide Highest;
    CompletedWhen(states, actions, load, store, store + 1, n);
    AlwaysExplained(states, actions, load, store + 1);
  }

  /** A missed value that nothing under way makes up for is missing from some quiet peak. */
  lemma MissedIsLost(states: seq<State>, actions: seq<Action>, load: nat, store: nat, n: int)
    returns (states': seq<State>, actions': seq<Action>)
    requires JustReset(states, actions, load, store) && Missed(states, actions, load, store, n)
    requires var s := states[|actions|]; !(n <= s.peak || SomeoneRaises(s, n) || SomeoneOwes(s, n))
    ensures Continues(states, actions, states', actions') && Quiet(states'[|actions'|])
    ensures states'[|actions'|].peak < Highest(states', load, |actions'|)
  {
    var s, r := states[|actions|], actions[load].thread;
    ResetterIsIdle(states, actions, load, store);
    MissedIsReached(states, actions, load, store, n);
    var owed: nat, reach := n - 1, Max(Highest(states, load, |actions|), n - 1);
    forall i | 0 <= i < |s.threads| ensures ToAdd(s.threads[i]) <= owed {
      assert !Owes(s.threads[i], n);
    }
    HighestIsAtLeast(states, load, |actions|);
    states', actions' := Drain(states, actions, load, r, true, n - 1, reach, owed);
    HighestOfPrefix(states, states', load, |actions|);
    HighestGrows(states', load, |actions|, |actions'|);
  }

  /** An old raise that neither the counter nor anything under way reaches overstates some quiet peak. */
  lemma OldRaiseOverstates(states: seq<State>, actions: seq<Action>, load: nat, store: nat, i: nat, n: int)
    returns (states': seq<State>, actions': seq<Action>)
    requires JustReset(states, actions, load, store) && OldRaise(states, actions, load, i, n)
    requires !(n <= Highest(states, load, |actions|) || SomeoneOwes(states[|actions|], n))
    ensures Continues(states, actions, states', actions') && Quiet(states'[|actions'|])
    ensures Highest(states', load, |actions'|) < states'[|actions'|].peak
  {
    var s, r := states[|actions|], actions[load].thread;
    ResetterIsIdle(states, actions, load, store);
    NotNegative(states, actions, |actions|);
    HighestIsAtLeast(states, load, |actions|);
    var owed: nat := n - 1;
    forall j | 0 <= j < |s.threads| ensures ToAdd(s.threads[j]) <= owed {
      assert !Owes(s.threads[j], n);
    }
    states', actions' := Drain(states, actions, load, r, false, 0, n - 1, owed);
    var to := |actions'|;
    StillLast(states, actions, states', actions', load, store);
    ThreadsStay(states', actions', store + 1, to);
    var t := RaiseLands(states', actions', store + 1, to, i);
    PutIsMaximum(states', actions', states'[load].current, store + 1, to);
    PeakExactly(states', actions', load, store, to);
  }

  /** Whenever the allocator is next quiet, without another store, the peak is right. */
  ghost predicate AlwaysRight(states: seq<State>, actions: seq<Action>, load: nat)
    requires |states| == |actions| + 1 && load <= |actions|
  {
    forall states': seq<State>,
      actions': seq<Action> :: Continues(states, actions, states', actions') && Quiet(states'[|actions'|]) ==>
      states'[|actions'|].peak == Highest(states', load, |actions'|)
  }

  /**
   * As a reset has stored, it is settled: the peak will be the highest value the counter took since
   * the reset, in every way to go on, if and only if the condition on that state holds.
   */
  lemma PeakForeseen(states: seq<State>, actions: seq<Action>, load: nat, store: nat)
    requires JustReset(states, actions, load, store)
    ensures |states| == |actions| + 1 && load <= |actions|
    ensures AlwaysRight(states, actions, load) <==> Foreseen(states, actions, load, store)
  {
    hide Quiet, Missed, OldRaise, SomeoneOwes, SomeoneRaises;
    if Foreseen(states, actions, load, store) {
      forall states': seq<State>,
        actions': seq<Action> | Continues(states, actions, states', actions') && Quiet(states'[|actions'|])
        ensures states'[|actions'|].peak == Highest(states', load, |actions'|)
      {
        ForeseenIsRight(states, actions, states', actions', load, store);
      }
    } else {
      var s := states[|actions|];
      if n :| Missed(states, actions, load, store, n) && !(n <= s.peak || SomeoneRaises(s, n) || SomeoneOwes(s, n)) {
        var states', actions' := MissedIsLost(states, actions, load, store, n);
      } else {
        var i, n :| OldRaise(states, actions, load, i, n)
                    && !(n <= Highest(states, load, |actions|) || SomeoneOwes(s, n));
        var states', actions' := OldRaiseOverstates(states, actions, load, store, i, n);
      }
    }
  }
}
