/** The counting allocator, called one operation at a time and by many threads at once. */
module PeakAllocs {
  import opened Sequences

  function Max(a: int, b: int): int { if a < b then b else a }

  /** `peak` is one of the values and none is higher. */
  ghost predicate IsPeak(peak: nat, seen: seq<nat>) {
    peak in seen && forall v :: v in seen ==> v <= peak
  }

  lemma OneMoreSeen(peak: nat, seen: seq<nat>, now: nat)
    requires IsPeak(peak, seen)
    ensures IsPeak(Max(peak, now), seen + [now])
  {
    assert now in seen + [now] && peak in seen + [now];
  }

  /**
   * The counters, the sizes of the blocks callers hold, and every value `current` took since the
   * peak was last reset.
   */
  class PeakAlloc {
    var current: nat
    var peak: nat
    ghost var owned: seq<nat>
    ghost var seen: seq<nat>

    ghost predicate Valid()
      reads this
    {
      && current == SumOf(Itself, owned)
      && seen != [] && seen[|seen| - 1] == current && IsPeak(peak, seen)
    }

    constructor ()
      ensures Valid() && owned == [] && seen == [0]
    {
      current := 0;
      peak := 0;
      owned := [];
      seen := [0];
    }

    /** From here on the peak is that of the work that follows. */
    method ResetPeak()
      requires Valid()
      modifies this`peak, this`seen
      ensures Valid() && seen == [current]
    {
      peak := current;
      seen := [current];
    }

    method Add(bytes: nat)
      requires IsPeak(peak, seen)
      modifies this`current, this`peak, this`seen
      ensures current == old(current) + bytes
      ensures seen == old(seen) + [current] && IsPeak(peak, seen)
    {
      var now := current + bytes;
      current := now;
      OneMoreSeen(peak, seen, now);
      peak := Max(peak, now);
      seen := seen + [now];
    }

    method Sub(bytes: nat)
      requires bytes <= current && current in seen && IsPeak(peak, seen)
      modifies this`current, this`seen
      ensures current == old(current) - bytes
      ensures seen == old(seen) + [current] && IsPeak(peak, seen)
    {
      OneMoreSeen(peak, seen, current - bytes);
      current := current - bytes;
      seen := seen + [current];
    }

    /** `alloc` and `alloc_zeroed`: nothing is counted when the system has no block. */
    method Alloc(size: nat, systemHasIt: bool)
      requires Valid()
      modifies this
      ensures Valid()
      ensures owned == if systemHasIt then old(owned) + [size] else old(owned)
      ensures seen == if systemHasIt then old(seen) + [old(current) + size] else old(seen)
    {
      if systemHasIt {
        SumAppend(Itself, owned, size);
        owned := owned + [size];
        Add(size);
      }
    }

    method Dealloc(ghost block: nat, size: nat)
      requires Valid() && block < |owned| && owned[block] == size
      modifies this
      ensures Valid()
      ensures owned == old(owned)[..block] + old(owned)[block + 1..]
      ensures seen == old(seen) + [current]
    {
      SumRemove(Itself, owned, block);
      owned := owned[..block] + owned[block + 1..];
      Sub(size);
    }

    /** A block that could not be resized stays as it was; otherwise its old size goes first. */
    method Realloc(ghost block: nat, size: nat, newSize: nat, systemHasIt: bool)
      requires Valid() && block < |owned| && owned[block] == size
      modifies this
      ensures Valid()
      ensures owned == if systemHasIt then old(owned)[block := newSize] else old(owned)
      ensures seen == if systemHasIt then old(seen) + [old(current) - size, current] else old(seen)
    {
      if systemHasIt {
        SumUpdate(Itself, owned, block, newSize);
        SumRemove(Itself, owned, block);
        owned := owned[block := newSize];
        Sub(size);
        Add(newSize);
      }
    }
  }

  // ---------------------------------------------------------------------------------------------
  // Many threads: every operation in its atomic steps
  // ---------------------------------------------------------------------------------------------

  datatype Doing =
    | Idle
    | Adding(bytes: nat)             // the system gave a block, `fetch_add` comes next
    | Raising(bytes: nat, now: int)  // `fetch_add` gave `now`, `fetch_max` comes next
    | Subtracting(bytes: nat)        // the system took a block back, `fetch_sub` comes next
    | Resizing(oldBytes: nat, newBytes: nat) // the system resized a block, `fetch_sub` comes next, then adding
    | Resetting(value: int)          // `reset_peak` read `value`, the store comes next

  /** `owned` are the sizes of the blocks in callers' hands. */
  datatype State = State(current: int, peak: int, owned: seq<nat>, threads: seq<Doing>)

  datatype Action =
    | Allocate(thread: nat, bytes: nat)
    | Free(thread: nat, block: nat)
    | Resize(thread: nat, block: nat, bytes: nat)
    | FetchAdd(thread: nat)
    | FetchMax(thread: nat)
    | FetchSub(thread: nat)
    | Load(thread: nat)
    | Store(thread: nat)

  predicate Enabled(s: State, a: Action) {
    && a.thread < |s.threads|
    && var d := s.threads[a.thread];
       match a
       case Allocate(_, _) => d.Idle?
       case Free(_, block) => d.Idle? && block < |s.owned|
       case Resize(_, block, _) => d.Idle? && block < |s.owned|
       case FetchAdd(_) => d.Adding?
       case FetchMax(_) => d.Raising?
       case FetchSub(_) => d.Subtracting? || d.Resizing?
       case Load(_) => d.Idle?
       case Store(_) => d.Resetting?
  }

  function Without(owned: seq<nat>, block: nat): seq<nat>
    requires block < |owned|
  {
    owned[..block] + owned[block + 1..]
  }

  function Becomes(s: State, i: nat, d: Doing): State
    requires i < |s.threads|
  {
    s.(threads := s.threads[i := d])
  }

  /** A block is the caller's from the end of its allocation to the start of its release. */
  function After(s: State, a: Action): State
    requires Enabled(s, a)
  {
    var d := s.threads[a.thread];
    match a
    case Allocate(i, bytes) => Becomes(s, i, Adding(bytes))
    case Free(i, block) => Becomes(s, i, Subtracting(s.owned[block])).(owned := Without(s.owned, block))
    case Resize(i, block, bytes) => Becomes(s, i, Resizing(s.owned[block], bytes)).(owned := Without(s.owned, block))
    case FetchAdd(i) => Becomes(s, i, Raising(d.bytes, s.current + d.bytes)).(current := s.current + d.bytes)
    case FetchMax(i) => Becomes(s, i, Idle).(peak := Max(s.peak, d.now), owned := s.owned + [d.bytes])
    case FetchSub(i) =>
      if d.Subtracting? then Becomes(s, i, Idle).(current := s.current - d.bytes)
      else Becomes(s, i, Adding(d.newBytes)).(current := s.current - d.oldBytes)
    case Load(i) => Becomes(s, i, Resetting(s.current))
    case Store(i) => Becomes(s, i, Idle).(peak := d.value)
  }

  ghost predicate Quiet(s: State) {
    forall i :: 0 <= i < |s.threads| ==> s.threads[i].Idle?
  }

  ghost predicate Init(s: State) {
    s.current == s.peak == 0 && s.owned == [] && Quiet(s)
  }

  ghost predicate StepAt(states: seq<State>, actions: seq<Action>, t: nat)
    requires t < |actions| && |states| == |actions| + 1
  {
    Enabled(states[t], actions[t]) && states[t + 1] == After(states[t], actions[t])
  }

  ghost predicate IsRun(states: seq<State>, actions: seq<Action>) {
    && |states| == |actions| + 1 && Init(states[0])
    && forall t :: 0 <= t < |actions| ==> StepAt(states, actions, t)
  }

  // ---------------------------------------------------------------------------------------------
  // One operation alone
  // ---------------------------------------------------------------------------------------------

  lemma StepsBack(s: State, i: nat, d: Doing)
    requires i < |s.threads|
    ensures s.threads[i := d][i := s.threads[i]] == s.threads
  {
  }

  /** An allocation alone: counted, put to the peak, then the caller's. */
  lemma AllocateAlone(s: State, i: nat, bytes: nat)
    requires Enabled(s, Allocate(i, bytes))
    ensures var s1 := After(s, Allocate(i, bytes));
      && s1.current == s.current && s1.peak == s.peak && Enabled(s1, FetchAdd(i))
      && var s2 := After(s1, FetchAdd(i));
         && s2.current == s.current + bytes && s2.peak == s.peak && Enabled(s2, FetchMax(i))
         && After(s2, FetchMax(i)) == State(s.current + bytes,
              if s.peak < s.current + bytes then s.current + bytes else s.peak, s.owned + [bytes], s.threads)
  {
    StepsBack(s, i, Adding(bytes));
  }

  /** A release alone: no longer the caller's, then taken off; the peak stays. */
  lemma FreeAlone(s: State, i: nat, block: nat)
    requires Enabled(s, Free(i, block))
    ensures var s1 := After(s, Free(i, block));
      && s1.current == s.current && s1.peak == s.peak && Enabled(s1, FetchSub(i))
      && After(s1, FetchSub(i)) == State(s.current - s.owned[block], s.peak,
           s.owned[..block] + s.owned[block + 1..], s.threads)
  {
    StepsBack(s, i, Subtracting(s.owned[block]));
  }

  /** A resizing alone: the old size is taken off before the new one is added. */
  lemma ResizeAlone(s: State, i: nat, block: nat, bytes: nat)
    requires Enabled(s, Resize(i, block, bytes))
    ensures var s1, less := After(s, Resize(i, block, bytes)), s.current - s.owned[block];
      && s1.current == s.current && s1.peak == s.peak && Enabled(s1, FetchSub(i))
      && var s2 := After(s1, FetchSub(i));
         && s2.current == less && s2.peak == s.peak && Enabled(s2, FetchAdd(i))
         && var s3 := After(s2, FetchAdd(i));
            && s3.current == less + bytes && s3.peak == s.peak && Enabled(s3, FetchMax(i))
            && After(s3, FetchMax(i)) == State(less + bytes,
                 if s.peak < less + bytes then less + bytes else s.peak,
                 s.owned[..block] + s.owned[block + 1..] + [bytes], s.threads)
  {
    StepsBack(s, i, Resizing(s.owned[block], bytes));
  }

  /** A reset alone: the peak becomes the current size. */
  lemma ResetAlone(s: State, i: nat)
    requires Enabled(s, Load(i))
    ensures Enabled(After(s, Load(i)), Store(i))
    ensures After(After(s, Load(i)), Store(i)) == State(s.current, s.current, s.owned, s.threads)
  {
    StepsBack(s, i, Resetting(s.current));
  }

  // ---------------------------------------------------------------------------------------------
  // The counter
  // ---------------------------------------------------------------------------------------------

  /** What an operation under way has put on the counter, or has yet to take off. */
  function Charged(d: Doing): nat {
    match d
    case Raising(bytes, _) => bytes
    case Subtracting(bytes) => bytes
    case Resizing(o, _) => o
    case _ => 0
  }

  /** The live bytes of a block an operation under way has from the system. */
  function Held(d: Doing): nat {
    match d
    case Adding(bytes) => bytes
    case Raising(bytes, _) => bytes
    case Resizing(_, n) => n
    case _ => 0
  }

  function ToAdd(d: Doing): nat {
    match d
    case Adding(bytes) => bytes
    case Resizing(_, n) => n
    case _ => 0
  }

  function ToSubtract(d: Doing): nat {
    match d
    case Subtracting(bytes) => bytes
    case Resizing(o, _) => o
    case _ => 0
  }

  /** The bytes the system has given out and not taken back. */
  function Live(s: State): nat { SumOf(Itself, s.owned) + SumOf(Held, s.threads) }

  ghost predicate Balanced(s: State) {
    s.current == SumOf(Itself, s.owned) + SumOf(Charged, s.threads)
  }

  lemma StepBalances(s: State, a: Action)
    requires Enabled(s, a) && Balanced(s)
    ensures Balanced(After(s, a))
  {
    hide SumOf;
    var t := After(s, a);
    SumUpdate(Charged, s.threads, a.thread, t.threads[a.thread]);
    match a {
      case Free(_, block) => SumRemove(Itself, s.owned, block);
      case Resize(_, block, _) => SumRemove(Itself, s.owned, block);
      case FetchMax(_) => SumAppend(Itself, s.owned, s.threads[a.thread].bytes);
      case _ =>
    }
  }

  lemma {:induction false} IdleSum(f: Doing -> nat, threads: seq<Doing>)
    requires f(Idle) == 0 && forall i :: 0 <= i < |threads| ==> threads[i].Idle?
    ensures SumOf(f, threads) == 0
  {
    if threads != [] {
      assert threads[0].Idle?;
      IdleSum(f, threads[1..]);
    }
  }

  lemma {:induction false} AlwaysBalanced(states: seq<State>, actions: seq<Action>, t: nat)
    requires IsRun(states, actions) && t < |states|
    ensures Balanced(states[t])
  {
    hide Balanced;
    if t == 0 {
      InitBalanced(states[0]);
    } else {
      AlwaysBalanced(states, actions, t - 1);
      assert StepAt(states, actions, t - 1);
      StepBalances(states[t - 1], actions[t - 1]);
    }
  }

  lemma InitBalanced(s: State)
    requires Init(s)
    ensures Balanced(s)
  {
    IdleSum(Charged, s.threads);
  }

  lemma {:induction false} ChargesAreAdjustments(threads: seq<Doing>)
    ensures SumOf(Charged, threads) + SumOf(ToAdd, threads) == SumOf(Held, threads) + SumOf(ToSubtract, threads)
  {
    if threads != [] {
      ChargesAreAdjustments(threads[1..]);
    }
  }

  /**
   * At every step the counter is the live bytes less those not yet added and plus those not yet
   * subtracted; it is never negative, and no `fetch_sub` takes more than it holds.
   */
  lemma CounterIsLiveAdjusted(states: seq<State>, actions: seq<Action>, t: nat)
    requires IsRun(states, actions) && t < |states|
    ensures var s := states[t];
      && s.current == Live(s) - SumOf(ToAdd, s.threads) + SumOf(ToSubtract, s.threads)
      && s.current >= 0
      && (forall i :: 0 <= i < |s.threads| ==> ToSubtract(s.threads[i]) <= s.current)
  {
    hide SumOf, IsRun;
    var s := states[t];
    AlwaysBalanced(states, actions, t);
    ChargesAreAdjustments(s.threads);
    forall i | 0 <= i < |s.threads| ensures ToSubtract(s.threads[i]) <= s.current {
      SumRemove(Charged, s.threads, i);
    }
  }

  /** When no operation is under way the counter is the live bytes, all of them in callers' hands. */
  lemma QuietCounterIsExact(states: seq<State>, actions: seq<Action>, t: nat)
    requires IsRun(states, actions) && t < |states| && Quiet(states[t])
    ensures states[t].current == Live(states[t]) == SumOf(Itself, states[t].owned)
  {
    hide SumOf, IsRun;
    AlwaysBalanced(states, actions, t);
    IdleSum(Charged, states[t].threads);
    IdleSum(Held, states[t].threads);
  }

  // ---------------------------------------------------------------------------------------------
  // The peak
  // ---------------------------------------------------------------------------------------------

  /** The highest value the counter took from state `from` to state `to`. */
  function Highest(states: seq<State>, from: nat, to: nat): int
    requires from <= to < |states|
  {
    if from == to then states[from].current else Max(Highest(states, from, to - 1), states[to].current)
  }

  /** It is one of the values, and none is higher. */
  lemma {:induction false} HighestIsMaximum(states: seq<State>, from: nat, to: nat) returns (top: nat)
    requires from <= to < |states|
    ensures from <= top <= to && states[top].current == Highest(states, from, to)
    ensures forall t :: from <= t <= to ==> states[t].current <= Highest(states, from, to)
  {
    top := to;
    if from < to {
      var before := HighestIsMaximum(states, from, to - 1);
      if states[to].current < states[before].current {
        top := before;
      }
    }
  }

  predicate IsRaise(states: seq<State>, actions: seq<Action>, t: int)
    requires |states| == |actions| + 1
  {
    && 0 <= t < |actions| && actions[t].FetchMax? && actions[t].thread < |states[t].threads|
    && states[t].threads[actions[t].thread].Raising?
  }

  /** Step `t` is a `fetch_max` with `n`. */
  predicate Raises(states: seq<State>, actions: seq<Action>, t: int, n: int)
    requires |states| == |actions| + 1
  {
    IsRaise(states, actions, t) && states[t].threads[actions[t].thread].now == n
  }

  /** The thread of step `t` has stepped since step `from`, so what it now does it began since. */
  ghost predicate Begun(actions: seq<Action>, from: nat, t: int)
    requires 0 <= t < |actions|
  {
    exists k :: from <= k < t && actions[k].thread == actions[t].thread
  }

  /** The value stored last, raised by every `fetch_max` from step `from` on. */
  function Put(states: seq<State>, actions: seq<Action>, stored: int, from: nat, to: nat): int
    requires |states| == |actions| + 1 && from <= to <= |actions|
  {
    if from == to then stored
    else
      var before := Put(states, actions, stored, from, to - 1);
      if !IsRaise(states, actions, to - 1) then before
      else Max(before, states[to - 1].threads[actions[to - 1].thread].now)
  }

  /** It is at least all of these, and one of them. */
  lemma {:induction false} PutIsMaximum(states: seq<State>, actions: seq<Action>, stored: int, from: nat, to: nat)
    requires |states| == |actions| + 1 && from <= to <= |actions|
    ensures stored <= Put(states, actions, stored, from, to)
    ensures forall t, n :: from <= t < to && Raises(states, actions, t, n) ==>
      n <= Put(states, actions, stored, from, to)
    ensures Put(states, actions, stored, from, to) == stored
      || exists t :: from <= t < to && Raises(states, actions, t, Put(states, actions, stored, from, to))
  {
    if from < to {
      PutIsMaximum(states, actions, stored, from, to - 1);
      var before, now := Put(states, actions, stored, from, to - 1), Put(states, actions, stored, from, to);
      if now == before {
        if before != stored {
          var t :| from <= t < to - 1 && Raises(states, actions, t, before);
        }
      } else {
        LastRaises(states, actions, stored, from, to);
      }
    }
  }

  lemma LastRaises(states: seq<State>, actions: seq<Action>, stored: int, from: nat, to: nat)
    requires |states| == |actions| + 1 && from < to <= |actions|
    requires Put(states, actions, stored, from, to) != Put(states, actions, stored, from, to - 1)
    ensures Raises(states, actions, to - 1, Put(states, actions, stored, from, to))
  {
  }

  /** From a store on, as long as no other follows, the peak is what has been put there. */
  lemma {:induction false} PeakIsPut(states: seq<State>, actions: seq<Action>, from: nat, to: nat)
    requires |states| == |actions| + 1 && from <= to <= |actions|
    requires forall t :: from <= t < to ==> StepAt(states, actions, t) && !actions[t].Store?
    ensures states[to].peak == Put(states, actions, states[from].peak, from, to)
  {
    if from < to {
      PeakIsPut(states, actions, from, to - 1);
      assert StepAt(states, actions, to - 1);
    }
  }

  /** An allocation of thread `i` that began since step `from` is between its two updates, at `n`. */
  ghost predicate Pending(states: seq<State>, actions: seq<Action>, from: nat, t: nat, i: nat, n: int)
    requires t < |states| == |actions| + 1
  {
    && i < |states[t].threads| && states[t].threads[i].Raising? && states[t].threads[i].now == n
    && exists k :: from <= k < t && actions[k].thread == i
  }

  /** An allocation that began since step `from` has completed, with `n`. */
  ghost predicate Completed(states: seq<State>, actions: seq<Action>, from: nat, t: nat, n: int)
    requires t < |states| == |actions| + 1
  {
    exists k :: from <= k < t && Raises(states, actions, k, n) && Begun(actions, from, k)
  }

  /** The highest value since step `from` was there then, or some allocation begun since put it up. */
  ghost predicate Explained(states: seq<State>, actions: seq<Action>, from: nat, t: nat)
    requires from <= t < |states| == |actions| + 1
  {
    var h := Highest(states, from, t);
    && (h == states[from].current || Completed(states, actions, from, t, h)
        || exists i :: Pending(states, actions, from, t, i, h))
    && (forall n :: Completed(states, actions, from, t, n) ==> n <= h)
    && (forall i, n :: Pending(states, actions, from, t, i, n) ==> n <= h)
  }

  lemma CompletedNext(states: seq<State>, actions: seq<Action>, from: nat, t: nat, n: int)
    requires |states| == |actions| + 1 && from <= t < |actions| && StepAt(states, actions, t)
    ensures Completed(states, actions, from, t + 1, n)
       <==> Completed(states, actions, from, t, n)
            || (actions[t].FetchMax? && Pending(states, actions, from, t, actions[t].thread, n))
  {
    if Completed(states, actions, from, t + 1, n) && !Completed(states, actions, from, t, n) {
      assert Raises(states, actions, t, n) && Begun(actions, from, t);
    }
    if actions[t].FetchMax? && Pending(states, actions, from, t, actions[t].thread, n) {
      assert Raises(states, actions, t, n) && Begun(actions, from, t);
    }
  }

  lemma PendingNext(states: seq<State>, actions: seq<Action>, from: nat, t: nat, i: nat, n: int)
    requires |states| == |actions| + 1 && from <= t < |actions| && StepAt(states, actions, t)
    ensures Pending(states, actions, from, t + 1, i, n)
       <==> if i == actions[t].thread then actions[t].FetchAdd? && n == states[t + 1].current
            else Pending(states, actions, from, t, i, n)
  {
    if i == actions[t].thread {
      assert from <= t < t + 1 && actions[t].thread == i;
    } else if Pending(states, actions, from, t + 1, i, n) {
      var k :| from <= k < t + 1 && actions[k].thread == i;
      assert k < t;
    }
  }

  lemma NothingYet(states: seq<State>, actions: seq<Action>, from: nat)
    requires |states| == |actions| + 1 && from < |states|
    ensures Explained(states, actions, from, from)
  {
  }

  lemma ExplainedNext(states: seq<State>, actions: seq<Action>, from: nat, t: nat)
    requires |states| == |actions| + 1 && from <= t < |actions| && StepAt(states, actions, t)
    requires Explained(states, actions, from, t)
    ensures Explained(states, actions, from, t + 1)
  {
    hide Pending, Completed, Raises;
    var next := t + 1;
    var h, h', i := Highest(states, from, t), Highest(states, from, next), actions[t].thread;
    var now := states[t + 1].current;
    assert h' == Max(h, now);
    assert now > states[t].current ==> actions[t].FetchAdd? by { OnlyAddsRaise(states, actions, t); }
    HighestIsAtLeast(states, from, t);
    forall n | Completed(states, actions, from, next, n) ensures n <= h' {
      CompletedNext(states, actions, from, t, n);
    }
    forall j: nat, n | Pending(states, actions, from, next, j, n) ensures n <= h' {
      PendingNext(states, actions, from, t, j, n);
    }
    if h' > h {
      PendingNext(states, actions, from, t, i, h');
    } else if Completed(states, actions, from, t, h) {
      CompletedNext(states, actions, from, t, h);
    } else if h != states[from].current {
      var j :| Pending(states, actions, from, t, j, h);
      if j != i {
        PendingNext(states, actions, from, t, j, h);
      } else {
        PendingMeans(states, actions, from, t, i, h);
        CompletedNext(states, actions, from, t, h);
      }
    }
  }

  lemma PendingMeans(states: seq<State>, actions: seq<Action>, from: nat, t: nat, i: nat, n: int)
    requires t < |states| == |actions| + 1 && t < |actions| && actions[t].thread == i
    requires Enabled(states[t], actions[t]) && Pending(states, actions, from, t, i, n)
    ensures actions[t].FetchMax?
  {
  }

  lemma OnlyAddsRaise(states: seq<State>, actions: seq<Action>, t: nat)
    requires |states| == |actions| + 1 && t < |actions| && StepAt(states, actions, t)
    ensures states[t + 1].current > states[t].current ==> actions[t].FetchAdd?
  {
  }

  lemma HighestIsAtLeast(states: seq<State>, from: nat, t: nat)
    requires from <= t < |states|
    ensures states[t].current <= Highest(states, from, t)
  {
  }

  lemma {:induction false} AlwaysExplained(states: seq<State>, actions: seq<Action>, from: nat, t: nat)
    requires IsRun(states, actions) && from <= t < |states|
    ensures Explained(states, actions, from, t)
  {
    hide Explained;
    if from == t {
      NothingYet(states, actions, from);
    } else {
      AlwaysExplained(states, actions, from, t - 1);
      assert StepAt(states, actions, t - 1);
      ExplainedNext(states, actions, from, t - 1);
    }
  }

  /** When quiet, every allocation that began since step `from` has completed. */
  lemma QuietExplained(states: seq<State>, actions: seq<Action>, from: nat, to: nat)
    requires IsRun(states, actions) && from <= to < |states| && Quiet(states[to])
    ensures var h := Highest(states, from, to);
      && states[from].current <= h
      && (h == states[from].current || Completed(states, actions, from, to, h))
      && (forall n :: Completed(states, actions, from, to, n) ==> n <= h)
  {
    hide Completed, IsRun;
    AlwaysExplained(states, actions, from, to);
    var top := HighestIsMaximum(states, from, to);
  }

  /** Without any store, a quiet allocator's peak is the highest value its counter ever took. */
  lemma PeakWithoutReset(states: seq<State>, actions: seq<Action>, to: nat)
    requires IsRun(states, actions) && to < |states| && Quiet(states[to])
    requires forall t :: 0 <= t < to ==> !actions[t].Store?
    ensures states[to].peak == Highest(states, 0, to)
  {
    hide Quiet, Completed, Put, Raises, Begun;
    PeakIsPut(states, actions, 0, to);
    PutIsMaximum(states, actions, 0, 0, to);
    QuietExplained(states, actions, 0, to);
    var h, put := Highest(states, 0, to), Put(states, actions, 0, 0, to);
    if Completed(states, actions, 0, to, h) {
      var t := CompletedAt(states, actions, 0, to, h);
    }
    if put != 0 {
      var t :| 0 <= t < to && Raises(states, actions, t, put);
      RaiseWasAdded(states, actions, t, put);
      CompletedBy(states, actions, 0, to, t, put);
    }
  }

  lemma CompletedAt(states: seq<State>, actions: seq<Action>, from: nat, to: nat, n: int) returns (t: nat)
    requires to < |states| == |actions| + 1 && Completed(states, actions, from, to, n)
    ensures from <= t < to && Raises(states, actions, t, n) && Begun(actions, from, t)
  {
    t :| from <= t < to && Raises(states, actions, t, n) && Begun(actions, from, t);
  }

  lemma CompletedBy(states: seq<State>, actions: seq<Action>, from: nat, to: nat, t: nat, n: int)
    requires from <= t < to < |states| == |actions| + 1 && Raises(states, actions, t, n) && Begun(actions, from, t)
    ensures Completed(states, actions, from, to, n)
  {
  }

  /** A thread that has not stepped since the start is idle, so it is not the one to raise. */
  lemma RaiseWasAdded(states: seq<State>, actions: seq<Action>, t: nat, n: int)
    requires IsRun(states, actions) && t < |actions| && Raises(states, actions, t, n)
    ensures Begun(actions, 0, t)
  {
    if !Begun(actions, 0, t) {
      Untouched(states, actions, 0, t, actions[t].thread);
      assert false;
    }
  }

  lemma {:induction false} Untouched(states: seq<State>, actions: seq<Action>, from: nat, t: nat, i: nat)
    requires IsRun(states, actions) && from <= t < |states| && i < |states[t].threads|
    requires forall k :: from <= k < t ==> actions[k].thread != i
    ensures |states[from].threads| == |states[t].threads| && states[from].threads[i] == states[t].threads[i]
  {
    if from < t {
      assert StepAt(states, actions, t - 1);
      Untouched(states, actions, from, t - 1, i);
    }
  }

  /**
   * Steps `load` and `store` are the two steps of one thread's `reset_peak`, and no other reset
   * stores between `store` and state `to`: to a reader of state `to` this is the last reset.
   */
  ghost predicate LastReset(actions: seq<Action>, load: nat, store: nat, to: nat) {
    && load < store < to <= |actions|
    && actions[load].Load? && actions[store] == Store(actions[load].thread)
    && (forall t :: load < t < store ==> actions[t].thread != actions[load].thread)
    && (forall t :: store < t < to ==> !actions[t].Store?)
  }

  lemma StoresWhatItLoaded(states: seq<State>, actions: seq<Action>, load: nat, store: nat, to: nat)
    requires IsRun(states, actions) && LastReset(actions, load, store, to)
    ensures states[store + 1].peak == states[load].current
  {
    assert StepAt(states, actions, load) && StepAt(states, actions, store);
    Untouched(states, actions, load + 1, store, actions[load].thread);
  }

  /** What the last reset and the raises after it put to the peak. */
  function PutSince(states: seq<State>, actions: seq<Action>, load: nat, store: nat, to: nat): int
    requires |states| == |actions| + 1 && load < store < to <= |actions|
  {
    Put(states, actions, states[load].current, store + 1, to)
  }

  /** An allocation that began and completed while the reset was under way put up `n`. */
  ghost predicate Missed(states: seq<State>, actions: seq<Action>, load: nat, store: nat, n: int)
    requires |states| == |actions| + 1
  {
    exists t :: load < t < store && Raises(states, actions, t, n) && Begun(actions, load, t)
  }

  /** A raise that was outstanding when the reset read landed after it stored, with `n`. */
  ghost predicate Stale(states: seq<State>, actions: seq<Action>, load: nat, store: nat, to: nat, n: int)
    requires |states| == |actions| + 1
  {
    exists t :: store < t < to && Raises(states, actions, t, n) && !Begun(actions, load, t)
  }

  /** Completed allocations are those that completed during the reset and those after it. */
  lemma CompletedWhen(states: seq<State>, actions: seq<Action>, load: nat, store: nat, to: nat, n: int)
    requires |states| == |actions| + 1 && LastReset(actions, load, store, to)
    ensures Completed(states, actions, load, to, n)
       <==> Missed(states, actions, load, store, n)
            || exists t :: store < t < to && Raises(states, actions, t, n) && Begun(actions, load, t)
  {
    if Completed(states, actions, load, to, n) {
      var t := CompletedAt(states, actions, load, to, n);
      assert t != load && t != store;
    }
  }

  /**
   * The peak is what the last reset and the raises after it put there. When quiet it is the highest
   * value the counter took since that reset if and only if no allocation that began and completed
   * during the reset went above what was put, and no raise outstanding at the reset's read that
   * landed after its store went above what the counter took since.
   */
  lemma PeakExactly(states: seq<State>, actions: seq<Action>, load: nat, store: nat, to: nat)
    requires IsRun(states, actions) && LastReset(actions, load, store, to) && Quiet(states[to])
    ensures states[to].peak == PutSince(states, actions, load, store, to)
    ensures states[to].peak == Highest(states, load, to)
       <==> (forall n :: Missed(states, actions, load, store, n) ==> n <= PutSince(states, actions, load, store, to))
            && (forall n :: Stale(states, actions, load, store, to, n) ==> n <= Highest(states, load, to))
  {
    hide Put, Raises, Begun, Quiet, Completed, Missed, Stale, Enabled;
    StoresWhatItLoaded(states, actions, load, store, to);
    PeakIsPut(states, actions, store + 1, to);
    PutIsMaximum(states, actions, states[load].current, store + 1, to);
    QuietExplained(states, actions, load, to);
    var h, put := Highest(states, load, to), PutSince(states, actions, load, store, to);
    forall n | Missed(states, actions, load, store, n) ensures n <= h {
      CompletedWhen(states, actions, load, store, to, n);
    }
    StaleIsPut(states, actions, load, store, to);
    CompletedWhen(states, actions, load, store, to, h);
    if put > h {
      var t :| store < t < to && Raises(states, actions, t, put);
      CompletedWhen(states, actions, load, store, to, put);
      StaleAt(states, actions, load, store, to, t, put);
    }
  }

  lemma StaleAt(states: seq<State>, actions: seq<Action>, load: nat, store: nat, to: nat, t: nat, n: int)
    requires |states| == |actions| + 1 && store < t < to <= |actions| && Raises(states, actions, t, n)
    ensures Begun(actions, load, t) || Stale(states, actions, load, store, to, n)
  {
  }

  lemma StaleIsPut(states: seq<State>, actions: seq<Action>, load: nat, store: nat, to: nat)
    requires IsRun(states, actions) && LastReset(actions, load, store, to)
    ensures forall n :: Stale(states, actions, load, store, to, n) ==> n <= PutSince(states, actions, load, store, to)
  {
    hide Put, Raises, Begun, Enabled;
    PutIsMaximum(states, actions, states[load].current, store + 1, to);
  }

  /**
   * So the peak is right after a reset that reads while no `fetch_max` is outstanding and during
   * which no allocation completes.
   */
  lemma PeakSinceReset(states: seq<State>, actions: seq<Action>, load: nat, store: nat, to: nat)
    requires IsRun(states, actions) && LastReset(actions, load, store, to) && Quiet(states[to])
    requires forall i :: 0 <= i < |states[load].threads| ==> !states[load].threads[i].Raising?
    requires forall t :: load < t < store ==> !actions[t].FetchMax?
    ensures states[to].peak == Highest(states, load, to)
  {
    hide Quiet, Enabled;
    PeakExactly(states, actions, load, store, to);
    forall t, n | store < t < to && Raises(states, actions, t, n) ensures Begun(actions, load, t) {
      if !Begun(actions, load, t) {
        Untouched(states, actions, load, t, actions[t].thread);
        assert false;
      }
    }
  }

  lemma Extend(states: seq<State>, actions: seq<Action>, a: Action) returns (longer: seq<State>, more: seq<Action>)
    requires IsRun(states, actions) && Enabled(states[|actions|], a)
    ensures more == actions + [a] && |longer| == |states| + 1 && longer[..|states|] == states
    ensures forall t :: 0 <= t < |states| ==> longer[t] == states[t]
    ensures IsRun(longer, more) && longer[|more|] == After(states[|actions|], a)
  {
    hide Enabled, After, Init;
    longer, more := states + [After(states[|actions|], a)], actions + [a];
    forall t | 0 <= t < |more| ensures StepAt(longer, more, t) {
      if t < |actions| {
        assert StepAt(states, actions, t);
      }
    }
  }

  /** An allocation is between its two updates, and its bytes and more have gone since, as a reset reads. */
  lemma OutstandingRaise() returns (states: seq<State>, actions: seq<Action>)
    ensures IsRun(states, actions)
    ensures actions == [Allocate(0, 8), FetchAdd(0), FetchMax(0), Allocate(0, 100), FetchAdd(0),
                        Free(1, 0), FetchSub(1)]
    ensures |states| == 8 && states[7] == State(100, 8, [], [Raising(100, 108), Idle])
  {
    states, actions := OneAllocation();
    hide IsRun;
    states, actions := Extend(states, actions, Allocate(0, 100));
    states, actions := Extend(states, actions, FetchAdd(0));
    assert states[5] == State(108, 8, [8], [Raising(100, 108), Idle]);
    states, actions := Extend(states, actions, Free(1, 0));
    states, actions := Extend(states, actions, FetchSub(1));
  }

  lemma OneAllocation() returns (states: seq<State>, actions: seq<Action>)
    ensures IsRun(states, actions) && actions == [Allocate(0, 8), FetchAdd(0), FetchMax(0)]
    ensures |states| == 4 && states[3] == State(8, 8, [8], [Idle, Idle])
  {
    states, actions := [State(0, 0, [], [Idle, Idle])], [];
    states, actions := Extend(states, actions, Allocate(0, 8));
    hide IsRun;
    states, actions := Extend(states, actions, FetchAdd(0));
    states, actions := Extend(states, actions, FetchMax(0));
  }

  /** A raise outstanding at a reset can leave a peak that the counter has not reached since. */
  lemma StaleRaiseOverstatesThePeak() returns (states: seq<State>, actions: seq<Action>)
    ensures IsRun(states, actions) && |actions| == 10 && Quiet(states[10]) && LastReset(actions, 7, 8, 10)
    ensures states[10].peak == 108 && Highest(states, 7, 10) == 100
  {
    hide IsRun;
    states, actions := OutstandingRaise();
    states, actions := Extend(states, actions, Load(1));
    assert states[8] == State(100, 8, [], [Raising(100, 108), Resetting(100)]);
    states, actions := Extend(states, actions, Store(1));
    assert states[9] == State(100, 100, [], [Raising(100, 108), Idle]);
    states, actions := Extend(states, actions, FetchMax(0));
    assert states[10] == State(100, 108, [100], [Idle, Idle]);
    assert states[7].current == states[8].current == states[9].current == 100;
    assert Highest(states, 7, 8) == 100;
  }

  /** A reset that an allocation slips into can leave the peak below the counter itself. */
  lemma OverlappedResetLosesThePeak() returns (states: seq<State>, actions: seq<Action>)
    ensures IsRun(states, actions) && Quiet(states[|actions|])
    ensures |actions| == 5 && actions[0] == Load(1) && actions[4] == Store(1)
    ensures states[|actions|].peak < states[|actions|].current
  {
    actions := [Load(1), Allocate(0, 8), FetchAdd(0), FetchMax(0), Store(1)];
    var s0 := State(0, 0, [], [Idle, Idle]);
    var s1 := After(s0, actions[0]);
    var s2 := After(s1, actions[1]);
    var s3 := After(s2, actions[2]);
    var s4 := After(s3, actions[3]);
    var s5 := After(s4, actions[4]);
    states := [s0, s1, s2, s3, s4, s5];
    assert s5.threads == [Idle, Idle];
    assert StepAt(states, actions, 0) && StepAt(states, actions, 1) && StepAt(states, actions, 2)
        && StepAt(states, actions, 3) && StepAt(states, actions, 4);
  }
}
