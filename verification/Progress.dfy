/**
 * The progress counter: one shared atomic counter, and a lock that lets at most one line through
 * per interval.
 */
module ProgressLines {
  import opened Sequences
  import opened Trie

  /**
   * A line: when it was let through, the number of entries it reports, and, for the proofs, how
   * many batches had been counted when its caller counted.
   */
  datatype Line = Line(at: nat, walked: nat, order: nat)

  /** The counter is a 64-bit word and wraps. */
  function Counted(walked: nat, entries: nat): nat { (walked + entries) % TWO_TO_THE_64 }

  /**
   * One caller at a time. `checked` and `stored` are the clock at its two readings under the lock.
   * The rate of a count of zero is not finite, and a duration cannot be scaled by it: the caller
   * panics with the lock held, which poisons the lock for all callers after it.
   */
  class ProgressSink {
    const started: nat
    const interval: nat
    var walked: nat
    var lastLog: nat
    var poisoned: bool
    ghost var log: seq<Line>
    ghost var batches: seq<nat>

    ghost predicate Valid()
      reads this
    {
      && walked == SumOf(Itself, batches) % TWO_TO_THE_64
      && Spaced(started, interval, log)
      && (!poisoned ==> lastLog == LastAt(started, log))
    }

    constructor (now: nat, interval: nat)
      ensures Valid() && !poisoned && batches == [] && log == []
    {
      started := now;
      this.interval := interval;
      walked := 0;
      lastLog := now;
      poisoned := false;
      log := [];
      batches := [];
    }

    /** `Ok` has the count logged, if the call is let through; `Err` is a panic. */
    method OnProgress(entries: nat, checked: nat, stored: nat) returns (r: Outcome<Option<nat>>)
      requires Valid() && lastLog <= checked <= stored
      modifies this
      ensures Valid()
      ensures batches == if entries == 0 then old(batches) else old(batches) + [entries]
      ensures r == if entries == 0 then Ok(None)
                   else if old(poisoned) then Err
                   else if checked - old(lastLog) < interval then Ok(None)
                   else if SumOf(Itself, batches) % TWO_TO_THE_64 == 0 then Err
                   else Ok(Some(SumOf(Itself, batches) % TWO_TO_THE_64))
      ensures poisoned <==> old(poisoned) || r.Err?
      ensures log == if r.Ok? && r.value.Some? then old(log) + [Line(stored, r.value.value, |batches|)] else old(log)
    {
      if entries == 0 {
        return Ok(None);
      }
      SumAppend(Itself, batches, entries);
      CountedWraps(SumOf(Itself, batches), entries);
      walked := Counted(walked, entries);
      batches := batches + [entries];
      if poisoned {
        return Err;
      }
      if checked - lastLog < interval {
        return Ok(None);
      }
      OneMoreLine(started, interval, log, Line(stored, walked, |batches|));
      lastLog := stored;
      if walked == 0 {
        poisoned := true;
        return Err;
      }
      log := log + [Line(stored, walked, |batches|)];
      r := Ok(Some(walked));
    }
  }

  lemma CountedWraps(sum: nat, entries: nat)
    ensures Counted(sum % TWO_TO_THE_64, entries) == (sum + entries) % TWO_TO_THE_64
  {
    var q := sum / TWO_TO_THE_64;
    assert sum == q * TWO_TO_THE_64 + sum % TWO_TO_THE_64;
    AddWholeTurns(sum % TWO_TO_THE_64 + entries, q);
  }

  lemma {:induction false} AddWholeTurns(n: nat, turns: nat)
    ensures (n + turns * TWO_TO_THE_64) % TWO_TO_THE_64 == n % TWO_TO_THE_64
  {
    if turns > 0 {
      AddWholeTurns(n, turns - 1);
      OneTurn(n + (turns - 1) * TWO_TO_THE_64);
    }
  }

  lemma OneTurn(n: nat)
    ensures (n + TWO_TO_THE_64) % TWO_TO_THE_64 == n % TWO_TO_THE_64
  {
  }

  /** When the last line was let through; before the first one, when the build started. */
  function LastAt(started: nat, log: seq<Line>): nat {
    if log == [] then started else log[|log| - 1].at
  }

  /** An interval lies between any two successive lines, and before the first. */
  ghost predicate Spaced(started: nat, interval: nat, log: seq<Line>) {
    && (log != [] ==> started + interval <= log[0].at)
    && (forall n :: 0 < n < |log| ==> log[n - 1].at + interval <= log[n].at)
  }

  lemma OneMoreLine(started: nat, interval: nat, log: seq<Line>, line: Line)
    requires Spaced(started, interval, log) && LastAt(started, log) + interval <= line.at
    ensures Spaced(started, interval, log + [line])
  {
  }

  // ---------------------------------------------------------------------------------------------
  // Many callers: each call in its atomic steps
  // ---------------------------------------------------------------------------------------------

  datatype Caller =
    | Idle
    | Waiting(walked: nat, order: nat)    // counted, wants the lock
    | Checking(walked: nat, order: nat)   // holds the lock, reads the clock next
    | Storing(walked: nat, order: nat)    // an interval has passed, reads the clock again and stores it
    | Reporting(walked: nat, order: nat)  // logs the line and lets the lock go, or panics on a zero
    | Panicked                            // does no more

  /**
   * `todo` are the batches each caller has yet to report, `batches` those counted so far, in the
   * order of the atomic additions.
   */
  datatype State = State(
    clock: nat, walked: nat, lastLog: nat, lock: Option<nat>, poisoned: bool, callers: seq<Caller>,
    todo: seq<seq<nat>>, log: seq<Line>, batches: seq<nat>)

  datatype Action =
    | Tick(ticks: nat)
    | Skip(caller: nat)
    | Count(caller: nat)
    | Lock(caller: nat)
    | Check(caller: nat)
    | StoreNow(caller: nat)
    | Report(caller: nat)
    | Divide(caller: nat)
    | LockFails(caller: nat)

  predicate Is(s: State, i: nat) { i < |s.callers| && i < |s.todo| }

  /** A batch of no entries returns at once. */
  predicate Enabled(s: State, a: Action) {
    match a
    case Tick(_) => true
    case Skip(i) => Is(s, i) && s.callers[i].Idle? && s.todo[i] != [] && s.todo[i][0] == 0
    case Count(i) => Is(s, i) && s.callers[i].Idle? && s.todo[i] != [] && s.todo[i][0] > 0
    case Lock(i) => Is(s, i) && s.callers[i].Waiting? && s.lock.None? && !s.poisoned
    case Check(i) => Is(s, i) && s.callers[i].Checking?
    case StoreNow(i) => Is(s, i) && s.callers[i].Storing?
    case Report(i) => Is(s, i) && s.callers[i].Reporting? && s.callers[i].walked > 0
    // The panic in the division, and the panics of those who then find the lock poisoned.
    case Divide(i) => Is(s, i) && s.callers[i].Reporting? && s.callers[i].walked == 0
    case LockFails(i) => Is(s, i) && s.callers[i].Waiting? && s.lock.None? && s.poisoned
  }

  predicate InCall(c: Caller) { !c.Idle? && !c.Panicked? }

  function LineOf(s: State, c: Caller): Line
    requires InCall(c)
  {
    Line(s.lastLog, c.walked, c.order)
  }

  function After(interval: nat, s: State, a: Action): State
    requires Enabled(s, a)
  {
    match a
    case Tick(ticks) => s.(clock := s.clock + ticks)
    case Skip(i) => s.(todo := s.todo[i := s.todo[i][1..]])
    case Count(i) =>
      var walked := Counted(s.walked, s.todo[i][0]);
      s.(walked := walked, callers := s.callers[i := Waiting(walked, |s.batches| + 1)],
         todo := s.todo[i := s.todo[i][1..]], batches := s.batches + [s.todo[i][0]])
    case Lock(i) => s.(lock := Some(i), callers := s.callers[i := Checking(s.callers[i].walked, s.callers[i].order)])
    case Check(i) =>
      if s.clock - s.lastLog < interval then s.(lock := None, callers := s.callers[i := Idle])
      else s.(callers := s.callers[i := Storing(s.callers[i].walked, s.callers[i].order)])
    case StoreNow(i) =>
      s.(lastLog := s.clock, callers := s.callers[i := Reporting(s.callers[i].walked, s.callers[i].order)])
    case Report(i) =>
      s.(lock := None, callers := s.callers[i := Idle], log := s.log + [LineOf(s, s.callers[i])])
    case Divide(i) => s.(lock := None, poisoned := true, callers := s.callers[i := Panicked])
    case LockFails(i) => s.(callers := s.callers[i := Panicked])
  }

  /** A call that counts and gets the lock, alone: what it does follows from the clock and the count. */
  lemma CallAlone(interval: nat, s: State, i: nat)
    requires Enabled(s, Count(i)) && s.lock.None? && !s.poisoned
    ensures var s1, count := After(interval, s, Count(i)), (s.walked + s.todo[i][0]) % TWO_TO_THE_64;
      && s1.walked == count && Enabled(s1, Lock(i))
      && var s2 := After(interval, s1, Lock(i));
         && Enabled(s2, Check(i))
         && var s3 := After(interval, s2, Check(i));
            if s.clock - s.lastLog < interval then
              s3.callers[i] == Idle && s3.lock == None && s3.log == s.log && s3.lastLog == s.lastLog
            else
              && Enabled(s3, StoreNow(i))
              && var s4 := After(interval, s3, StoreNow(i));
                 && s4.lastLog == s.clock
                 && if count > 0 then
                      && Enabled(s4, Report(i))
                      && var s5 := After(interval, s4, Report(i));
                         s5.callers[i] == Idle && s5.lock == None
                         && s5.log == s.log + [Line(s.clock, count, |s.batches| + 1)]
                    else
                      && Enabled(s4, Divide(i))
                      && var s5 := After(interval, s4, Divide(i));
                         s5.callers[i] == Panicked && s5.poisoned && s5.log == s.log
  {
  }

  ghost predicate Init(started: nat, work: seq<seq<nat>>, s: State) {
    && s.clock == s.lastLog == started && s.walked == 0 && s.lock.None? && !s.poisoned
    && s.log == [] && s.batches == []
    && s.todo == work && |s.callers| == |work|
    && forall i :: 0 <= i < |s.callers| ==> s.callers[i].Idle?
  }

  ghost predicate Step(interval: nat, s: State, a: Action, t: State) {
    Enabled(s, a) && t == After(interval, s, a)
  }

  ghost predicate Next(interval: nat, s: State, t: State) {
    exists a :: Step(interval, s, a, t)
  }

  ghost predicate IsRun(started: nat, interval: nat, work: seq<seq<nat>>, run: seq<State>)
    ensures IsRun(started, interval, work, run) ==> run != []
  {
    && run != [] && Init(started, work, run[0])
    && forall n :: 0 < n < |run| ==> Next(interval, run[n - 1], run[n])
  }

  // ---------------------------------------------------------------------------------------------
  // The rate
  // ---------------------------------------------------------------------------------------------

  predicate HasLock(c: Caller) { c.Checking? || c.Storing? || c.Reporting? }

  ghost predicate LockHeld(s: State) {
    forall i :: 0 <= i < |s.callers| && HasLock(s.callers[i]) ==> s.lock == Some(i)
  }

  /** Let through, but the line not yet logged. */
  ghost predicate LineDue(s: State) {
    s.lock.Some? && s.lock.value < |s.callers| && s.callers[s.lock.value].Reporting?
  }

  ghost predicate RateKept(started: nat, interval: nat, s: State) {
    && LockHeld(s) && s.lastLog <= s.clock && Spaced(started, interval, s.log)
    && (forall i :: 0 <= i < |s.callers| && s.callers[i].Storing? ==> s.lastLog + interval <= s.clock)
    && (s.poisoned ==> forall i :: 0 <= i < |s.callers| ==> !HasLock(s.callers[i]))
    && (!s.poisoned ==>
          if LineDue(s) then LastAt(started, s.log) + interval <= s.lastLog else s.lastLog == LastAt(started, s.log))
  }

  lemma StepKeepsRate(started: nat, interval: nat, s: State, a: Action)
    requires Enabled(s, a) && RateKept(started, interval, s)
    ensures RateKept(started, interval, After(interval, s, a))
  {
    var t := After(interval, s, a);
    match a {
      case Report(i) =>
        assert s.lock == Some(i) && LineDue(s);
        OneMoreLine(started, interval, s.log, LineOf(s, s.callers[i]));
      case Divide(i) =>
        assert HasLock(s.callers[i]) && s.lock == Some(i);
      case StoreNow(i) =>
        assert HasLock(s.callers[i]) && s.lock == Some(i);
      case Check(i) =>
        assert HasLock(s.callers[i]) && s.lock == Some(i);
      case _ =>
    }
  }

  // ---------------------------------------------------------------------------------------------
  // The counts
  // ---------------------------------------------------------------------------------------------

  /** The first `order` batches add up to `walked`, modulo the counter's width. */
  ghost predicate IsCount(batches: seq<nat>, order: nat, walked: nat) {
    0 < order <= |batches| && walked == SumOf(Itself, batches[..order]) % TWO_TO_THE_64
  }

  ghost predicate Told(c: Caller, batches: seq<nat>) {
    InCall(c) ==> IsCount(batches, c.order, c.walked)
  }

  function TotalOf(todo: seq<nat>): nat { SumOf(Itself, todo) }

  ghost predicate CountsKept(work: seq<seq<nat>>, s: State) {
    && s.walked == SumOf(Itself, s.batches) % TWO_TO_THE_64
    && |s.todo| == |s.callers|
    && SumOf(Itself, s.batches) + SumOf(TotalOf, s.todo) == SumOf(TotalOf, work)
    && (forall n :: 0 <= n < |s.batches| ==> s.batches[n] > 0)
    && (forall i :: 0 <= i < |s.callers| ==> Told(s.callers[i], s.batches))
    && (forall n :: 0 <= n < |s.log| ==> IsCount(s.batches, s.log[n].order, s.log[n].walked))
    && (forall n :: 0 <= n < |s.log| ==> s.log[n].walked > 0)
    && (s.poisoned ==> exists n :: IsCount(s.batches, n, 0))
  }

  lemma CountStays(batches: seq<nat>, entries: nat, order: nat, walked: nat)
    requires IsCount(batches, order, walked)
    ensures IsCount(batches + [entries], order, walked)
  {
    assert (batches + [entries])[..order] == batches[..order];
  }

  lemma NewSum(batches: seq<nat>, entries: nat)
    ensures Counted(SumOf(Itself, batches) % TWO_TO_THE_64, entries)
         == SumOf(Itself, batches + [entries]) % TWO_TO_THE_64
  {
    hide SumOf, Counted;
    SumAppend(Itself, batches, entries);
    CountedWraps(SumOf(Itself, batches), entries);
  }

  lemma NewCount(batches: seq<nat>, walked: nat)
    requires batches != [] && walked == SumOf(Itself, batches) % TWO_TO_THE_64
    ensures IsCount(batches, |batches|, walked)
  {
    hide SumOf;
    assert batches[..|batches|] == batches;
  }

  lemma TakeHead(todo: seq<seq<nat>>, i: nat)
    requires i < |todo| && todo[i] != []
    ensures SumOf(TotalOf, todo) == SumOf(TotalOf, todo[i := todo[i][1..]]) + todo[i][0]
  {
    SumUpdate(TotalOf, todo, i, todo[i][1..]);
  }

  lemma PoisonStays(s: State, entries: nat)
    requires s.poisoned ==> exists n :: IsCount(s.batches, n, 0)
    ensures s.poisoned ==> exists n :: IsCount(s.batches + [entries], n, 0)
  {
    hide IsCount;
    if s.poisoned {
      var n :| IsCount(s.batches, n, 0);
      CountStays(s.batches, entries, n, 0);
    }
  }

  lemma StepKeepsCounts(interval: nat, work: seq<seq<nat>>, s: State, a: Action)
    requires Enabled(s, a) && CountsKept(work, s)
    ensures CountsKept(work, After(interval, s, a))
  {
    hide IsCount, Counted, SumOf, TotalOf;
    var t := After(interval, s, a);
    match a {
      case Tick(_) =>
      case Skip(i) => TakeHead(s.todo, i);
      case Count(i) =>
        TakeHead(s.todo, i);
        SumAppend(Itself, s.batches, s.todo[i][0]);
        CountKeepsTold(interval, s, i);
        PoisonStays(s, s.todo[i][0]);
      case Divide(i) =>
        assert Told(s.callers[i], s.batches);
        assert IsCount(t.batches, s.callers[i].order, 0);
      case _ =>
        assert Told(s.callers[a.caller], s.batches);
    }
  }

  lemma CountKeepsTold(interval: nat, s: State, i: nat)
    requires Enabled(s, Count(i)) && s.walked == SumOf(Itself, s.batches) % TWO_TO_THE_64
    requires forall i :: 0 <= i < |s.callers| ==> Told(s.callers[i], s.batches)
    requires forall n :: 0 <= n < |s.log| ==> IsCount(s.batches, s.log[n].order, s.log[n].walked)
    ensures var t := After(interval, s, Count(i));
      && t.walked == SumOf(Itself, t.batches) % TWO_TO_THE_64
      && (forall i :: 0 <= i < |t.callers| ==> Told(t.callers[i], t.batches))
      && (forall n :: 0 <= n < |t.log| ==> IsCount(t.batches, t.log[n].order, t.log[n].walked))
  {
    hide IsCount, Counted, SumOf;
    var entries, t := s.todo[i][0], After(interval, s, Count(i));
    NewSum(s.batches, entries);
    NewCount(t.batches, t.walked);
    forall j | 0 <= j < |t.callers| ensures Told(t.callers[j], t.batches) {
      if j != i && InCall(s.callers[j]) {
        assert Told(s.callers[j], s.batches);
        CountStays(s.batches, entries, s.callers[j].order, s.callers[j].walked);
      }
    }
    forall n | 0 <= n < |t.log| ensures IsCount(t.batches, t.log[n].order, t.log[n].walked) {
      CountStays(s.batches, entries, s.log[n].order, s.log[n].walked);
    }
  }

  lemma {:induction false} RunKeeps(started: nat, interval: nat, work: seq<seq<nat>>, run: seq<State>)
    requires IsRun(started, interval, work, run)
    ensures RateKept(started, interval, run[|run| - 1]) && CountsKept(work, run[|run| - 1])
  {
    hide RateKept, CountsKept, After, Enabled;
    var last := |run| - 1;
    if last == 0 {
      InitKeeps(started, interval, work, run[0]);
    } else {
      RunKeeps(started, interval, work, run[..last]);
      assert Next(interval, run[last - 1], run[last]);
      var a :| Step(interval, run[last - 1], a, run[last]);
      StepKeepsRate(started, interval, run[last - 1], a);
      StepKeepsCounts(interval, work, run[last - 1], a);
    }
  }

  lemma InitKeeps(started: nat, interval: nat, work: seq<seq<nat>>, s: State)
    requires Init(started, work, s)
    ensures RateKept(started, interval, s) && CountsKept(work, s)
  {
  }

  /** Every caller has reported all its batches and returned. */
  ghost predicate Finished(s: State) {
    && (forall i :: 0 <= i < |s.todo| ==> s.todo[i] == [])
    && (forall i :: 0 <= i < |s.callers| ==> s.callers[i].Idle?)
  }

  lemma {:induction false} NothingTodo(todo: seq<seq<nat>>)
    requires forall i :: 0 <= i < |todo| ==> todo[i] == []
    ensures SumOf(TotalOf, todo) == 0
  {
    if todo != [] {
      assert todo[0] == [];
      NothingTodo(todo[1..]);
    }
  }

  /** However the calls interleave, the counter ends as the sum of all the batches given to them. */
  lemma WalkedIsTheTotal(started: nat, interval: nat, work: seq<seq<nat>>, run: seq<State>)
    requires IsRun(started, interval, work, run) && Finished(run[|run| - 1])
    ensures run[|run| - 1].walked == SumOf(TotalOf, work) % TWO_TO_THE_64
  {
    hide SumOf, TotalOf, RateKept;
    RunKeeps(started, interval, work, run);
    NothingTodo(run[|run| - 1].todo);
  }

  /** Lines are at least an interval apart, and the first comes no sooner after the start. */
  lemma LinesAreSpaced(started: nat, interval: nat, work: seq<seq<nat>>, run: seq<State>)
    requires IsRun(started, interval, work, run)
    ensures Spaced(started, interval, run[|run| - 1].log)
  {
    RunKeeps(started, interval, work, run);
  }

  // ---------------------------------------------------------------------------------------------
  // What the lines report
  // ---------------------------------------------------------------------------------------------

  /** A line reports the batches counted up to its caller's, modulo 2^64, and never zero. */
  lemma LinesAreCounts(started: nat, interval: nat, work: seq<seq<nat>>, run: seq<State>, n: nat)
    requires IsRun(started, interval, work, run) && n < |run[|run| - 1].log|
    ensures var s := run[|run| - 1];
      && 0 < s.log[n].order <= |s.batches| && s.log[n].walked > 0
      && s.log[n].walked == SumOf(Itself, s.batches[..s.log[n].order]) % TWO_TO_THE_64
      && 1 <= SumOf(Itself, s.batches[..s.log[n].order]) <= SumOf(TotalOf, work)
  {
    hide SumOf, RateKept, TotalOf;
    RunKeeps(started, interval, work, run);
    var s := run[|run| - 1];
    assert IsCount(s.batches, s.log[n].order, s.log[n].walked);
    CountsAreBounded(work, s, s.log[n].order);
  }

  lemma CountsAreBounded(work: seq<seq<nat>>, s: State, order: nat)
    requires CountsKept(work, s) && 0 < order <= |s.batches|
    ensures 1 <= SumOf(Itself, s.batches[..order]) <= SumOf(TotalOf, work)
  {
    hide SumOf, TotalOf;
    PrefixGrows(s.batches, 0, order);
    PrefixBounded(s.batches, order);
    SumOfNone();
    assert s.batches[..0] == [];
  }

  /** In particular a line reports at least one entry and at most all of them. */
  lemma LinesReportNoMore(started: nat, interval: nat, work: seq<seq<nat>>, run: seq<State>, n: nat)
    requires IsRun(started, interval, work, run) && n < |run[|run| - 1].log|
    ensures 1 <= run[|run| - 1].log[n].walked <= SumOf(TotalOf, work)
  {
    hide SumOf, TotalOf;
    LinesAreCounts(started, interval, work, run, n);
  }

  /**
   * A caller that is let through panics if and only if the batches counted up to its own add up to
   * a multiple of 2^64.
   */
  lemma DividesByZeroExactly(started: nat, interval: nat, work: seq<seq<nat>>, run: seq<State>, i: nat)
    requires IsRun(started, interval, work, run)
    requires Is(run[|run| - 1], i) && run[|run| - 1].callers[i].Reporting?
    ensures var s := run[|run| - 1];
      && 0 < s.callers[i].order <= |s.batches|
      && (Enabled(s, Divide(i)) <==> SumOf(Itself, s.batches[..s.callers[i].order]) % TWO_TO_THE_64 == 0)
  {
    hide SumOf, RateKept, TotalOf;
    RunKeeps(started, interval, work, run);
    var s := run[|run| - 1];
    assert Told(s.callers[i], s.batches);
  }

  lemma {:induction false} PanicsArePoison(started: nat, interval: nat, work: seq<seq<nat>>, run: seq<State>)
    requires IsRun(started, interval, work, run)
    ensures var s := run[|run| - 1]; (exists i :: 0 <= i < |s.callers| && s.callers[i].Panicked?) ==> s.poisoned
  {
    var last := |run| - 1;
    if last > 0 {
      PanicsArePoison(started, interval, work, run[..last]);
      assert Next(interval, run[last - 1], run[last]);
      var a :| Step(interval, run[last - 1], a, run[last]);
      var s, t := run[last - 1], run[last];
      forall i | 0 <= i < |t.callers| && t.callers[i].Panicked? ensures t.poisoned {
        if !s.poisoned {
          assert !s.callers[i].Panicked?;
        }
      }
    }
  }

  /** So nobody panics, and the lock stays sound, while all the batches fit the counter. */
  lemma NobodyPanics(started: nat, interval: nat, work: seq<seq<nat>>, run: seq<State>)
    requires IsRun(started, interval, work, run) && SumOf(TotalOf, work) < TWO_TO_THE_64
    ensures var s := run[|run| - 1];
      !s.poisoned && forall i :: 0 <= i < |s.callers| ==> !s.callers[i].Panicked?
  {
    hide SumOf, RateKept, TotalOf, After, Enabled;
    RunKeeps(started, interval, work, run);
    PanicsArePoison(started, interval, work, run);
    var s := run[|run| - 1];
    forall n: nat ensures !IsCount(s.batches, n, 0) {
      if 0 < n <= |s.batches| {
        CountsAreBounded(work, s, n);
      }
    }
  }

  lemma SumOfNone()
    ensures SumOf(Itself, []) == 0
  {
  }

  lemma PrefixBounded(batches: seq<nat>, n: nat)
    requires n <= |batches|
    ensures SumOf(Itself, batches[..n]) <= SumOf(Itself, batches)
  {
    hide SumOf;
    assert batches == batches[..n] + batches[n..];
    SumConcat(Itself, batches[..n], batches[n..]);
  }

  /** More positive batches add up to more. */
  lemma {:induction false} PrefixGrows(batches: seq<nat>, m: nat, n: nat)
    requires m <= n <= |batches| && forall k :: 0 <= k < |batches| ==> batches[k] > 0
    ensures SumOf(Itself, batches[..m]) + n - m <= SumOf(Itself, batches[..n])
  {
    hide SumOf;
    if m < n {
      PrefixGrows(batches, m, n - 1);
      assert batches[..n] == batches[..n - 1] + [batches[n - 1]];
      SumAppend(Itself, batches[..n - 1], batches[n - 1]);
    }
  }

  /** Later lines report more. */
  ghost predicate Ascending(log: seq<Line>) {
    forall m, n :: 0 <= m < n < |log| ==> log[m].walked < log[n].walked
  }

  /** Callers were let through in the order in which they counted. */
  ghost predicate InOrder(log: seq<Line>) {
    forall m, n :: 0 <= m < n < |log| ==> log[m].order < log[n].order
  }

  lemma CompareLines(started: nat, interval: nat, work: seq<seq<nat>>, run: seq<State>, m: nat, n: nat)
    requires IsRun(started, interval, work, run) && m < |run[|run| - 1].log| && n < |run[|run| - 1].log|
    requires SumOf(TotalOf, work) < TWO_TO_THE_64
    ensures var log := run[|run| - 1].log; log[m].walked < log[n].walked <==> log[m].order < log[n].order
  {
    hide SumOf, TotalOf, RateKept;
    var s := run[|run| - 1];
    RunKeeps(started, interval, work, run);
    LinesAreCounts(started, interval, work, run, m);
    LinesAreCounts(started, interval, work, run, n);
    if s.log[m].order <= s.log[n].order {
      PrefixGrows(s.batches, s.log[m].order, s.log[n].order);
    } else {
      PrefixGrows(s.batches, s.log[n].order, s.log[m].order);
    }
  }

  /** While the batches fit the counter, lines ascend exactly when callers are let through as they counted. */
  lemma LinesAscendExactly(started: nat, interval: nat, work: seq<seq<nat>>, run: seq<State>)
    requires IsRun(started, interval, work, run) && SumOf(TotalOf, work) < TWO_TO_THE_64
    ensures Ascending(run[|run| - 1].log) <==> InOrder(run[|run| - 1].log)
  {
    var log := run[|run| - 1].log;
    forall m, n | 0 <= m < n < |log| ensures log[m].walked < log[n].walked <==> log[m].order < log[n].order {
      CompareLines(started, interval, work, run, m, n);
    }
  }

  /** At most one call is under way. */
  ghost predicate OneAtATime(s: State) {
    forall i, j :: 0 <= i < j < |s.callers| ==> !InCall(s.callers[i]) || !InCall(s.callers[j])
  }

  ghost predicate OrderKept(s: State) {
    && InOrder(s.log)
    && (forall n :: 0 <= n < |s.log| ==> s.log[n].order <= |s.batches|)
    && (forall i :: 0 <= i < |s.callers| && InCall(s.callers[i]) ==>
          s.callers[i].order == |s.batches| && forall n :: 0 <= n < |s.log| ==> s.log[n].order < |s.batches|)
  }

  lemma StepKeepsOrder(interval: nat, s: State, a: Action)
    requires Enabled(s, a) && OrderKept(s) && OneAtATime(s) && OneAtATime(After(interval, s, a))
    ensures OrderKept(After(interval, s, a))
  {
    var t := After(interval, s, a);
    if a.Count? {
      forall j | 0 <= j < |t.callers| && j != a.caller ensures !InCall(t.callers[j]) {
        assert t.callers[a.caller].Waiting?;
      }
    } else if a.Report? {
      forall j | 0 <= j < |t.callers| ensures !InCall(t.callers[j]) {
        assert s.callers[a.caller].Reporting?;
      }
    }
  }

  lemma {:induction false} RunKeepsOrder(started: nat, interval: nat, work: seq<seq<nat>>, run: seq<State>)
    requires IsRun(started, interval, work, run) && forall n :: 0 <= n < |run| ==> OneAtATime(run[n])
    ensures OrderKept(run[|run| - 1])
  {
    hide OneAtATime, After, Enabled, OrderKept;
    var last := |run| - 1;
    if last == 0 {
      InitKeepsOrder(started, work, run[0]);
    } else {
      RunKeepsOrder(started, interval, work, run[..last]);
      assert Next(interval, run[last - 1], run[last]);
      var a :| Step(interval, run[last - 1], a, run[last]);
      StepKeepsOrder(interval, run[last - 1], a);
    }
  }

  lemma InitKeepsOrder(started: nat, work: seq<seq<nat>>, s: State)
    requires Init(started, work, s)
    ensures OrderKept(s)
  {
  }

  /** Calls that do not overlap give ascending lines. */
  lemma SeparateCallsAscend(started: nat, interval: nat, work: seq<seq<nat>>, run: seq<State>)
    requires IsRun(started, interval, work, run) && SumOf(TotalOf, work) < TWO_TO_THE_64
    requires forall n :: 0 <= n < |run| ==> OneAtATime(run[n])
    ensures Ascending(run[|run| - 1].log)
  {
    hide OneAtATime;
    RunKeepsOrder(started, interval, work, run);
    LinesAscendExactly(started, interval, work, run);
  }

  // ---------------------------------------------------------------------------------------------
  // Two runs
  // ---------------------------------------------------------------------------------------------

  lemma OneMoreStep(started: nat, interval: nat, work: seq<seq<nat>>, run: seq<State>, a: Action)
    returns (longer: seq<State>)
    requires IsRun(started, interval, work, run) && Enabled(run[|run| - 1], a)
    ensures IsRun(started, interval, work, longer) && longer[|longer| - 1] == After(interval, run[|run| - 1], a)
  {
    hide After, Enabled, Init;
    longer := run + [After(interval, run[|run| - 1], a)];
    assert Step(interval, run[|run| - 1], a, longer[|run|]);
  }

  lemma TwoCounted() returns (run: seq<State>)
    ensures IsRun(0, 1, [[5], [3]], run)
    ensures run[|run| - 1] == State(1, 8, 0, None, false, [Waiting(5, 1), Waiting(8, 2)], [[], []], [], [5, 3])
  {
    var work := [[5], [3]];
    assert work[0][1..] == [] && work[1][1..] == [];
    var start := State(0, 0, 0, None, false, [Idle, Idle], work, [], []);
    run := OneMoreStep(0, 1, work, [start], Count(0));
    assert run[|run| - 1] == State(0, 5, 0, None, false, [Waiting(5, 1), Idle], [[], [3]], [], [5]);
    hide IsRun;
    run := OneMoreStep(0, 1, work, run, Count(1));
    run := OneMoreStep(0, 1, work, run, Tick(1));
  }

  /** Two callers count, and the one that counted second is let through first. */
  lemma SecondCounterFirst() returns (run: seq<State>)
    ensures IsRun(0, 1, [[5], [3]], run)
    ensures run[|run| - 1]
         == State(1, 8, 1, None, false, [Waiting(5, 1), Idle], [[], []], [Line(1, 8, 2)], [5, 3])
  {
    hide IsRun;
    var work := [[5], [3]];
    run := TwoCounted();
    run := OneMoreStep(0, 1, work, run, Lock(1));
    assert run[|run| - 1] == State(1, 8, 0, Some(1), false, [Waiting(5, 1), Checking(8, 2)], [[], []], [], [5, 3]);
    run := OneMoreStep(0, 1, work, run, Check(1));
    run := OneMoreStep(0, 1, work, run, StoreNow(1));
    assert run[|run| - 1] == State(1, 8, 1, Some(1), false, [Waiting(5, 1), Reporting(8, 2)], [[], []], [], [5, 3]);
    run := OneMoreStep(0, 1, work, run, Report(1));
  }

  /** So a later line can report less: a caller that counted first is let through last. */
  lemma LinesMayGoBackwards() returns (run: seq<State>)
    ensures IsRun(0, 1, [[5], [3]], run)
    ensures |run[|run| - 1].log| == 2 && run[|run| - 1].log[1].walked < run[|run| - 1].log[0].walked
  {
    hide IsRun;
    var work, line := [[5], [3]], Line(1, 8, 2);
    run := SecondCounterFirst();
    run := OneMoreStep(0, 1, work, run, Tick(1));
    run := OneMoreStep(0, 1, work, run, Lock(0));
    assert run[|run| - 1] == State(2, 8, 1, Some(0), false, [Checking(5, 1), Idle], [[], []], [line], [5, 3]);
    run := OneMoreStep(0, 1, work, run, Check(0));
    run := OneMoreStep(0, 1, work, run, StoreNow(0));
    assert run[|run| - 1] == State(2, 8, 2, Some(0), false, [Reporting(5, 1), Idle], [[], []], [line], [5, 3]);
    run := OneMoreStep(0, 1, work, run, Report(0));
  }

  const MOST: nat := TWO_TO_THE_64 - 1

  /** The second batch wraps the counter to zero just as an interval has passed. */
  lemma WrapsToZero() returns (run: seq<State>)
    ensures IsRun(0, 1, [[MOST, 1], [2]], run)
    ensures run[|run| - 1] == State(1, 0, 0, None, false, [Waiting(0, 2), Idle], [[], [2]], [], [MOST, 1])
  {
    var most: nat := TWO_TO_THE_64 - 1;
    var work := [[most, 1], [2]];
    assert work[0][1..] == [1] && [1][1..] == [];
    var start := State(0, 0, 0, None, false, [Idle, Idle], work, [], []);
    run := OneMoreStep(0, 1, work, [start], Count(0));
    assert run[|run| - 1] == State(0, most, 0, None, false, [Waiting(most, 1), Idle], [[1], [2]], [], [most]);
    hide IsRun;
    run := OneMoreStep(0, 1, work, run, Lock(0));
    run := OneMoreStep(0, 1, work, run, Check(0));
    assert run[|run| - 1] == State(0, most, 0, None, false, [Idle, Idle], [[1], [2]], [], [most]);
    run := OneMoreStep(0, 1, work, run, Count(0));
    run := OneMoreStep(0, 1, work, run, Tick(1));
  }

  /** Its caller panics, nothing is logged, and the next caller panics on the poisoned lock. */
  lemma WrappedCounterPanics() returns (run: seq<State>)
    ensures IsRun(0, 1, [[MOST, 1], [2]], run)
    ensures var s := run[|run| - 1]; s.poisoned && s.callers == [Panicked, Panicked] && s.log == []
  {
    hide IsRun;
    var work := [[MOST, 1], [2]];
    assert work[1][1..] == [];
    run := WrapsToZero();
    run := OneMoreStep(0, 1, work, run, Lock(0));
    run := OneMoreStep(0, 1, work, run, Check(0));
    assert run[|run| - 1] == State(1, 0, 0, Some(0), false, [Storing(0, 2), Idle], [[], [2]], [], [MOST, 1]);
    run := OneMoreStep(0, 1, work, run, StoreNow(0));
    run := OneMoreStep(0, 1, work, run, Divide(0));
    assert run[|run| - 1] == State(1, 0, 1, None, true, [Panicked, Idle], [[], [2]], [], [MOST, 1]);
    run := OneMoreStep(0, 1, work, run, Count(1));
    run := OneMoreStep(0, 1, work, run, LockFails(1));
  }
}
