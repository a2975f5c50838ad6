/** Lists of lists: the work of several threads, and what one of them takes from it. */
module Sequences {
  function Flatten<T>(ss: seq<seq<T>>): seq<T> {
    if ss == [] then [] else ss[0] + Flatten(ss[1..])
  }

  /** Replacing one thread's list changes the whole by exactly that list. */
  lemma {:induction false} FlattenUpdate<T(!new)>(ss: seq<seq<T>>, i: nat, s: seq<T>)
    requires i < |ss|
    ensures multiset(Flatten(ss[i := s])) + multiset(ss[i]) == multiset(Flatten(ss)) + multiset(s)
  {
    var tt := ss[i := s];
    if i == 0 {
      assert tt[1..] == ss[1..];
    } else {
      FlattenUpdate(ss[1..], i - 1, s);
      assert tt[1..] == ss[1..][i - 1 := s];
    }
    forall x ensures (multiset(Flatten(tt)) + multiset(ss[i]))[x] == (multiset(Flatten(ss)) + multiset(s))[x] {
      assert multiset(Flatten(tt))[x] == multiset(tt[0])[x] + multiset(Flatten(tt[1..]))[x];
      assert multiset(Flatten(ss))[x] == multiset(ss[0])[x] + multiset(Flatten(ss[1..]))[x];
      if i > 0 {
        assert (multiset(Flatten(tt[1..])) + multiset(ss[i]))[x] == (multiset(Flatten(ss[1..])) + multiset(s))[x];
      }
    }
  }

  lemma MultisetCancel<T(!new)>(a: multiset<T>, b: multiset<T>, c: multiset<T>)
    requires a + c == b + c
    ensures a == b
  {
    forall x ensures a[x] == b[x] {
      assert (a + c)[x] == (b + c)[x];
    }
  }

  /** One thread finishes its first element: the whole loses exactly that one. */
  lemma FlattenTake<T(!new)>(ss: seq<seq<T>>, i: nat)
    requires i < |ss| && ss[i] != []
    ensures multiset(Flatten(ss)) == multiset(Flatten(ss[i := ss[i][1..]])) + multiset{ss[i][0]}
    ensures |Flatten(ss)| == |Flatten(ss[i := ss[i][1..]])| + 1
  {
    var rest := ss[i][1..];
    FlattenUpdate(ss, i, rest);
    assert ss[i] == [ss[i][0]] + rest;
    MultisetCancel(multiset(Flatten(ss)), multiset(Flatten(ss[i := rest])) + multiset{ss[i][0]}, multiset(rest));
    assert |multiset(Flatten(ss))| == |Flatten(ss)|;
    assert |multiset(Flatten(ss[i := ss[i][1..]]))| == |Flatten(ss[i := ss[i][1..]])|;
  }

  lemma {:induction false} FlattenEmpty<T(!new)>(ss: seq<seq<T>>)
    ensures Flatten(ss) == [] <==> forall i :: 0 <= i < |ss| ==> ss[i] == []
  {
    if ss != [] {
      FlattenEmpty(ss[1..]);
      forall i | 0 <= i < |ss| && Flatten(ss) == [] ensures ss[i] == [] {
        if i > 0 {
          assert ss[i] == ss[1..][i - 1];
        }
      }
      if forall i :: 0 <= i < |ss| ==> ss[i] == [] {
        assert forall i :: 0 <= i < |ss[1..]| ==> ss[1..][i] == ss[i + 1];
      }
    }
  }

  function SumOf<T>(f: T -> nat, s: seq<T>): nat {
    if s == [] then 0 else f(s[0]) + SumOf(f, s[1..])
  }

  function Itself(n: nat): nat { n }

  lemma {:induction false} SumConcat<T>(f: T -> nat, s: seq<T>, t: seq<T>)
    ensures SumOf(f, s + t) == SumOf(f, s) + SumOf(f, t)
  {
    if s == [] {
      assert s + t == t;
    } else {
      SumConcat(f, s[1..], t);
      assert (s + t)[1..] == s[1..] + t;
    }
  }

  lemma SumAppend<T>(f: T -> nat, s: seq<T>, x: T)
    ensures SumOf(f, s + [x]) == SumOf(f, s) + f(x)
  {
    SumConcat(f, s, [x]);
  }

  lemma SumRemove<T>(f: T -> nat, s: seq<T>, i: nat)
    requires i < |s|
    ensures SumOf(f, s) == SumOf(f, s[..i] + s[i + 1..]) + f(s[i])
  {
    hide SumOf;
    assert s == s[..i] + [s[i]] + s[i + 1..];
    SumConcat(f, s[..i] + [s[i]], s[i + 1..]);
    SumAppend(f, s[..i], s[i]);
    SumConcat(f, s[..i], s[i + 1..]);
  }

  lemma SumUpdate<T>(f: T -> nat, s: seq<T>, i: nat, x: T)
    requires i < |s|
    ensures SumOf(f, s[i := x]) + f(s[i]) == SumOf(f, s) + f(x)
  {
    hide SumOf;
    SumRemove(f, s, i);
    SumRemove(f, s[i := x], i);
    assert s[i := x][..i] == s[..i] && s[i := x][i + 1..] == s[i + 1..];
  }
}
