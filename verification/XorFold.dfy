/** Folding hashes with XOR: only elements of odd multiplicity survive. */
module XorFold {
  /** A word: the positions of its one bits. */
  type Word = set<nat>

  predicate Fits(w: Word, width: nat) { forall i :: i in w ==> i < width }

  function NoBits(): Word { {} }

  function Xor(a: Word, b: Word): (r: Word)
    ensures forall i :: i in r <==> (i in a) != (i in b)
  {
    (a - b) + (b - a)
  }

  lemma XorAssociates(a: Word, b: Word, c: Word)
    ensures Xor(a, Xor(b, c)) == Xor(Xor(a, b), c)
  {
  }

  lemma XorCommutes(a: Word, b: Word)
    ensures Xor(a, b) == Xor(b, a)
  {
  }

  lemma XorZero(a: Word)
    ensures Xor(a, NoBits()) == a && Xor(NoBits(), a) == a
  {
  }

  /** XOR is zero exactly on equal words. */
  lemma XorSelf(a: Word, b: Word)
    ensures Xor(a, b) == NoBits() <==> a == b
  {
    if Xor(a, b) == NoBits() {
      forall i ensures i in a <==> i in b {
        assert i !in Xor(a, b);
      }
    }
  }

  lemma XorUndoes(a: Word, b: Word)
    ensures Xor(a, Xor(a, b)) == b
  {
  }

  lemma XorSwaps(a: Word, b: Word, c: Word)
    ensures Xor(a, Xor(b, c)) == Xor(b, Xor(a, c))
  {
  }

  lemma XorCancels(a: Word, b: Word, c: Word)
    ensures Xor(Xor(a, c), Xor(b, c)) == Xor(a, b)
  {
  }

  function XorAll<T>(f: T -> Word, s: seq<T>): Word {
    if s == [] then NoBits() else Xor(f(s[0]), XorAll(f, s[1..]))
  }

  lemma {:induction false} XorAllAppend<T>(f: T -> Word, s: seq<T>, x: T)
    ensures XorAll(f, s + [x]) == Xor(XorAll(f, s), f(x))
  {
    if s == [] {
      assert [x][1..] == [];
      assert s + [x] == [x];
      XorCommutes(f(x), NoBits());
    } else {
      XorAllAppend(f, s[1..], x);
      assert (s + [x])[1..] == s[1..] + [x];
      XorAssociates(f(s[0]), XorAll(f, s[1..]), f(x));
    }
  }

  ghost function Pick<T>(s: set<T>): (x: T)
    requires s != {}
    ensures x in s
  {
    var x :| x in s; x
  }

  /** The same fold over a set, in whatever order. */
  ghost function XorSet<T>(f: T -> Word, s: set<T>): Word {
    if s == {} then NoBits() else Xor(f(Pick(s)), XorSet(f, s - {Pick(s)}))
  }

  lemma {:induction false} XorSetRemove<T>(f: T -> Word, s: set<T>, x: T)
    requires x in s
    ensures XorSet(f, s) == Xor(f(x), XorSet(f, s - {x}))
    decreases |s|
  {
    var p := Pick(s);
    if p != x {
      XorSetRemove(f, s - {p}, x);
      XorSetRemove(f, s - {x}, p);
      assert s - {p} - {x} == s - {x} - {p};
      XorSwaps(f(p), f(x), XorSet(f, s - {p} - {x}));
    }
  }

  function Toggle<T(==)>(s: set<T>, x: T): set<T> {
    if x in s then s - {x} else s + {x}
  }

  lemma XorSetToggle<T>(f: T -> Word, s: set<T>, x: T)
    ensures XorSet(f, Toggle(s, x)) == Xor(f(x), XorSet(f, s))
  {
    if x in s {
      XorSetRemove(f, s, x);
      XorUndoes(f(x), XorSet(f, s - {x}));
    } else {
      XorSetRemove(f, s + {x}, x);
      assert s + {x} - {x} == s;
    }
  }

  /** The elements that occur an odd number of times. */
  function Odd<T(==)>(s: seq<T>): set<T> {
    if s == [] then {} else Toggle(Odd(s[1..]), s[0])
  }

  lemma CountHead<T>(s: seq<T>, x: T)
    requires s != []
    ensures multiset(s)[x] == multiset(s[1..])[x] + if x == s[0] then 1 else 0
  {
    assert s == [s[0]] + s[1..];
  }

  lemma {:induction false} OddIsOddMultiplicity<T>(s: seq<T>, x: T)
    ensures x in Odd(s) <==> multiset(s)[x] % 2 == 1
  {
    if s != [] {
      OddIsOddMultiplicity(s[1..], x);
      CountHead(s, x);
    }
  }

  /** The fold of a sequence is the fold of its odd elements. */
  lemma {:induction false} XorAllIsOdd<T>(f: T -> Word, s: seq<T>)
    ensures XorAll(f, s) == XorSet(f, Odd(s))
  {
    if s != [] {
      XorAllIsOdd(f, s[1..]);
      XorSetToggle(f, Odd(s[1..]), s[0]);
    }
  }

  lemma FoldIsParity<T(!new)>(f: T -> Word, s: seq<T>, t: seq<T>)
    requires forall x :: multiset(s)[x] % 2 == multiset(t)[x] % 2
    ensures Odd(s) == Odd(t)
    ensures XorAll(f, s) == XorAll(f, t)
  {
    forall x ensures x in Odd(s) <==> x in Odd(t) {
      OddIsOddMultiplicity(s, x);
      OddIsOddMultiplicity(t, x);
    }
    assert Odd(s) == Odd(t);
    XorAllIsOdd(f, s);
    XorAllIsOdd(f, t);
  }

  /** Order does not matter: sequences with the same elements fold to the same word. */
  lemma FoldIgnoresOrder<T(!new)>(f: T -> Word, s: seq<T>, t: seq<T>)
    requires multiset(s) == multiset(t)
    ensures XorAll(f, s) == XorAll(f, t)
  {
    FoldIsParity(f, s, t);
  }

  /** Bit by bit: a bit of the fold is set when an odd number of the words have it. */
  lemma {:induction false} BitIsParity<T>(f: T -> Word, s: seq<T>, i: nat)
    ensures i in XorAll(f, s) <==> |Having(f, s, i)| % 2 == 1
  {
    if s == [] {
      assert Having(f, s, i) == {};
    } else {
      var last, init := |s| - 1, s[..|s| - 1];
      BitIsParity(f, init, i);
      XorAllAppend(f, init, s[last]);
      assert s == init + [s[last]];
      HavingNext(f, init, s[last], i);
    }
  }

  /** The positions whose words have bit `i`. */
  function Having<T>(f: T -> Word, s: seq<T>, i: nat): set<int> {
    set k | 0 <= k < |s| && i in f(s[k])
  }

  lemma HavingNext<T>(f: T -> Word, s: seq<T>, x: T, i: nat)
    ensures |Having(f, s + [x], i)| == |Having(f, s, i)| + if i in f(x) then 1 else 0
  {
    assert Having(f, s + [x], i) == Having(f, s, i) + if i in f(x) then {|s|} else {};
  }

  ghost function HavingIn<T>(f: T -> Word, s: set<T>, i: nat): set<T> {
    set x | x in s && i in f(x)
  }

  lemma {:induction false} SetBitIsParity<T>(f: T -> Word, s: set<T>, i: nat)
    ensures i in XorSet(f, s) <==> |HavingIn(f, s, i)| % 2 == 1
  {
    if s == {} {
      assert HavingIn(f, s, i) == {};
    } else {
      var x := Pick(s);
      SetBitIsParity(f, s - {x}, i);
      assert HavingIn(f, s, i) == HavingIn(f, s - {x}, i) + if i in f(x) then {x} else {};
    }
  }

  predicate NoDuplicates<T(==)>(s: seq<T>) {
    forall i, j :: 0 <= i < j < |s| ==> s[i] != s[j]
  }

  function Elements<T(==)>(s: seq<T>): set<T> { set x | x in s }

  lemma {:induction false} OddOfDistinct<T>(s: seq<T>)
    requires NoDuplicates(s)
    ensures Odd(s) == Elements(s)
    ensures |Elements(s)| == |s|
  {
    if s != [] {
      OddOfDistinct(s[1..]);
      assert s[0] !in s[1..];
      assert Elements(s) == Elements(s[1..]) + {s[0]};
    }
  }

  /** Only a sequence without repeats has as many odd elements as it is long. */
  lemma {:induction false} OddCardinality<T>(s: seq<T>)
    ensures |Odd(s)| <= |s|
    ensures |Odd(s)| == |s| ==> NoDuplicates(s)
  {
    if s != [] {
      hide NoDuplicates;
      OddCardinality(s[1..]);
      if |Odd(s)| == |s| {
        OddOfDistinct(s[1..]);
        assert s[0] !in Elements(s[1..]);
        NewHead(s);
      }
    } else {
      NoneDuplicated<T>();
    }
  }

  lemma NoneDuplicated<T>()
    ensures NoDuplicates<T>([])
  {
  }

  lemma NewHead<T>(s: seq<T>)
    requires s != [] && NoDuplicates(s[1..]) && s[0] !in Elements(s[1..])
    ensures NoDuplicates(s)
  {
    forall i, j | 0 <= i < j < |s| ensures s[i] != s[j] {
      assert s[j] == s[1..][j - 1];
      assert i > 0 ==> s[i] == s[1..][i - 1];
    }
  }

  function SymmetricDifference<T(==)>(s: set<T>, t: set<T>): set<T> { (s - t) + (t - s) }

  lemma {:induction false} XorSetDisjoint<T>(f: T -> Word, s: set<T>, t: set<T>)
    requires s !! t
    ensures XorSet(f, s + t) == Xor(XorSet(f, s), XorSet(f, t))
    decreases |s|
  {
    if s == {} {
      assert s + t == t;
      XorZero(XorSet(f, t));
    } else {
      var x :| x in s;
      XorSetRemove(f, s + t, x);
      assert s + t - {x} == (s - {x}) + t;
      XorSetDisjoint(f, s - {x}, t);
      XorSetRemove(f, s, x);
      XorAssociates(f(x), XorSet(f, s - {x}), XorSet(f, t));
    }
  }

  lemma XorSetDifference<T>(f: T -> Word, s: set<T>, t: set<T>)
    ensures Xor(XorSet(f, s), XorSet(f, t)) == XorSet(f, SymmetricDifference(s, t))
  {
    XorSetDisjoint(f, s - t, s * t);
    XorSetDisjoint(f, t - s, s * t);
    XorSetDisjoint(f, s - t, t - s);
    assert (s - t) + (s * t) == s;
    assert (t - s) + (s * t) == t;
    XorCancels(XorSet(f, s - t), XorSet(f, t - s), XorSet(f, s * t));
  }

  /** Sets collide exactly when the XOR over the elements they do not share is zero. */
  lemma CollisionExactly<T>(f: T -> Word, s: set<T>, t: set<T>)
    ensures XorSet(f, s) == XorSet(f, t) <==> XorSet(f, SymmetricDifference(s, t)) == NoBits()
  {
    XorSetDifference(f, s, t);
    XorSelf(XorSet(f, s), XorSet(f, t));
  }

  // ---------------------------------------------------------------------------------------------
  // How many words can be independent
  // ---------------------------------------------------------------------------------------------

  lemma {:induction false} XorSetFits<T>(f: T -> Word, s: set<T>, width: nat)
    requires forall x :: x in s ==> Fits(f(x), width)
    ensures Fits(XorSet(f, s), width)
  {
    if s != {} {
      XorSetFits(f, s - {Pick(s)}, width);
    }
  }

  /** Adding one word to some of the others adds it to their fold or leaves that alone. */
  lemma {:induction false} PivotFold<T>(f: T -> Word, g: T -> Word, pivot: Word, s: set<T>)
    requires forall x :: x in s ==> g(x) == f(x) || g(x) == Xor(f(x), pivot)
    ensures XorSet(g, s) == XorSet(f, s) || XorSet(g, s) == Xor(XorSet(f, s), pivot)
  {
    if s != {} {
      var x := Pick(s);
      var rest := s - {x};
      PivotFold(f, g, pivot, rest);
      XorAssociates(f(x), XorSet(f, rest), pivot);
      XorAssociates(f(x), pivot, XorSet(f, rest));
      XorCommutes(pivot, XorSet(f, rest));
      XorCancels(f(x), XorSet(f, rest), pivot);
    }
  }

  /** Elimination: among more words than they have bits, some fold to zero. */
  lemma {:induction false} Dependent<T(!new)>(f: T -> Word, s: set<T>, width: nat) returns (d: set<T>)
    requires |s| > width && forall x :: x in s ==> Fits(f(x), width)
    ensures d <= s && d != {} && XorSet(f, d) == NoBits()
    decreases width
  {
    if width == 0 {
      var x :| x in s;
      d := {x};
      XorSetRemove(f, d, x);
      assert d - {x} == {};
      assert f(x) == {};
      XorZero(NoBits());
    } else if x :| x in s && width - 1 in f(x) {
      var rest := s - {x};
      var pivot := f(x);
      var g := y => if width - 1 in f(y) then Xor(f(y), pivot) else f(y);
      forall y | y in rest ensures Fits(g(y), width - 1) {
        FitsBelow(f(y), pivot, width);
      }
      d := Dependent(g, rest, width - 1);
      PivotFold(f, g, pivot, d);
      if XorSet(f, d) != NoBits() {
        XorSelf(XorSet(f, d), pivot);
        XorSetRemove(f, d + {x}, x);
        assert d + {x} - {x} == d;
        XorSelf(pivot, XorSet(f, d));
        d := d + {x};
      }
    } else {
      forall y | y in s ensures Fits(f(y), width - 1) {
      }
      d := Dependent(f, s, width - 1);
    }
  }

  lemma FitsBelow(w: Word, pivot: Word, width: nat)
    requires Fits(w, width) && Fits(pivot, width) && width > 0 && width - 1 in pivot
    ensures Fits(if width - 1 in w then Xor(w, pivot) else w, width - 1)
  {
  }

  /** Words with one bit each, all of them different, fold to the set of those bits. */
  lemma {:induction false} XorOfSingletons<T(!new)>(f: T -> Word, index: map<T, nat>, s: set<T>)
    requires s <= index.Keys && forall x :: x in s ==> f(x) == {index[x]}
    requires forall x, y :: x in index && y in index && index[x] == index[y] ==> x == y
    ensures XorSet(f, s) == set x | x in s :: index[x]
  {
    if s != {} {
      XorOfSingletons(f, index, s - {Pick(s)});
    }
  }

  /** A number below the cardinality for every element. */
  lemma {:induction false} Numbering<T(!new)>(s: set<T>) returns (index: map<T, nat>)
    ensures index.Keys == s
    ensures forall x :: x in s ==> index[x] < |s|
    ensures forall x, y :: x in index && y in index && index[x] == index[y] ==> x == y
  {
    if s == {} {
      index := map[];
    } else {
      var x :| x in s;
      var rest := Numbering(s - {x});
      index := rest[x := |s| - 1];
      assert index.Keys == s;
    }
  }
}
