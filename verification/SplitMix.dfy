/**
 * The generator behind the synthetic state: a 64-bit counter with an odd step, whose every value is
 * put through a bijective mix.
 *
 * Each operation on words is a function of its own.  Lemmas that bit-blast speak of one of them at a
 * time; everything that combines them hides their bodies and works with the equations alone.
 */
module SplitMix {
  import opened Trie

  // ---------------------------------------------------------------------------------------------
  // The mixing function and its inverse
  // ---------------------------------------------------------------------------------------------

  function Fold30(z: bv64): bv64 { z ^ (z >> 30) }

  function Fold27(z: bv64): bv64 { z ^ (z >> 27) }

  function Fold31(z: bv64): bv64 { z ^ (z >> 31) }

  function Scale1(z: bv64): bv64 { z * 0xBF58_476D_1CE4_E5B9 }

  function Scale2(z: bv64): bv64 { z * 0x94D0_49BB_1331_11EB }

  function Mix(z: bv64): bv64 { Fold31(Scale2(Fold27(Scale1(Fold30(z))))) }

  function Unfold30(y: bv64): bv64 { y ^ (y >> 30) ^ (y >> 60) }

  function Unfold27(y: bv64): bv64 { y ^ (y >> 27) ^ (y >> 54) }

  function Unfold31(y: bv64): bv64 { y ^ (y >> 31) ^ (y >> 62) }

  function Unscale1(y: bv64): bv64 { y * 0x96DE_1B17_3F11_9089 }

  function Unscale2(y: bv64): bv64 { y * 0x3196_42B2_D24D_8EC3 }

  function Unmix(y: bv64): bv64 { Unfold30(Unscale1(Unfold27(Unscale2(Unfold31(y))))) }

  lemma Unfold30OfTerm(z: bv64)
    ensures Unfold30(z ^ (z >> 30)) == z
  {
  }

  lemma Fold30OfTerm(z: bv64)
    ensures Fold30(z ^ (z >> 30) ^ (z >> 60)) == z
  {
  }

  lemma Unfold27OfTerm(z: bv64)
    ensures Unfold27(z ^ (z >> 27)) == z
  {
  }

  lemma Fold27OfTerm(z: bv64)
    ensures Fold27(z ^ (z >> 27) ^ (z >> 54)) == z
  {
  }

  lemma Unfold31OfTerm(z: bv64)
    ensures Unfold31(z ^ (z >> 31)) == z
  {
  }

  lemma Fold31OfTerm(z: bv64)
    ensures Fold31(z ^ (z >> 31) ^ (z >> 62)) == z
  {
  }

  lemma Unscale1OfTerm(z: bv64)
    ensures Unscale1(z * 0xBF58_476D_1CE4_E5B9) == z
  {
  }

  lemma Scale1OfTerm(z: bv64)
    ensures Scale1(z * 0x96DE_1B17_3F11_9089) == z
  {
  }

  lemma Unscale2OfTerm(z: bv64)
    ensures Unscale2(z * 0x94D0_49BB_1331_11EB) == z
  {
  }

  lemma Scale2OfTerm(z: bv64)
    ensures Scale2(z * 0x3196_42B2_D24D_8EC3) == z
  {
  }

  lemma Folds(z: bv64)
    ensures Unfold30(Fold30(z)) == z && Unfold27(Fold27(z)) == z && Unfold31(Fold31(z)) == z
  {
    hide Unfold30, Unfold27, Unfold31;
    Unfold30OfTerm(z);
    Unfold27OfTerm(z);
    Unfold31OfTerm(z);
  }

  lemma Unfolds(z: bv64)
    ensures Fold30(Unfold30(z)) == z && Fold27(Unfold27(z)) == z && Fold31(Unfold31(z)) == z
  {
    hide Fold30, Fold27, Fold31;
    Fold30OfTerm(z);
    Fold27OfTerm(z);
    Fold31OfTerm(z);
  }

  lemma Scales(z: bv64)
    ensures Unscale1(Scale1(z)) == z && Unscale2(Scale2(z)) == z
  {
    hide Unscale1, Unscale2;
    Unscale1OfTerm(z);
    Unscale2OfTerm(z);
  }

  lemma Unscales(z: bv64)
    ensures Scale1(Unscale1(z)) == z && Scale2(Unscale2(z)) == z
  {
    hide Scale1, Scale2;
    Scale1OfTerm(z);
    Scale2OfTerm(z);
  }

  /** The mix is a bijection on 64-bit words. */
  lemma MixBijective(z: bv64)
    ensures Unmix(Mix(z)) == z && Mix(Unmix(z)) == z
  {
    hide Fold30, Fold27, Fold31, Scale1, Scale2, Unfold30, Unfold27, Unfold31, Unscale1, Unscale2;
    var a := Scale1(Fold30(z));
    Folds(z);
    Scales(Fold30(z));
    Folds(a);
    Scales(Fold27(a));
    Folds(Scale2(Fold27(a)));
    var b := Unscale2(Unfold31(z));
    Unfolds(z);
    Unscales(Unfold31(z));
    Unfolds(b);
    Unscales(Unfold27(b));
    Unfolds(Unscale1(Unfold27(b)));
  }

  // ---------------------------------------------------------------------------------------------
  // Counting in 64 bits
  // ---------------------------------------------------------------------------------------------

  function Half(b: bv64): bv64 { b >> 1 }

  predicate Odd(b: bv64) { b & 1 == 1 }

  function Twice(b: bv64, odd: bool): bv64 { b + b + if odd then 1 else 0 }

  function Inc(b: bv64): bv64 { b + 1 }

  function Add(a: bv64, b: bv64): bv64 { a + b }

  function Sixteenth(b: bv64): bv64 { b >> 4 }

  predicate AtMost(a: bv64, b: bv64) { a <= b }

  /** The word a counter holds after `n` increments, by the binary digits of `n`. */
  function FromNat(n: nat): bv64 {
    if n == 0 then 0 else Twice(FromNat(n / 2), n % 2 == 1)
  }

  /** The number a word's lowest `k` binary digits write. */
  function ToNat(b: bv64, k: nat): nat {
    if k == 0 then 0 else (if Odd(b) then 1 else 0) + 2 * ToNat(Half(b), k - 1)
  }

  lemma TwiceInc(b: bv64)
    ensures Twice(b, true) == Inc(Twice(b, false))
  {
  }

  lemma TwiceIncTerm(b: bv64)
    ensures Twice(b + 1, false) == Inc(b + b + 1)
  {
  }

  lemma TwiceCarries(b: bv64)
    ensures Twice(Inc(b), false) == Inc(Twice(b, true))
  {
    assert Twice(Inc(b), false) == Inc(b + b + 1) by {
      hide Twice;
      TwiceIncTerm(b);
    }
    hide Inc;
    assert Twice(b, true) == b + b + 1;
  }

  lemma TwiceZero()
    ensures Twice(0, false) == 0
  {
  }

  lemma {:induction false} FromNatSuccessor(n: nat)
    ensures FromNat(n + 1) == Inc(FromNat(n))
  {
    hide Twice, Inc;
    if n % 2 == 1 {
      FromNatSuccessor(n / 2);
      assert (n + 1) / 2 == n / 2 + 1;
      TwiceCarries(FromNat(n / 2));
    } else {
      assert (n + 1) / 2 == n / 2;
      TwiceInc(FromNat(n / 2));
      TwiceZero();
    }
  }

  lemma AddZero(a: bv64)
    ensures Add(a, 0) == a
  {
  }

  lemma AddIncTerm(a: bv64, b: bv64)
    ensures Add(a, b + 1) == Inc(a + b)
  {
  }

  lemma AddInc(a: bv64, b: bv64)
    ensures Add(a, Inc(b)) == Inc(Add(a, b))
  {
    assert Add(a, Inc(b)) == Inc(a + b) by {
      hide Add;
      AddIncTerm(a, b);
    }
    hide Inc;
    assert Add(a, b) == a + b;
  }

  lemma AddCancels(a: bv64, d: bv64)
    ensures Add(a, d) == a ==> d == 0
  {
  }

  lemma {:induction false} FromNatAdds(i: nat, d: nat)
    ensures FromNat(i + d) == Add(FromNat(i), FromNat(d))
  {
    hide Twice, Inc, Add;
    if d == 0 {
      AddZero(FromNat(i));
    } else {
      FromNatAdds(i, d - 1);
      FromNatSuccessor(i + d - 1);
      FromNatSuccessor(d - 1);
      AddInc(FromNat(i), FromNat(d - 1));
    }
  }

  // ---------------------------------------------------------------------------------------------
  // Sixty-four binary digits: all ones, shifted right `j` times, bounds the words of 64 - j digits
  // ---------------------------------------------------------------------------------------------

  function Ones(j: nat): bv64 {
    if j == 0 then 0xFFFF_FFFF_FFFF_FFFF else Half(Ones(j - 1))
  }

  function Pow2(k: nat): nat { if k == 0 then 1 else 2 * Pow2(k - 1) }

  lemma Pow2Plus8(k: nat)
    ensures Pow2(k + 8) == 256 * Pow2(k)
  {
    assert Pow2(k + 2) == 4 * Pow2(k);
    assert Pow2(k + 4) == 4 * Pow2(k + 2);
    assert Pow2(k + 6) == 4 * Pow2(k + 4);
    assert Pow2(k + 8) == 4 * Pow2(k + 6);
  }

  lemma Pow2Of64()
    ensures Pow2(64) == TWO_TO_THE_64
  {
    assert Pow2(0) == 1;
    hide Pow2;
    Pow2Plus8(0);
    Pow2Plus8(8);
    Pow2Plus8(16);
    Pow2Plus8(24);
    Pow2Plus8(32);
    Pow2Plus8(40);
    Pow2Plus8(48);
    Pow2Plus8(56);
  }

  lemma HalfOfShift(x: bv64)
    ensures Half(x >> 1) == x >> 2 && Half(x >> 2) == x >> 3 && Half(x >> 3) == x >> 4
  {
  }

  lemma HalfTerm(x: bv64)
    ensures Half(x) == x >> 1
  {
  }

  lemma HalfFourTimes(x: bv64)
    ensures Half(Half(Half(Half(x)))) == Sixteenth(x)
  {
    assert Sixteenth(x) == x >> 4;
    hide Half, Sixteenth;
    HalfTerm(x);
    HalfOfShift(x);
  }

  lemma OnesStep(j: nat)
    ensures Ones(j + 1) == Half(Ones(j))
  {
    hide Half;
  }

  lemma OnesShift(j: nat)
    ensures Ones(j + 4) == Sixteenth(Ones(j))
  {
    hide Half, Ones, Sixteenth;
    OnesStep(j);
    OnesStep(j + 1);
    OnesStep(j + 2);
    OnesStep(j + 3);
    HalfFourTimes(Ones(j));
  }

  lemma OnesRunOut()
    ensures Ones(63) == 1 && Ones(64) == 0
  {
    assert Ones(0) == 0xFFFF_FFFF_FFFF_FFFF;
    assert Ones(60) == 0xF by {
      hide Ones;
      OnesShift(0);
      OnesShift(4);
      OnesShift(8);
      OnesShift(12);
      OnesShift(16);
      OnesShift(20);
      OnesShift(24);
      OnesShift(28);
      OnesShift(32);
      OnesShift(36);
      OnesShift(40);
      OnesShift(44);
      OnesShift(48);
      OnesShift(52);
      OnesShift(56);
    }
    assert Ones(61) == 7;
    assert Ones(62) == 3;
    assert Ones(63) == 1;
    assert Ones(64) == 0;
  }

  predicate IsOnes(x: bv64) { x & (x + 1) == 0 }

  lemma HalfOfOnes(x: bv64)
    requires IsOnes(x)
    ensures IsOnes(Half(x))
  {
  }

  lemma OnesEndInOne(x: bv64)
    requires IsOnes(x) && x != 0
    ensures Odd(x)
  {
  }

  lemma HalfOfZero()
    ensures Half(0) == 0
  {
  }

  lemma {:induction false} OnesAreOnes(j: nat)
    ensures IsOnes(Ones(j))
  {
    hide Half;
    if j > 0 {
      hide IsOnes;
      OnesAreOnes(j - 1);
      HalfOfOnes(Ones(j - 1));
    }
  }

  lemma {:induction false} OnesStayZero(j: nat, k: nat)
    requires j <= k && Ones(j) == 0
    ensures Ones(k) == 0
  {
    hide Half;
    if j < k {
      OnesStayZero(j, k - 1);
      HalfOfZero();
    }
  }

  lemma OnesAreOdd(j: nat)
    requires j < 64
    ensures Odd(Ones(j))
  {
    hide Odd, IsOnes, Half, Ones;
    OnesRunOut();
    if Ones(j) == 0 {
      OnesStayZero(j, 63);
    }
    OnesAreOnes(j);
    OnesEndInOne(Ones(j));
  }

  lemma Halves(b: bv64)
    ensures Twice(Half(b), Odd(b)) == b
  {
  }

  lemma HalfMonotonic(b: bv64, ones: bv64)
    requires AtMost(b, ones)
    ensures AtMost(Half(b), Half(ones))
  {
  }

  lemma OddsUp(b: bv64, ones: bv64)
    requires AtMost(b, Half(ones)) && Odd(ones)
    ensures AtMost(Twice(b, true), ones)
  {
  }

  lemma EvensUp(b: bv64, ones: bv64)
    requires AtMost(b, Half(ones))
    ensures AtMost(Twice(b, false), ones)
  {
  }

  lemma TwiceBounded(b: bv64, odd: bool, ones: bv64)
    requires AtMost(b, Half(ones)) && Odd(ones)
    ensures AtMost(Twice(b, odd), ones)
  {
    hide Twice, Half, Odd, AtMost;
    if odd {
      OddsUp(b, ones);
    } else {
      EvensUp(b, ones);
    }
  }

  lemma HalfOfTwice(b: bv64, odd: bool, ones: bv64)
    requires AtMost(b, Half(ones))
    ensures Half(Twice(b, odd)) == b
  {
  }

  lemma OddOfTwice(b: bv64, odd: bool)
    ensures Odd(Twice(b, odd)) == odd
  {
  }

  lemma AtMostItself(b: bv64)
    ensures AtMost(b, b)
  {
  }

  lemma BelowNothing(b: bv64)
    requires AtMost(b, 0)
    ensures b == 0
  {
  }

  lemma FromNatHalves(n: nat)
    ensures FromNat(n) == Twice(FromNat(n / 2), n % 2 == 1)
  {
    hide Twice;
    TwiceZero();
  }

  lemma ToNatStep(b: bv64, k: nat)
    ensures ToNat(b, k + 1) / 2 == ToNat(Half(b), k)
    ensures (ToNat(b, k + 1) % 2 == 1) == Odd(b)
  {
    hide Half, Odd;
  }

  /** Every word is the counter after some number of increments below 2^64. */
  lemma {:induction false} FromNatToNat(b: bv64, j: nat)
    requires j <= 64 && AtMost(b, Ones(j))
    ensures FromNat(ToNat(b, 64 - j)) == b
    ensures ToNat(b, 64 - j) < Pow2(64 - j)
    decreases 64 - j
  {
    hide Twice, Half, Odd, Ones, FromNat, AtMost;
    if j == 64 {
      OnesRunOut();
      BelowNothing(b);
      FromNatZero();
    } else {
      HalfMonotonic(b, Ones(j));
      OnesStep(j);
      FromNatToNat(Half(b), j + 1);
      Halves(b);
      ToNatStep(b, 64 - j - 1);
      FromNatHalves(ToNat(b, 64 - j));
    }
  }

  /** And that number is unique. */
  lemma {:induction false} ToNatFromNat(n: nat, j: nat)
    requires j <= 64 && n < Pow2(64 - j)
    ensures AtMost(FromNat(n), Ones(j))
    ensures ToNat(FromNat(n), 64 - j) == n
    decreases 64 - j
  {
    hide Twice, Half, Odd, Ones, FromNat, AtMost;
    if j == 64 {
      OnesRunOut();
      FromNatZero();
      AtMostItself(0);
    } else {
      ToNatFromNat(n / 2, j + 1);
      OnesStep(j);
      OnesAreOdd(j);
      var b, odd := FromNat(n / 2), n % 2 == 1;
      FromNatHalves(n);
      TwiceBounded(b, odd, Ones(j));
      HalfOfTwice(b, odd, Ones(j));
      OddOfTwice(b, odd);
      ToNatStep(FromNat(n), 64 - j - 1);
    }
  }

  /** Counters fewer than 2^64 increments apart differ. */
  lemma CountersDiffer(i: nat, j: nat)
    requires i < j < i + TWO_TO_THE_64
    ensures FromNat(i) != FromNat(j)
  {
    hide FromNat, ToNat, Pow2, Ones, AtMost, Add;
    Pow2Of64();
    FromNatAdds(i, j - i);
    ToNatFromNat(j - i, 0);
    ToNatFromNat(0, 0);
    FromNatZero();
    AddCancels(FromNat(i), FromNat(j - i));
  }

  lemma FromNatZero()
    ensures FromNat(0) == 0
  {
  }

  // ---------------------------------------------------------------------------------------------
  // The generator
  // ---------------------------------------------------------------------------------------------

  /** What a call adds to the state. */
  function Step(s: bv64): bv64 { s + 0x9E37_79B9_7F4A_7C15 }

  /** The state after `n` calls. */
  function StateAt(seed: bv64, n: nat): bv64 {
    if n == 0 then seed else Step(StateAt(seed, n - 1))
  }

  /** What call number `n`, counted from zero, returns. */
  function Output(seed: bv64, n: nat): bv64 { Mix(StateAt(seed, n + 1)) }

  function Walk(seed: bv64, c: bv64): bv64 { seed + c * 0x9E37_79B9_7F4A_7C15 }

  function Unwalk(seed: bv64, s: bv64): bv64 { (s - seed) * 0xF1DE_83E1_9937_733D }

  lemma WalkOfTerm(seed: bv64, s: bv64)
    ensures Walk(seed, (s - seed) * 0xF1DE_83E1_9937_733D) == s
  {
  }

  lemma UnwalkOfTerm(seed: bv64, c: bv64)
    ensures Unwalk(seed, seed + c * 0x9E37_79B9_7F4A_7C15) == c
  {
  }

  lemma WalkIncTerm(seed: bv64, c: bv64)
    ensures Walk(seed, c + 1) == Step(seed + c * 0x9E37_79B9_7F4A_7C15)
  {
  }

  lemma WalkUnwalk(seed: bv64, s: bv64)
    ensures Walk(seed, Unwalk(seed, s)) == s
  {
    hide Walk;
    WalkOfTerm(seed, s);
  }

  lemma UnwalkWalk(seed: bv64, c: bv64)
    ensures Unwalk(seed, Walk(seed, c)) == c
  {
    hide Unwalk;
    UnwalkOfTerm(seed, c);
  }

  lemma WalkInc(seed: bv64, c: bv64)
    ensures Walk(seed, Inc(c)) == Step(Walk(seed, c))
  {
    assert Walk(seed, Inc(c)) == Step(seed + c * 0x9E37_79B9_7F4A_7C15) by {
      hide Walk, Step;
      WalkIncTerm(seed, c);
    }
    hide Inc, Step;
    assert Walk(seed, c) == seed + c * 0x9E37_79B9_7F4A_7C15;
  }

  lemma WalkZero(seed: bv64)
    ensures Walk(seed, 0) == seed
  {
  }

  lemma {:induction false} StateIsWalk(seed: bv64, n: nat)
    ensures StateAt(seed, n) == Walk(seed, FromNat(n))
  {
    hide Step, Walk, Inc, FromNat;
    FromNatZero();
    WalkZero(seed);
    if n > 0 {
      StateIsWalk(seed, n - 1);
      FromNatSuccessor(n - 1);
      WalkInc(seed, FromNat(n - 1));
    }
  }

  lemma {:induction false} StateShift(seed: bv64, n: nat)
    ensures StateAt(seed, n + 1) == StateAt(Step(seed), n)
  {
    hide Step;
    if n == 0 {
      assert StateAt(seed, 1) == Step(StateAt(seed, 0));
    } else {
      StateShift(seed, n - 1);
    }
  }

  /** Two outputs of one generator fewer than 2^64 calls apart differ. */
  lemma OutputsDiffer(seed: bv64, i: nat, j: nat)
    requires i < j < i + TWO_TO_THE_64
    ensures Output(seed, i) != Output(seed, j)
  {
    hide Mix, Unmix, FromNat, StateAt, Walk, Unwalk;
    CountersDiffer(i + 1, j + 1);
    StateIsWalk(seed, i + 1);
    StateIsWalk(seed, j + 1);
    UnwalkWalk(seed, FromNat(i + 1));
    UnwalkWalk(seed, FromNat(j + 1));
    MixBijective(StateAt(seed, i + 1));
    MixBijective(StateAt(seed, j + 1));
  }

  lemma WithinOnes(c: bv64)
    ensures AtMost(c, Ones(0))
  {
  }

  /** Full period: every word comes up within the first 2^64 calls. */
  lemma EveryWordComesUp(seed: bv64, w: bv64) returns (n: nat)
    ensures n < TWO_TO_THE_64 && Output(seed, n) == w
  {
    hide Mix, Unmix, FromNat, ToNat, StateAt, Step, Walk, Unwalk, Pow2, Ones, AtMost;
    // The first output comes from a state already one step past the seed.
    var start := Step(seed);
    var c := Unwalk(start, Unmix(w));
    Pow2Of64();
    WithinOnes(c);
    FromNatToNat(c, 0);
    n := ToNat(c, 64);
    StateShift(seed, n);
    StateIsWalk(start, n);
    WalkUnwalk(start, Unmix(w));
    MixBijective(w);
  }

  /** The sequence repeats after exactly 2^64 calls. */
  lemma Period(seed: bv64, n: nat) returns (m: nat)
    ensures m < TWO_TO_THE_64 && Output(seed, n) == Output(seed, m)
    ensures n < TWO_TO_THE_64 ==> m == n
  {
    hide Output;
    m := EveryWordComesUp(seed, Output(seed, n));
    if n < m {
      if n < TWO_TO_THE_64 {
        OutputsDiffer(seed, n, m);
      }
    } else if m < n < TWO_TO_THE_64 {
      OutputsDiffer(seed, m, n);
    }
  }

  // ---------------------------------------------------------------------------------------------
  // Reference values
  // ---------------------------------------------------------------------------------------------

  lemma MixValue0()
    ensures Mix(0x9E37_79B9_7F4A_7C15) == 0xE220_A839_7B1D_CDAF
  {
    assert Fold30(0x9E37_79B9_7F4A_7C15) == 0x9E37_79BB_0797_9AF0;
    assert Scale1(0x9E37_79BB_0797_9AF0) == 0x6F68_261B_57E7_A770;
    assert Fold27(0x6F68_261B_57E7_A770) == 0x6F68_2616_BAE3_641A;
    assert Scale2(0x6F68_2616_BAE3_641A) == 0xE220_A838_BF5C_9DDE;
    assert Fold31(0xE220_A838_BF5C_9DDE) == 0xE220_A839_7B1D_CDAF;
  }

  lemma MixValue1()
    ensures Mix(0x3C6E_F372_FE94_F82A) == 0x6E78_9E6A_A1B9_65F4
  {
    assert Fold30(0x3C6E_F372_FE94_F82A) == 0x3C6E_F372_0F2F_35E1;
    assert Scale1(0x3C6E_F372_0F2F_35E1) == 0x2A94_FCBF_CCB4_3499;
    assert Fold27(0x2A94_FCBF_CCB4_3499) == 0x2A94_FCBA_9E2B_A360;
    assert Scale2(0x2A94_FCBA_9E2B_A360) == 0x6E78_9E6A_7D48_5920;
    assert Fold31(0x6E78_9E6A_7D48_5920) == 0x6E78_9E6A_A1B9_65F4;
  }

  lemma MixValue2()
    ensures Mix(0xDAA6_6D2C_7DDF_743F) == 0x06C4_5D18_8009_454F
  {
    assert Fold30(0xDAA6_6D2C_7DDF_743F) == 0xDAA6_6D2F_1746_C08E;
    assert Scale1(0xDAA6_6D2F_1746_C08E) == 0xF1C3_DD63_22D8_2C9E;
    assert Fold27(0xF1C3_DD63_22D8_2C9E) == 0xF1C3_DD7D_1AA3_80FA;
    assert Scale2(0xF1C3_DD7D_1AA3_80FA) == 0x06C4_5D18_8D81_FF7E;
    assert Fold31(0x06C4_5D18_8D81_FF7E) == 0x06C4_5D18_8009_454F;
  }

  /** The first outputs from seed zero. */
  lemma ReferenceOutputs()
    ensures Output(0, 0) == 0xE220_A839_7B1D_CDAF
    ensures Output(0, 1) == 0x6E78_9E6A_A1B9_65F4
    ensures Output(0, 2) == 0x06C4_5D18_8009_454F
  {
    hide Mix;
    MixValue0();
    MixValue1();
    MixValue2();
    assert StateAt(0, 1) == 0x9E37_79B9_7F4A_7C15;
    assert StateAt(0, 2) == 0x3C6E_F372_FE94_F82A;
    assert StateAt(0, 3) == 0xDAA6_6D2C_7DDF_743F;
  }
}
