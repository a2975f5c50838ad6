/** The synthetic state generator: what it draws, in which order, and the exact shape that follows. */
module Synth {
  import opened Trie
  import opened SplitMix
  import opened Sequences
  import opened MemoryStates

  // ---------------------------------------------------------------------------------------------
  // Words as bytes
  // ---------------------------------------------------------------------------------------------

  function LittleEndian(n: nat, k: nat): (b: Bytes)
    ensures |b| == k
  {
    if k == 0 then [] else [n % 256] + LittleEndian(n / 256, k - 1)
  }

  function FromLittleEndian(b: Bytes): nat {
    if b == [] then 0 else b[0] + 256 * FromLittleEndian(b[1..])
  }

  function Pow256(k: nat): (p: nat)
    ensures p > 0
  {
    if k == 0 then 1 else 256 * Pow256(k - 1)
  }

  lemma {:induction false} LittleEndianRoundTrip(n: nat, k: nat)
    requires n < Pow256(k)
    ensures FromLittleEndian(LittleEndian(n, k)) == n
  {
    if k > 0 {
      LittleEndianRoundTrip(n / 256, k - 1);
      assert LittleEndian(n, k)[1..] == LittleEndian(n / 256, k - 1);
    }
  }

  lemma EightBytes()
    ensures Pow256(8) == TWO_TO_THE_64
  {
    assert Pow256(4) == 0x1_0000_0000;
    assert Pow256(6) == 0x1_0000_0000_0000;
  }

  /** A word as a number. */
  function Value(w: bv64): (n: nat)
    ensures n < TWO_TO_THE_64
  {
    w as int
  }

  lemma ValueInjective(v: bv64, w: bv64)
    requires Value(v) == Value(w)
    ensures v == w
  {
    assert (v as int) as bv64 == v;
    assert (w as int) as bv64 == w;
  }

  function WordBytes(w: bv64): (b: Bytes)
    ensures |b| == 8
  {
    LittleEndian(Value(w), 8)
  }

  lemma WordBytesInjective(v: bv64, w: bv64)
    requires WordBytes(v) == WordBytes(w)
    ensures v == w
  {
    hide Value, LittleEndian, FromLittleEndian, Pow256;
    EightBytes();
    LittleEndianRoundTrip(Value(v), 8);
    LittleEndianRoundTrip(Value(w), 8);
    ValueInjective(v, w);
  }

  // ---------------------------------------------------------------------------------------------
  // Draws by position
  // ---------------------------------------------------------------------------------------------

  /** Draw number `n` as a number. */
  function Draw(seed: bv64, n: nat): U64 { Value(Output(seed, n)) }

  /** The bytes of `words` draws from number `n` on. */
  function DrawnBytes(seed: bv64, n: nat, words: nat): (b: Bytes)
    ensures |b| == 8 * words
  {
    if words == 0 then [] else DrawnBytes(seed, n, words - 1) + WordBytes(Output(seed, n + words - 1))
  }

  /** The 32 bytes of four draws from number `n` on. */
  function KeyAt(seed: bv64, n: nat): B256 { DrawnBytes(seed, n, 4) }

  lemma FirstWord(seed: bv64, n: nat, words: nat)
    requires words > 0
    ensures DrawnBytes(seed, n, words)[..8] == WordBytes(Output(seed, n))
  {
    hide Output, WordBytes;
    if words == 1 {
      assert DrawnBytes(seed, n, 1) == WordBytes(Output(seed, n));
    } else {
      FirstWord(seed, n, words - 1);
    }
  }

  lemma {:induction false} LittleEndianAt(n: nat, k: nat, i: nat)
    requires i < k
    ensures LittleEndian(n, k)[i] == n / Pow256(i) % 256
  {
    if i > 0 {
      LittleEndianAt(n / 256, k - 1, i - 1);
      DivideTwice(n, Pow256(i - 1));
    }
  }

  lemma DivideTwice(n: nat, d: nat)
    requires d > 0
    ensures n / 256 / d == n / (256 * d)
  {
    var q, r := n / 256 / d, n / 256 % d;
    var low := n % 256;
    assert n / 256 == q * d + r;
    assert n == 256 * (q * d + r) + low;
    DivisionIs(n, 256 * d, q, 256 * r + low);
  }

  lemma Multiples(e: int, d: nat)
    ensures e >= 1 ==> e * d >= d
    ensures e <= -1 ==> e * d + d <= 0
  {
  }

  lemma DivisionIs(n: nat, d: nat, q: nat, r: nat)
    requires n == q * d + r && r < d
    ensures n / d == q
  {
    var k, rest := n / d, n % d;
    assert n == k * d + rest;
    assert (q - k) * d == rest - r;
    Multiples(q - k, d);
  }

  lemma {:induction false} DrawnByte(seed: bv64, n: nat, words: nat, i: nat)
    requires i < 8 * words
    ensures DrawnBytes(seed, n, words)[i] == WordBytes(Output(seed, n + i / 8))[i % 8]
  {
    hide Output, WordBytes;
    if i < 8 * (words - 1) {
      DrawnByte(seed, n, words - 1, i);
    }
  }

  /** Byte `i` of a key: draw number `i / 8` after the first, its low byte first. */
  lemma KeyByte(seed: bv64, n: nat, i: nat)
    requires i < 32
    ensures KeyAt(seed, n)[i] == Value(Output(seed, n + i / 8)) / Pow256(i % 8) % 256
  {
    hide Output, Value, Pow256, DrawnBytes;
    DrawnByte(seed, n, 4, i);
    LittleEndianAt(Value(Output(seed, n + i / 8)), 8, i % 8);
  }

  /** Keys drawn at different positions differ, as long as the generator has not gone round. */
  lemma KeysDiffer(seed: bv64, i: nat, j: nat)
    requires i < j < i + TWO_TO_THE_64
    ensures KeyAt(seed, i) != KeyAt(seed, j)
  {
    hide Output, WordBytes, DrawnBytes;
    OutputsDiffer(seed, i, j);
    FirstWord(seed, i, 4);
    FirstWord(seed, j, 4);
    if KeyAt(seed, i) == KeyAt(seed, j) {
      WordBytesInjective(Output(seed, i), Output(seed, j));
    }
  }

  lemma StepAddsGamma(s: bv64)
    ensures Step(s) == s + 0x9E37_79B9_7F4A_7C15
  {
  }

  class Rng {
    var state: bv64
    ghost const seed: bv64
    ghost var drawn: nat

    ghost predicate Valid()
      reads this
    {
      state == StateAt(seed, drawn)
    }

    constructor (seed: bv64)
      ensures Valid() && this.seed == seed && drawn == 0
    {
      this.state := seed;
      this.seed := seed;
      this.drawn := 0;
    }

    method NextU64() returns (z: bv64)
      requires Valid()
      modifies this
      ensures Valid() && drawn == old(drawn) + 1
      ensures z == Output(seed, old(drawn))
      ensures state == old(state) + 0x9E37_79B9_7F4A_7C15 && Unmix(z) == state
    {
      hide Unmix, Step, Fold30, Fold27, Fold31, Scale1, Scale2;
      StepAddsGamma(state);
      MixBijective(Step(state));
      state := Step(state);
      drawn := drawn + 1;
      z := state;
      z := Scale1(Fold30(z));
      z := Scale2(Fold27(z));
      z := Fold31(z);
    }

    method NextB256() returns (key: B256)
      requires Valid()
      modifies this
      ensures Valid() && drawn == old(drawn) + 4
      ensures key == KeyAt(seed, old(drawn))
    {
      hide Output, WordBytes, StateAt;
      var out := new Byte[32](_ => 0);
      for chunk := 0 to 4
        invariant Valid() && drawn == old(drawn) + chunk
        invariant out[..8 * chunk] == DrawnBytes(seed, old(drawn), chunk)
      {
        var word := NextU64();
        var bytes := WordBytes(word);
        ghost var before := out[..8 * chunk];
        forall k | 0 <= k < 8 {
          out[8 * chunk + k] := bytes[k];
        }
        assert out[..8 * chunk] == before;
        assert out[..8 * (chunk + 1)] == out[..8 * chunk] + bytes;
      }
      assert out[..32] == out[..];
      key := out[..];
    }

    /** The remainder by zero panics, so callers may not ask for it. */
    method Below(n: nat) returns (r: nat)
      requires Valid() && n > 0
      modifies this
      ensures Valid() && drawn == old(drawn) + 1
      ensures r == Draw(seed, old(drawn)) % n < n
    {
      hide Output, StateAt, Value;
      var word := NextU64();
      r := Value(word) % n;
    }
  }

  // ---------------------------------------------------------------------------------------------
  // The state as a function of the draws
  // ---------------------------------------------------------------------------------------------

  datatype SynthConfig = SynthConfig(
    seed: bv64, eoas: nat, smallContracts: nat, smallSlotsMax: nat, largeContracts: seq<nat>)
  {
    /** Small contracts draw their size below the maximum, and drawing below zero panics. */
    predicate Valid() { smallContracts > 0 ==> smallSlotsMax > 0 }
  }

  function EoaAccount(seed: bv64, p: nat): Account {
    Account(Draw(seed, p + 4) % 50, Draw(seed, p + 5), None)
  }

  /** Four draws for the key, one for the nonce, one for the balance. */
  function WithEoas(seed: bv64, n: nat): map<B256, Account> {
    if n == 0 then map[] else
      var p := 6 * (n - 1);
      WithEoas(seed, n - 1)[KeyAt(seed, p) := EoaAccount(seed, p)]
  }

  function SmallSizes(c: SynthConfig, n: nat): (sizes: seq<nat>)
    requires n > 0 ==> c.smallSlotsMax > 0
    ensures |sizes| == n
  {
    if n == 0 then [] else
      SmallSizes(c, n - 1) + [1 + Draw(c.seed, 6 * c.eoas + n - 1) % c.smallSlotsMax]
  }

  function Sizes(c: SynthConfig): seq<nat>
    requires c.Valid()
  {
    SmallSizes(c, c.smallContracts) + c.largeContracts
  }

  /** The draw at which contract `n` begins: its key, balance and code take nine, each slot five. */
  function Start(first: nat, sizes: seq<nat>, n: nat): nat
    requires n <= |sizes|
  {
    if n == 0 then first else Start(first, sizes, n - 1) + 9 + 5 * sizes[n - 1]
  }

  function ContractAccount(seed: bv64, p: nat): Account {
    Account(1, Draw(seed, p + 4) % 1_000_000, Some(KeyAt(seed, p + 5)))
  }

  function SlotValue(seed: bv64, p: nat): U256 { 1 + Draw(seed, p) % 0xFFFF_FFFF }

  /** `n` slots drawn from `p` on: each a value, then its key. */
  function DrawnSlots(seed: bv64, p: nat, n: nat): Slots {
    if n == 0 then map[] else
      DrawnSlots(seed, p, n - 1)[KeyAt(seed, p + 5 * (n - 1) + 1) := SlotValue(seed, p + 5 * (n - 1))]
  }

  function WithContracts(seed: bv64, base: map<B256, Account>, first: nat, sizes: seq<nat>, n: nat): map<B256, Account>
    requires n <= |sizes|
  {
    if n == 0 then base else
      var p := Start(first, sizes, n - 1);
      WithContracts(seed, base, first, sizes, n - 1)[KeyAt(seed, p) := ContractAccount(seed, p)]
  }

  /** No slots, no entry: `insert_storage` is never called. */
  function AddSlots(storages: Storages, address: B256, slots: Slots): Storages {
    if slots == map[] then storages else storages[address := SlotsOf(storages, address) + slots]
  }

  function WithStorages(seed: bv64, first: nat, sizes: seq<nat>, n: nat): Storages
    requires n <= |sizes|
  {
    if n == 0 then map[] else
      var p := Start(first, sizes, n - 1);
      AddSlots(WithStorages(seed, first, sizes, n - 1), KeyAt(seed, p), DrawnSlots(seed, p + 9, sizes[n - 1]))
  }

  /** The draws made before the first contract. */
  function FirstContract(c: SynthConfig): nat { 6 * c.eoas + c.smallContracts }

  function SynthAccounts(c: SynthConfig): map<B256, Account>
    requires c.Valid()
  {
    WithContracts(c.seed, WithEoas(c.seed, c.eoas), FirstContract(c), Sizes(c), |Sizes(c)|)
  }

  function SynthStorages(c: SynthConfig): Storages
    requires c.Valid()
  {
    WithStorages(c.seed, FirstContract(c), Sizes(c), |Sizes(c)|)
  }

  function TotalDraws(c: SynthConfig): nat
    requires c.Valid()
  {
    Start(FirstContract(c), Sizes(c), |Sizes(c)|)
  }

  lemma AddOneSlot(storages: Storages, address: B256, slots: Slots, slot: B256, value: U256)
    requires value != 0
    ensures SetSlot(AddSlots(storages, address, slots), address, slot, value)
         == AddSlots(storages, address, slots[slot := value])
  {
    var before := SlotsOf(storages, address);
    var after := slots[slot := value];
    assert slot in after;
    if slots == map[] {
      assert before[slot := value] == before + after;
    } else {
      assert (before + slots)[slot := value] == before + after;
      assert SlotsOf(AddSlots(storages, address, slots), address) == before + slots;
    }
  }

  /** A plain account: its key, then a nonce below 50, then a whole word as its balance. */
  method InsertEoa(rng: Rng, state: MemoryState)
    requires rng.Valid()
    modifies rng, state
    ensures rng.Valid() && rng.drawn == old(rng.drawn) + 6
    ensures state.Valid() && state.sorted.None? && state.storages == old(state.storages)
    ensures state.accounts
         == old(state.accounts)[KeyAt(rng.seed, old(rng.drawn)) := EoaAccount(rng.seed, old(rng.drawn))]
    ensures var a := state.accounts[KeyAt(rng.seed, old(rng.drawn))];
      && a.nonce == Value(Output(rng.seed, old(rng.drawn) + 4)) % 50
      && a.balance == Value(Output(rng.seed, old(rng.drawn) + 5))
      && a.bytecodeHash == None
  {
    hide KeyAt, Output, StateAt, Value, IntoSorted, Normalised;
    var key := rng.NextB256();
    var nonce := rng.Below(50);
    var balance := rng.NextU64();
    state.InsertAccount(key, Account(nonce, Value(balance), None));
  }

  /** The slots of one contract. */
  method InsertSlots(rng: Rng, state: MemoryState, key: B256, slots: nat)
    requires rng.Valid()
    modifies rng, state
    ensures rng.Valid() && rng.drawn == old(rng.drawn) + 5 * slots
    ensures state.accounts == old(state.accounts)
    ensures state.storages == AddSlots(old(state.storages), key, DrawnSlots(rng.seed, old(rng.drawn), slots))
    ensures old(state.sorted.None?) ==> state.sorted.None?
  {
    hide KeyAt, Draw, SetSlot, AddSlots, SlotsOf, Output, StateAt, IntoSorted, Normalised;
    ghost var p, storages := rng.drawn, state.storages;
    NoSlotsYet(storages, key);
    for t := 0 to slots
      invariant rng.Valid() && rng.drawn == p + 5 * t
      invariant state.accounts == old(state.accounts) && (old(state.sorted.None?) ==> state.sorted.None?)
      invariant state.storages == AddSlots(storages, key, DrawnSlots(rng.seed, p, t))
    {
      var value := rng.Below(0xFFFF_FFFF);
      var slot := rng.NextB256();
      AddOneSlot(storages, key, DrawnSlots(rng.seed, p, t), slot, 1 + value);
      state.InsertStorage(key, slot, 1 + value);
    }
  }

  /** One contract: its account, then its slots. */
  method InsertContract(rng: Rng, state: MemoryState, slots: nat)
    requires rng.Valid()
    modifies rng, state
    ensures rng.Valid() && rng.drawn == old(rng.drawn) + 9 + 5 * slots
    ensures state.sorted.None?
    ensures state.accounts
         == old(state.accounts)[KeyAt(rng.seed, old(rng.drawn)) := ContractAccount(rng.seed, old(rng.drawn))]
    ensures state.storages
         == AddSlots(old(state.storages), KeyAt(rng.seed, old(rng.drawn)),
                     DrawnSlots(rng.seed, old(rng.drawn) + 9, slots))
  {
    hide KeyAt, Draw, AddSlots, DrawnSlots, Output, StateAt, IntoSorted, Normalised;
    var key := rng.NextB256();
    var balance := rng.Below(1_000_000);
    var code := rng.NextB256();
    state.InsertAccount(key, Account(1, balance, Some(code)));
    InsertSlots(rng, state, key, slots);
  }

  method InsertEoas(rng: Rng, state: MemoryState, n: nat)
    requires rng.Valid() && rng.drawn == 0 && state.accounts == map[] && state.sorted.None?
    modifies rng, state
    ensures rng.Valid() && rng.drawn == 6 * n
    ensures state.accounts == WithEoas(rng.seed, n) && state.storages == old(state.storages) && state.sorted.None?
  {
    hide KeyAt, EoaAccount, StateAt, IntoSorted, Normalised;
    for i := 0 to n
      invariant rng.Valid() && rng.drawn == 6 * i
      invariant state.accounts == WithEoas(rng.seed, i) && state.storages == old(state.storages) && state.sorted.None?
    {
      InsertEoa(rng, state);
    }
  }

  method DrawSizes(rng: Rng, c: SynthConfig) returns (sizes: seq<nat>)
    requires rng.Valid() && rng.seed == c.seed && c.Valid() && rng.drawn == 6 * c.eoas
    modifies rng
    ensures rng.Valid() && rng.drawn == FirstContract(c) && sizes == Sizes(c)
  {
    hide Draw, StateAt;
    sizes := [];
    for j := 0 to c.smallContracts
      invariant rng.Valid() && rng.drawn == 6 * c.eoas + j
      invariant sizes == SmallSizes(c, j)
    {
      var size := rng.Below(c.smallSlotsMax);
      sizes := sizes + [1 + size];
    }
    sizes := sizes + c.largeContracts;
  }

  method InsertContracts(rng: Rng, state: MemoryState, sizes: seq<nat>)
    requires rng.Valid() && state.storages == map[] && state.sorted.None?
    modifies rng, state
    ensures state.sorted.None?
    ensures state.accounts == WithContracts(rng.seed, old(state.accounts), old(rng.drawn), sizes, |sizes|)
    ensures state.storages == WithStorages(rng.seed, old(rng.drawn), sizes, |sizes|)
  {
    hide KeyAt, AddSlots, DrawnSlots, ContractAccount, StateAt, IntoSorted, Normalised;
    ghost var base, first := state.accounts, rng.drawn;
    for n := 0 to |sizes|
      invariant rng.Valid() && rng.drawn == Start(first, sizes, n) && state.sorted.None?
      invariant state.accounts == WithContracts(rng.seed, base, first, sizes, n)
      invariant state.storages == WithStorages(rng.seed, first, sizes, n)
    {
      InsertContract(rng, state, sizes[n]);
    }
  }

  method Synthesize(c: SynthConfig) returns (state: MemoryState)
    requires c.Valid()
    ensures fresh(state) && state.Valid() && state.sorted.None?
    ensures state.accounts == SynthAccounts(c) && state.storages == SynthStorages(c)
    ensures TotalDraws(c) <= TWO_TO_THE_64 ==> StateAsDrawn(c, state.accounts, state.storages)
  {
    hide StateAsDrawn, WithEoas, WithContracts, WithStorages, Sizes, StateAt, IntoSorted, Normalised;
    var rng := new Rng(c.seed);
    state := new MemoryState();
    InsertEoas(rng, state, c.eoas);
    var sizes := DrawSizes(rng, c);
    InsertContracts(rng, state, sizes);
    if TotalDraws(c) <= TWO_TO_THE_64 {
      SynthesisAsDrawn(c);
    }
  }

  lemma NoSlotsYet(storages: Storages, address: B256)
    ensures AddSlots(storages, address, map[]) == storages
  {
  }

  // ---------------------------------------------------------------------------------------------
  // The exact shape
  // ---------------------------------------------------------------------------------------------

  /** All the keys were drawn before draw number `end`. */
  ghost predicate DrawnBefore(seed: bv64, keys: set<B256>, end: nat) {
    forall k :: k in keys ==> exists q: nat :: q < end && k == KeyAt(seed, q)
  }

  lemma FreshKey(seed: bv64, keys: set<B256>, p: nat)
    requires DrawnBefore(seed, keys, p) && p < TWO_TO_THE_64
    ensures KeyAt(seed, p) !in keys
  {
    hide KeyAt;
    if KeyAt(seed, p) in keys {
      var q: nat :| q < p && KeyAt(seed, p) == KeyAt(seed, q);
      KeysDiffer(seed, q, p);
    }
  }

  lemma OneMoreKey(seed: bv64, keys: set<B256>, p: nat, end: nat)
    requires DrawnBefore(seed, keys, p) && p < end
    ensures DrawnBefore(seed, keys + {KeyAt(seed, p)}, end)
  {
    hide KeyAt;
  }

  lemma Later(seed: bv64, keys: set<B256>, p: nat, end: nat)
    requires DrawnBefore(seed, keys, p) && p <= end
    ensures DrawnBefore(seed, keys, end)
  {
    hide KeyAt;
  }

  lemma {:induction false} EoasExact(seed: bv64, n: nat)
    requires 6 * n <= TWO_TO_THE_64
    ensures |WithEoas(seed, n)| == n && DrawnBefore(seed, WithEoas(seed, n).Keys, 6 * n)
  {
    hide KeyAt, Draw;
    if n > 0 {
      hide DrawnBefore;
      EoasExact(seed, n - 1);
      var m, p := WithEoas(seed, n - 1), 6 * (n - 1);
      FreshKey(seed, m.Keys, p);
      OneMoreKey(seed, m.Keys, p, 6 * n);
      assert WithEoas(seed, n).Keys == m.Keys + {KeyAt(seed, p)};
    }
  }

  lemma {:induction false} SlotsExact(seed: bv64, p: nat, n: nat)
    requires p + 5 * n <= TWO_TO_THE_64
    ensures |DrawnSlots(seed, p, n)| == n && DrawnBefore(seed, DrawnSlots(seed, p, n).Keys, p + 5 * n)
  {
    hide KeyAt, Draw;
    if n > 0 {
      hide DrawnBefore;
      SlotsExact(seed, p, n - 1);
      var m, q := DrawnSlots(seed, p, n - 1), p + 5 * (n - 1);
      Later(seed, m.Keys, q, q + 1);
      FreshKey(seed, m.Keys, q + 1);
      OneMoreKey(seed, m.Keys, q + 1, p + 5 * n);
      assert DrawnSlots(seed, p, n).Keys == m.Keys + {KeyAt(seed, q + 1)};
    }
  }

  lemma {:induction false} ContractsExact(seed: bv64, base: map<B256, Account>, first: nat, sizes: seq<nat>, n: nat)
    requires n <= |sizes| && Start(first, sizes, n) <= TWO_TO_THE_64 && DrawnBefore(seed, base.Keys, first)
    ensures |WithContracts(seed, base, first, sizes, n)| == |base| + n
    ensures DrawnBefore(seed, WithContracts(seed, base, first, sizes, n).Keys, Start(first, sizes, n))
  {
    hide KeyAt, Draw, DrawnBefore;
    if n > 0 {
      ContractsExact(seed, base, first, sizes, n - 1);
      var m, p := WithContracts(seed, base, first, sizes, n - 1), Start(first, sizes, n - 1);
      FreshKey(seed, m.Keys, p);
      OneMoreKey(seed, m.Keys, p, Start(first, sizes, n));
      assert WithContracts(seed, base, first, sizes, n).Keys == m.Keys + {KeyAt(seed, p)};
    }
  }

  lemma AddToNewAddress(storages: Storages, address: B256, slots: Slots)
    requires address !in storages
    ensures AddSlots(storages, address, slots) == if slots == map[] then storages else storages[address := slots]
  {
    assert SlotsOf(storages, address) + slots == slots;
  }

  lemma CountOfNewAddress(storages: Storages, address: B256, slots: Slots)
    requires address !in storages
    ensures SlotCount(storages[address := slots]) == SlotCount(storages) + |slots|
  {
    hide SlotKeys;
    var after := storages[address := slots];
    KeysOfOneMore(after, storages.Keys, address);
    assert after.Keys == storages.Keys + {address};
    SameSlotKeys(after, storages, storages.Keys);
  }

  lemma KeysOfNewAddress(storages: Storages, address: B256, slots: Slots)
    requires address !in storages
    ensures SlotCount(AddSlots(storages, address, slots)) == SlotCount(storages) + |slots|
  {
    hide SlotCount, AddSlots;
    AddToNewAddress(storages, address, slots);
    if slots != map[] {
      CountOfNewAddress(storages, address, slots);
    }
  }

  lemma OneMoreStorage(seed: bv64, first: nat, sizes: seq<nat>, n: nat)
    requires 0 < n <= |sizes|
    ensures var p := Start(first, sizes, n - 1);
      WithStorages(seed, first, sizes, n)
        == AddSlots(WithStorages(seed, first, sizes, n - 1), KeyAt(seed, p), DrawnSlots(seed, p + 9, sizes[n - 1]))
  {
    hide KeyAt, DrawnSlots, AddSlots;
  }

  lemma NothingStored(seed: bv64, base: map<B256, Account>, first: nat, sizes: seq<nat>)
    ensures WithStorages(seed, first, sizes, 0) == map[] && WithContracts(seed, base, first, sizes, 0) == base
  {
  }

  lemma SumOfNothing()
    ensures SumOf(Itself, []) == 0
  {
  }

  lemma NothingCounted()
    ensures SlotCount(map[]) == 0
  {
    assert SlotKeys(map[], {}) == {};
  }

  /** Only contracts have slots. */
  lemma {:induction false} StoragesHaveAccounts(seed: bv64, base: map<B256, Account>, first: nat, sizes: seq<nat>,
          n: nat)
    requires n <= |sizes|
    ensures WithStorages(seed, first, sizes, n).Keys <= WithContracts(seed, base, first, sizes, n).Keys
  {
    hide KeyAt, Draw, SlotsOf, DrawnSlots;
    if n > 0 {
      StoragesHaveAccounts(seed, base, first, sizes, n - 1);
    }
  }

  /** A new contract's address is new, and brings the slots drawn for it. */
  lemma NewContract(seed: bv64, base: map<B256, Account>, first: nat, sizes: seq<nat>, n: nat)
    requires n < |sizes| && Start(first, sizes, n + 1) <= TWO_TO_THE_64 && DrawnBefore(seed, base.Keys, first)
    ensures KeyAt(seed, Start(first, sizes, n)) !in WithStorages(seed, first, sizes, n)
    ensures |DrawnSlots(seed, Start(first, sizes, n) + 9, sizes[n])| == sizes[n]
  {
    hide KeyAt, Draw, DrawnBefore, DrawnSlots, WithStorages, WithContracts;
    StoragesHaveAccounts(seed, base, first, sizes, n);
    ContractsExact(seed, base, first, sizes, n);
    FreshKey(seed, WithContracts(seed, base, first, sizes, n).Keys, Start(first, sizes, n));
    SlotsExact(seed, Start(first, sizes, n) + 9, sizes[n]);
  }

  lemma PrefixSum(sizes: seq<nat>, n: nat)
    requires 0 < n <= |sizes|
    ensures SumOf(Itself, sizes[..n]) == SumOf(Itself, sizes[..n - 1]) + sizes[n - 1]
  {
    hide SumOf;
    assert sizes[..n] == sizes[..n - 1] + [sizes[n - 1]];
    SumAppend(Itself, sizes[..n - 1], sizes[n - 1]);
  }

  lemma SlotsOfContract(seed: bv64, base: map<B256, Account>, first: nat, sizes: seq<nat>, n: nat)
    requires n < |sizes| && Start(first, sizes, n + 1) <= TWO_TO_THE_64 && DrawnBefore(seed, base.Keys, first)
    ensures SlotCount(WithStorages(seed, first, sizes, n + 1))
      == SlotCount(WithStorages(seed, first, sizes, n)) + sizes[n]
  {
    hide KeyAt, DrawnBefore, SlotCount, DrawnSlots, AddSlots, WithStorages;
    var p := Start(first, sizes, n);
    OneMoreStorage(seed, first, sizes, n + 1);
    NewContract(seed, base, first, sizes, n);
    KeysOfNewAddress(WithStorages(seed, first, sizes, n), KeyAt(seed, p), DrawnSlots(seed, p + 9, sizes[n]));
  }

  /** The slots are exactly those drawn. */
  lemma {:induction false} StoragesExact(seed: bv64, base: map<B256, Account>, first: nat, sizes: seq<nat>, n: nat)
    requires n <= |sizes| && Start(first, sizes, n) <= TWO_TO_THE_64 && DrawnBefore(seed, base.Keys, first)
    ensures SlotCount(WithStorages(seed, first, sizes, n)) == SumOf(Itself, sizes[..n])
  {
    hide DrawnBefore, SlotCount, SumOf, WithStorages;
    if n == 0 {
      NothingStored(seed, base, first, sizes);
      NothingCounted();
      SumOfNothing();
      assert sizes[..0] == [];
    } else {
      StoragesExact(seed, base, first, sizes, n - 1);
      SlotsOfContract(seed, base, first, sizes, n - 1);
      PrefixSum(sizes, n);
    }
  }

  lemma {:induction false} StartGrows(first: nat, sizes: seq<nat>, m: nat, n: nat)
    requires m < n <= |sizes|
    ensures Start(first, sizes, m) + 9 + 5 * sizes[m] <= Start(first, sizes, n)
  {
    if m < n - 1 {
      StartGrows(first, sizes, m, n - 1);
    }
  }

  /** Later contracts do not touch the slots of an earlier one. */
  lemma {:induction false} ContractSlots(seed: bv64, base: map<B256, Account>, first: nat, sizes: seq<nat>, m: nat,
          n: nat)
    requires m < n <= |sizes| && Start(first, sizes, n) <= TWO_TO_THE_64 && DrawnBefore(seed, base.Keys, first)
    ensures SlotsOf(WithStorages(seed, first, sizes, n), KeyAt(seed, Start(first, sizes, m)))
         == DrawnSlots(seed, Start(first, sizes, m) + 9, sizes[m])
  {
    hide KeyAt, DrawnBefore, DrawnSlots, AddSlots, SlotsOf, WithStorages;
    var p, q := Start(first, sizes, m), Start(first, sizes, n - 1);
    OneMoreStorage(seed, first, sizes, n);
    if m == n - 1 {
      NewContract(seed, base, first, sizes, m);
    } else {
      ContractSlots(seed, base, first, sizes, m, n - 1);
      StartGrows(first, sizes, m, n - 1);
      KeysDiffer(seed, p, q);
    }
    SlotsAfterAdding(WithStorages(seed, first, sizes, n - 1), KeyAt(seed, q), DrawnSlots(seed, q + 9, sizes[n - 1]),
                     KeyAt(seed, p));
  }

  lemma SlotsAfterAdding(storages: Storages, address: B256, slots: Slots, other: B256)
    ensures address !in storages && other == address ==> SlotsOf(AddSlots(storages, address, slots), other) == slots
    ensures other != address ==> SlotsOf(AddSlots(storages, address, slots), other) == SlotsOf(storages, other)
  {
    if address !in storages {
      assert SlotsOf(storages, address) + slots == slots;
    }
  }

  lemma {:induction false} SmallSizesInRange(c: SynthConfig, n: nat, j: nat)
    requires j < n && c.smallSlotsMax > 0
    ensures 1 <= SmallSizes(c, n)[j] <= c.smallSlotsMax
  {
    hide Draw;
    if j < n - 1 {
      SmallSizesInRange(c, n - 1, j);
    }
  }

  lemma {:induction false} ValuesNotZero(seed: bv64, p: nat, n: nat, k: B256)
    requires k in DrawnSlots(seed, p, n)
    ensures 1 <= DrawnSlots(seed, p, n)[k] <= 0xFFFF_FFFF
  {
    hide KeyAt, Draw;
    if k in DrawnSlots(seed, p, n - 1) {
      ValuesNotZero(seed, p, n - 1, k);
    }
  }

  /**
   * As long as the generator does not go round, no two keys collide: the counts are exact, and
   * every slot's address has an account.
   */
  lemma SynthesisIsExact(c: SynthConfig)
    requires c.Valid() && TotalDraws(c) <= TWO_TO_THE_64
    ensures |SynthAccounts(c)| == c.eoas + c.smallContracts + |c.largeContracts|
    ensures SlotCount(SynthStorages(c)) == SumOf(Itself, Sizes(c))
    ensures NoOrphans(SynthAccounts(c), SynthStorages(c))
  {
    hide WithEoas, WithContracts, WithStorages, DrawnBefore, SmallSizes, SlotCount, SumOf, KeyAt;
    FirstContractIsReached(c);
    EoasExact(c.seed, c.eoas);
    var base := WithEoas(c.seed, c.eoas);
    Later(c.seed, base.Keys, 6 * c.eoas, FirstContract(c));
    ContractsExact(c.seed, base, FirstContract(c), Sizes(c), |Sizes(c)|);
    StoragesExact(c.seed, base, FirstContract(c), Sizes(c), |Sizes(c)|);
    StoragesHaveAccounts(c.seed, base, FirstContract(c), Sizes(c), |Sizes(c)|);
    assert Sizes(c)[..|Sizes(c)|] == Sizes(c);
  }

  lemma FirstContractIsReached(c: SynthConfig)
    requires c.Valid()
    ensures FirstContract(c) <= TotalDraws(c)
  {
    StartFromFirst(FirstContract(c), Sizes(c), |Sizes(c)|);
  }

  lemma {:induction false} StartFromFirst(first: nat, sizes: seq<nat>, n: nat)
    requires n <= |sizes|
    ensures first <= Start(first, sizes, n)
  {
    if n > 0 {
      StartFromFirst(first, sizes, n - 1);
    }
  }

  /**
   * Contract `n` has exactly as many slots as drawn for it: small ones between one and the maximum,
   * large ones as configured, all of them with values that are not zero.
   */
  lemma ContractIsExact(c: SynthConfig, n: nat)
    requires c.Valid() && TotalDraws(c) <= TWO_TO_THE_64 && n < |Sizes(c)|
    ensures var slots := SlotsOf(SynthStorages(c), KeyAt(c.seed, Start(FirstContract(c), Sizes(c), n)));
      && |slots| == Sizes(c)[n]
      && (n < c.smallContracts ==> 1 <= |slots| <= c.smallSlotsMax)
      && (n >= c.smallContracts ==> |slots| == c.largeContracts[n - c.smallContracts])
      && (forall k :: k in slots ==> 1 <= slots[k] <= 0xFFFF_FFFF)
  {
    hide WithEoas, WithContracts, WithStorages, DrawnBefore, SmallSizes, SlotCount, KeyAt, DrawnSlots;
    FirstContractIsReached(c);
    EoasExact(c.seed, c.eoas);
    var base, sizes, first := WithEoas(c.seed, c.eoas), Sizes(c), FirstContract(c);
    Later(c.seed, base.Keys, 6 * c.eoas, first);
    ContractSlots(c.seed, base, first, sizes, n, |sizes|);
    StartGrows(first, sizes, n, |sizes|);
    var p := Start(first, sizes, n) + 9;
    SlotsExact(c.seed, p, sizes[n]);
    if n < c.smallContracts {
      SmallSizesInRange(c, c.smallContracts, n);
    }
    forall k | k in DrawnSlots(c.seed, p, sizes[n]) ensures 1 <= DrawnSlots(c.seed, p, sizes[n])[k] <= 0xFFFF_FFFF {
      ValuesNotZero(c.seed, p, sizes[n], k);
    }
  }

  // ---------------------------------------------------------------------------------------------
  // The state account by account, in terms of the words drawn
  // ---------------------------------------------------------------------------------------------

  /** Plain account `i`: key, nonce and balance from six consecutive draws. */
  ghost predicate EoaAsDrawn(c: SynthConfig, accounts: map<B256, Account>, i: nat) {
    var key := KeyAt(c.seed, 6 * i);
    && key in accounts && accounts[key].bytecodeHash == None
    && accounts[key].nonce == Value(Output(c.seed, 6 * i + 4)) % 50
    && accounts[key].balance == Value(Output(c.seed, 6 * i + 5))
  }

  /** Where contract `n` begins: after the plain accounts, the sizes, and the contracts before it. */
  function ContractStart(c: SynthConfig, n: nat): nat
    requires c.Valid() && n <= |Sizes(c)|
  {
    6 * c.eoas + c.smallContracts + 9 * n + 5 * SumOf(Itself, Sizes(c)[..n])
  }

  /** A slot drawn at `p`: its value, never zero, just before its key. */
  ghost predicate SlotAsDrawn(seed: bv64, slots: Slots, p: nat) {
    KeyAt(seed, p + 1) in slots && slots[KeyAt(seed, p + 1)] == 1 + Value(Output(seed, p)) % 4_294_967_295
  }

  ghost predicate SlotsAsDrawn(seed: bv64, slots: Slots, p: nat, n: nat) {
    |slots| == n && forall t :: 0 <= t < n ==> SlotAsDrawn(seed, slots, p + 5 * t)
  }

  /** Contract `n`: key, balance and code from nine draws, then five draws a slot. */
  ghost predicate ContractAsDrawn(c: SynthConfig, accounts: map<B256, Account>, storages: Storages, n: nat)
    requires c.Valid() && n < |Sizes(c)|
  {
    var p := ContractStart(c, n);
    var key := KeyAt(c.seed, p);
    && key in accounts && accounts[key].nonce == 1
    && accounts[key].balance == Value(Output(c.seed, p + 4)) % 1_000_000
    && accounts[key].bytecodeHash == Some(KeyAt(c.seed, p + 5))
    && SlotsAsDrawn(c.seed, SlotsOf(storages, key), p + 9, Sizes(c)[n])
  }

  function Codeless(accounts: map<B256, Account>): set<B256> {
    set a | a in accounts && accounts[a].bytecodeHash == None
  }

  /** All the accounts, and that there are no others; those without code are the plain ones. */
  ghost predicate StateAsDrawn(c: SynthConfig, accounts: map<B256, Account>, storages: Storages)
    requires c.Valid()
  {
    && |accounts| == c.eoas + c.smallContracts + |c.largeContracts| && |Codeless(accounts)| == c.eoas
    && (forall i :: 0 <= i < c.eoas ==> EoaAsDrawn(c, accounts, i))
    && (forall n :: 0 <= n < |Sizes(c)| ==> ContractAsDrawn(c, accounts, storages, n))
  }

  lemma {:induction false} SmallSizeAt(c: SynthConfig, n: nat, j: nat)
    requires j < n && c.smallSlotsMax > 0
    ensures SmallSizes(c, n)[j] == 1 + Value(Output(c.seed, 6 * c.eoas + j)) % c.smallSlotsMax
  {
    hide Output, Value;
    if j < n - 1 {
      SmallSizeAt(c, n - 1, j);
    }
  }

  /** One draw a small contract, right after the plain accounts; large ones as configured. */
  lemma SizesAreDrawn(c: SynthConfig, j: nat)
    requires c.Valid() && j < |Sizes(c)|
    ensures |Sizes(c)| == c.smallContracts + |c.largeContracts|
    ensures Sizes(c)[j] == if j < c.smallContracts then 1 + Value(Output(c.seed, 6 * c.eoas + j)) % c.smallSlotsMax
                           else c.largeContracts[j - c.smallContracts]
  {
    hide Output, Value;
    if j < c.smallContracts {
      SmallSizeAt(c, c.smallContracts, j);
    }
  }

  lemma {:induction false} StartIs(first: nat, sizes: seq<nat>, n: nat)
    requires n <= |sizes|
    ensures Start(first, sizes, n) == first + 9 * n + 5 * SumOf(Itself, sizes[..n])
  {
    hide SumOf;
    if n == 0 {
      SumOfNothing();
      assert sizes[..0] == [];
    } else {
      StartIs(first, sizes, n - 1);
      PrefixSum(sizes, n);
    }
  }

  lemma {:induction false} EoaKept(seed: bv64, n: nat, i: nat)
    requires i < n && 6 * n <= TWO_TO_THE_64
    ensures KeyAt(seed, 6 * i) in WithEoas(seed, n) && WithEoas(seed, n)[KeyAt(seed, 6 * i)] == EoaAccount(seed, 6 * i)
  {
    hide KeyAt, EoaAccount;
    if i < n - 1 {
      EoaKept(seed, n - 1, i);
      KeysDiffer(seed, 6 * i, 6 * (n - 1));
    }
  }

  lemma {:induction false} BaseKept(seed: bv64, base: map<B256, Account>, first: nat, sizes: seq<nat>, n: nat, k: B256)
    requires n <= |sizes| && Start(first, sizes, n) <= TWO_TO_THE_64 && DrawnBefore(seed, base.Keys, first)
    requires k in base
    ensures k in WithContracts(seed, base, first, sizes, n) && WithContracts(seed, base, first, sizes, n)[k] == base[k]
  {
    hide KeyAt, ContractAccount, DrawnBefore;
    if n > 0 {
      BaseKept(seed, base, first, sizes, n - 1, k);
      ContractsExact(seed, base, first, sizes, n - 1);
      FreshKey(seed, WithContracts(seed, base, first, sizes, n - 1).Keys, Start(first, sizes, n - 1));
    }
  }

  lemma {:induction false} ContractKept(seed: bv64, base: map<B256, Account>, first: nat, sizes: seq<nat>, m: nat,
          n: nat)
    requires m < n <= |sizes| && Start(first, sizes, n) <= TWO_TO_THE_64
    ensures var p := Start(first, sizes, m);
      && KeyAt(seed, p) in WithContracts(seed, base, first, sizes, n)
      && WithContracts(seed, base, first, sizes, n)[KeyAt(seed, p)] == ContractAccount(seed, p)
  {
    hide KeyAt, ContractAccount;
    if m < n - 1 {
      ContractKept(seed, base, first, sizes, m, n - 1);
      StartGrows(first, sizes, m, n - 1);
      KeysDiffer(seed, Start(first, sizes, m), Start(first, sizes, n - 1));
    }
  }

  lemma {:induction false} SlotKept(seed: bv64, p: nat, n: nat, t: nat)
    requires t < n && p + 5 * n <= TWO_TO_THE_64
    ensures KeyAt(seed, p + 5 * t + 1) in DrawnSlots(seed, p, n)
    ensures DrawnSlots(seed, p, n)[KeyAt(seed, p + 5 * t + 1)] == SlotValue(seed, p + 5 * t)
  {
    hide KeyAt, SlotValue;
    if t < n - 1 {
      SlotKept(seed, p, n - 1, t);
      KeysDiffer(seed, p + 5 * t + 1, p + 5 * (n - 1) + 1);
    }
  }

  lemma DrawnSlotsAsDrawn(seed: bv64, p: nat, n: nat)
    requires p + 5 * n <= TWO_TO_THE_64
    ensures SlotsAsDrawn(seed, DrawnSlots(seed, p, n), p, n)
  {
    hide KeyAt, DrawnSlots, Output, Value;
    SlotsExact(seed, p, n);
    forall t | 0 <= t < n ensures SlotAsDrawn(seed, DrawnSlots(seed, p, n), p + 5 * t) {
      SlotKept(seed, p, n, t);
    }
  }

  lemma {:induction false} EoasCodeless(seed: bv64, n: nat)
    ensures Codeless(WithEoas(seed, n)) == WithEoas(seed, n).Keys
  {
    hide KeyAt, Draw;
    if n > 0 {
      EoasCodeless(seed, n - 1);
      var m, k := WithEoas(seed, n - 1), KeyAt(seed, 6 * (n - 1));
      CodelessAdds(m, k, EoaAccount(seed, 6 * (n - 1)));
    }
  }

  lemma CodelessAdds(m: map<B256, Account>, k: B256, a: Account)
    ensures a.bytecodeHash == None ==> Codeless(m[k := a]) == Codeless(m) + {k}
    ensures a.bytecodeHash != None && k !in m ==> Codeless(m[k := a]) == Codeless(m)
  {
  }

  lemma {:induction false} ContractsHaveCode(seed: bv64, base: map<B256, Account>, first: nat, sizes: seq<nat>, n: nat)
    requires n <= |sizes| && Start(first, sizes, n) <= TWO_TO_THE_64 && DrawnBefore(seed, base.Keys, first)
    ensures Codeless(WithContracts(seed, base, first, sizes, n)) == Codeless(base)
  {
    hide KeyAt, Draw, DrawnBefore, Codeless;
    if n > 0 {
      ContractsHaveCode(seed, base, first, sizes, n - 1);
      ContractsExact(seed, base, first, sizes, n - 1);
      var m, p := WithContracts(seed, base, first, sizes, n - 1), Start(first, sizes, n - 1);
      FreshKey(seed, m.Keys, p);
      CodelessAdds(m, KeyAt(seed, p), ContractAccount(seed, p));
    }
  }

  lemma EoaIsDrawn(c: SynthConfig, i: nat)
    requires c.Valid() && TotalDraws(c) <= TWO_TO_THE_64 && i < c.eoas
    ensures EoaAsDrawn(c, SynthAccounts(c), i)
  {
    hide KeyAt, WithEoas, WithContracts, DrawnBefore, Output, Value, Sizes;
    FirstContractIsReached(c);
    EoasExact(c.seed, c.eoas);
    EoaKept(c.seed, c.eoas, i);
    var base := WithEoas(c.seed, c.eoas);
    Later(c.seed, base.Keys, 6 * c.eoas, FirstContract(c));
    BaseKept(c.seed, base, FirstContract(c), Sizes(c), |Sizes(c)|, KeyAt(c.seed, 6 * i));
  }

  lemma ContractIsDrawn(c: SynthConfig, n: nat)
    requires c.Valid() && TotalDraws(c) <= TWO_TO_THE_64 && n < |Sizes(c)|
    ensures ContractAsDrawn(c, SynthAccounts(c), SynthStorages(c), n)
  {
    hide KeyAt, WithEoas, WithContracts, WithStorages, DrawnBefore, DrawnSlots, Output, Value, Sizes, SlotsAsDrawn,
      SumOf;
    var base, first, sizes := WithEoas(c.seed, c.eoas), FirstContract(c), Sizes(c);
    FirstContractIsReached(c);
    EoasExact(c.seed, c.eoas);
    Later(c.seed, base.Keys, 6 * c.eoas, first);
    StartIs(first, sizes, n);
    StartGrows(first, sizes, n, |sizes|);
    ContractKept(c.seed, base, first, sizes, n, |sizes|);
    ContractSlots(c.seed, base, first, sizes, n, |sizes|);
    DrawnSlotsAsDrawn(c.seed, Start(first, sizes, n) + 9, sizes[n]);
  }

  /** With at most 2^64 draws the generated state is what the draws say, account by account. */
  lemma SynthesisAsDrawn(c: SynthConfig)
    requires c.Valid() && TotalDraws(c) <= TWO_TO_THE_64
    ensures StateAsDrawn(c, SynthAccounts(c), SynthStorages(c))
  {
    hide WithEoas, WithContracts, WithStorages, DrawnBefore, KeyAt, Sizes, SlotCount, EoaAsDrawn, ContractAsDrawn,
      Codeless;
    SynthesisIsExact(c);
    FirstContractIsReached(c);
    EoasExact(c.seed, c.eoas);
    EoasCodeless(c.seed, c.eoas);
    var base := WithEoas(c.seed, c.eoas);
    Later(c.seed, base.Keys, 6 * c.eoas, FirstContract(c));
    ContractsHaveCode(c.seed, base, FirstContract(c), Sizes(c), |Sizes(c)|);
    forall i | 0 <= i < c.eoas ensures EoaAsDrawn(c, SynthAccounts(c), i) {
      EoaIsDrawn(c, i);
    }
    forall n | 0 <= n < |Sizes(c)| ensures ContractAsDrawn(c, SynthAccounts(c), SynthStorages(c), n) {
      ContractIsDrawn(c, n);
    }
  }

  /** However many draws are made, no slots lack an account. */
  lemma NoOrphansSynthesized(c: SynthConfig)
    requires c.Valid()
    ensures NoOrphans(SynthAccounts(c), SynthStorages(c))
  {
    hide WithEoas, WithContracts, WithStorages, SmallSizes;
    StoragesHaveAccounts(c.seed, WithEoas(c.seed, c.eoas), FirstContract(c), Sizes(c), |Sizes(c)|);
  }

  /** A generated state written to empty tables leaves exactly the rows of its view. */
  method SynthesizeAndWrite(c: SynthConfig, db: HashedTables, succeeds: bool) returns (r: Outcome<()>)
    requires c.Valid()
    requires db.accounts == map[] && db.storages == {}
    modifies db
    ensures r.Ok? <==> succeeds
    ensures r.Ok? ==> db.accounts == SynthAccounts(c)
    ensures r.Ok? ==> db.storages == RowsOf(WithSlots(SynthStorages(c)), WithSlots(SynthStorages(c)).Keys)
  {
    hide SynthAccounts, SynthStorages, RowsOf, WithSlots;
    var state := Synthesize(c);
    NoOrphansSynthesized(c);
    WritesTheViewExactly(SynthAccounts(c), SynthStorages(c));
    r := WriteHashedState(db, state, succeeds);
  }

  /** The counts a generated state reports are exact as long as the generator does not go round. */
  method CountSynthesized(c: SynthConfig) returns (accounts: nat, slots: nat)
    requires c.Valid() && TotalDraws(c) <= TWO_TO_THE_64
    ensures accounts == c.eoas + c.smallContracts + |c.largeContracts|
    ensures slots == SumOf(Itself, Sizes(c))
  {
    hide SynthAccounts, SynthStorages, SlotCount, Sizes, SumOf;
    var state := Synthesize(c);
    SynthesisIsExact(c);
    accounts := state.AccountCount();
    slots := state.StorageCount();
  }
}
