/** The in-memory hashed state, its cached sorted view, and writing it to a database. */
module MemoryStates {
  import opened Trie
  import opened KeyOrder

  type U64 = n: int | 0 <= n < 0x1_0000_0000_0000_0000

  type U256 = n: int | 0 <= n < 0x1_0000_0000_0000_0000_0000_0000_0000_0000_0000_0000_0000_0000_0000_0000_0000_0000

  datatype Account = Account(nonce: U64, balance: U256, bytecodeHash: Option<B256>)

  type Slots = map<B256, U256>

  type Storages = map<B256, Slots>

  function SlotsOf(storages: Storages, address: B256): Slots {
    if address in storages then storages[address] else map[]
  }

  /** What setting a slot means: zero removes it, anything else replaces it. */
  function SetSlot(storages: Storages, address: B256, slot: B256, value: U256): Storages {
    var slots := SlotsOf(storages, address);
    storages[address := if value == 0 then slots - {slot} else slots[slot := value]]
  }

  // ---------------------------------------------------------------------------------------------
  // The normalised view and its sorting
  // ---------------------------------------------------------------------------------------------

  /** reth's `HashedPostState`, as far as it is used here. */
  datatype PostState = PostState(accounts: map<B256, Option<Account>>, storages: Storages)

  /** reth's `HashedPostStateSorted`: rows in key order on both levels. */
  datatype SortedPostState = SortedPostState(
    accounts: seq<(B256, Option<Account>)>, storages: seq<(B256, seq<(B256, U256)>)>)

  function Present(accounts: map<B256, Account>): map<B256, Option<Account>> {
    map a | a in accounts :: Some(accounts[a])
  }

  function WithSlots(storages: Storages): Storages {
    map a | a in storages && storages[a] != map[] :: storages[a]
  }

  function Normalised(accounts: map<B256, Account>, storages: Storages): PostState {
    PostState(Present(accounts), WithSlots(storages))
  }

  ghost function SortEach(rows: seq<(B256, Slots)>): seq<(B256, seq<(B256, U256)>)> {
    seq(|rows|, i requires 0 <= i < |rows| => (rows[i].0, Listing(rows[i].1)))
  }

  ghost function IntoSorted(p: PostState): SortedPostState {
    SortedPostState(Listing(p.accounts), SortEach(Listing(p.storages)))
  }

  /** The slots of one address: ascending keys, each slot with its value, and no others. */
  ghost predicate ListsSlots(rows: seq<(B256, U256)>, slots: Slots) {
    && |rows| == |slots| && Ascending(rows)
    && forall i :: 0 <= i < |rows| ==> rows[i].0 in slots && rows[i].1 == slots[rows[i].0]
  }

  /**
   * The sorted view: both levels ascend, every account is there as present, every address with
   * slots is there with exactly them, and there is nothing else.
   */
  ghost predicate IsSortedView(v: SortedPostState, accounts: map<B256, Account>, storages: Storages) {
    && |v.accounts| == |accounts| && Ascending(v.accounts) && Ascending(v.storages)
    && (forall i :: 0 <= i < |v.accounts| ==>
          v.accounts[i].0 in accounts && v.accounts[i].1 == Some(accounts[v.accounts[i].0]))
    && (forall i :: 0 <= i < |v.storages| ==>
          && v.storages[i].0 in storages && storages[v.storages[i].0] != map[]
          && ListsSlots(v.storages[i].1, storages[v.storages[i].0]))
    && (forall a :: a in storages && storages[a] != map[] ==> exists i :: 0 <= i < |v.storages| && v.storages[i].0 == a)
  }

  lemma ListingLists(slots: Slots)
    ensures ListsSlots(Listing(slots), slots)
  {
    hide Listing;
    ListingIsAscending(slots);
  }

  lemma PresentCount(accounts: map<B256, Account>)
    ensures |Present(accounts)| == |accounts|
  {
    assert Present(accounts).Keys == accounts.Keys;
  }

  lemma SortEachAscends(rows: seq<(B256, Slots)>)
    requires Ascending(rows)
    ensures Ascending(SortEach(rows))
  {
    hide LexLe;
    var s := SortEach(rows);
    forall i, j | 0 <= i < j < |s| ensures LexLe(s[i].0, s[j].0) && s[i].0 != s[j].0 {
      assert s[i].0 == rows[i].0 && s[j].0 == rows[j].0;
    }
  }

  /** What `into_sorted` makes of the normalised maps. */
  lemma ViewIsSorted(accounts: map<B256, Account>, storages: Storages)
    ensures IsSortedView(IntoSorted(Normalised(accounts, storages)), accounts, storages)
  {
    hide Listing, Ascending, ListsSlots;
    var v, present, slotted := IntoSorted(Normalised(accounts, storages)), Present(accounts), WithSlots(storages);
    var rows := Listing(slotted);
    ListingIsAscending(present);
    ListingIsAscending(slotted);
    PresentCount(accounts);
    SortEachAscends(rows);
    forall i | 0 <= i < |v.storages|
      ensures v.storages[i].0 in storages && storages[v.storages[i].0] != map[]
      ensures ListsSlots(v.storages[i].1, storages[v.storages[i].0])
    {
      assert v.storages[i] == (rows[i].0, Listing(rows[i].1));
      ListingLists(rows[i].1);
    }
    forall a | a in storages && storages[a] != map[] ensures exists i :: 0 <= i < |v.storages| && v.storages[i].0 == a {
      assert a in slotted;
      var i :| 0 <= i < |rows| && rows[i].0 == a;
      assert v.storages[i].0 == a;
    }
  }

  ghost function Row(address: B256, slot: B256, value: U256): (B256, B256, U256) { (address, slot, value) }

  /** The storage rows of some addresses. */
  ghost function RowsOf(storages: Storages, addresses: set<B256>): set<(B256, B256, U256)> {
    set a, k | a in addresses && a in storages && k in storages[a] :: Row(a, k, storages[a][k])
  }

  lemma RowOf(storages: Storages, addresses: set<B256>, r: (B256, B256, U256))
    ensures r in RowsOf(storages, addresses) <==>
            r.0 in addresses && r.1 in SlotsOf(storages, r.0) && SlotsOf(storages, r.0)[r.1] == r.2
  {
    assert r == Row(r.0, r.1, r.2);
  }

  /** Two states look the same sorted if and only if they have the same accounts and the same slots. */
  lemma SameViewSameRows(accounts: map<B256, Account>, storages: Storages, accounts': map<B256, Account>,
          storages': Storages)
    ensures IntoSorted(Normalised(accounts, storages)) == IntoSorted(Normalised(accounts', storages'))
       <==> accounts == accounts' && RowsOf(storages, storages.Keys) == RowsOf(storages', storages'.Keys)
  {
    hide Listing, RowsOf, HoldsRows, Ascending;
    var p, q := Normalised(accounts, storages), Normalised(accounts', storages');
    if IntoSorted(p) == IntoSorted(q) {
      SortedDetermines(p, q);
      PresentDetermines(accounts, accounts');
      SlotsDetermineRows(storages, storages');
    }
    if RowsOf(storages, storages.Keys) == RowsOf(storages', storages'.Keys) {
      RowsDetermineSlots(storages, storages');
    }
  }

  lemma PresentDetermines(m: map<B256, Account>, n: map<B256, Account>)
    requires Present(m) == Present(n)
    ensures m == n
  {
    forall a ensures a in m <==> a in n {
      assert a in Present(m) <==> a in Present(n);
    }
    forall a | a in m ensures m[a] == n[a] {
      assert Present(m)[a] == Present(n)[a];
    }
  }

  lemma ListingDetermines<V>(m: map<B256, V>, n: map<B256, V>)
    requires Listing(m) == Listing(n)
    ensures m == n
  {
    hide Listing, Ascending;
    ListingIsAscending(m);
    ListingIsAscending(n);
    HoldsTheSame(m, n, Listing(m));
  }

  lemma HoldsTheSame<V>(m: map<B256, V>, n: map<B256, V>, rows: seq<(B256, V)>)
    requires HoldsRows(m, rows) && HoldsRows(n, rows)
    ensures m == n
  {
    forall k | k in m ensures k in n && n[k] == m[k] {
      var i :| 0 <= i < |rows| && rows[i].0 == k;
    }
    forall k | k in n ensures k in m {
      var i :| 0 <= i < |rows| && rows[i].0 == k;
    }
  }

  lemma SortedDetermines(p: PostState, q: PostState)
    requires IntoSorted(p) == IntoSorted(q)
    ensures p == q
  {
    hide Listing;
    ListingDetermines(p.accounts, q.accounts);
    var s, t := Listing(p.storages), Listing(q.storages);
    assert |SortEach(s)| == |SortEach(t)|;
    forall i | 0 <= i < |s| ensures s[i] == t[i] {
      assert SortEach(s)[i] == SortEach(t)[i];
      ListingDetermines(s[i].1, t[i].1);
    }
    assert s == t;
    ListingDetermines(p.storages, q.storages);
  }

  lemma SlotsDetermineRows(s: Storages, t: Storages)
    requires WithSlots(s) == WithSlots(t)
    ensures RowsOf(s, s.Keys) == RowsOf(t, t.Keys)
  {
    forall r ensures r in RowsOf(s, s.Keys) <==> r in RowsOf(t, t.Keys) {
      RowOf(s, s.Keys, r);
      RowOf(t, t.Keys, r);
      SlotsOfNormalised(s, r.0);
      SlotsOfNormalised(t, r.0);
    }
  }

  lemma SlotsOfNormalised(s: Storages, a: B256)
    ensures SlotsOf(WithSlots(s), a) == SlotsOf(s, a)
  {
  }

  lemma RowsDetermineSlots(s: Storages, t: Storages)
    requires RowsOf(s, s.Keys) == RowsOf(t, t.Keys)
    ensures WithSlots(s) == WithSlots(t)
  {
    forall a ensures SlotsOf(s, a) == SlotsOf(t, a) {
      forall k ensures k in SlotsOf(s, a) ==> k in SlotsOf(t, a) && SlotsOf(t, a)[k] == SlotsOf(s, a)[k] {
        if k in SlotsOf(s, a) {
          RowOf(s, s.Keys, (a, k, SlotsOf(s, a)[k]));
          RowOf(t, t.Keys, (a, k, SlotsOf(s, a)[k]));
        }
      }
      forall k ensures k in SlotsOf(t, a) ==> k in SlotsOf(s, a) {
        if k in SlotsOf(t, a) {
          RowOf(s, s.Keys, (a, k, SlotsOf(t, a)[k]));
          RowOf(t, t.Keys, (a, k, SlotsOf(t, a)[k]));
        }
      }
    }
    forall a ensures a in WithSlots(s) <==> a in WithSlots(t) {
      assert SlotsOf(s, a) == SlotsOf(t, a);
    }
    forall a | a in WithSlots(s) ensures WithSlots(s)[a] == WithSlots(t)[a] {
      assert SlotsOf(s, a) == SlotsOf(t, a);
    }
  }

  /** Setting a slot that was absent and then zeroing it leaves no trace in the view. */
  lemma ZeroUndoesInsert(accounts: map<B256, Account>, storages: Storages, address: B256, slot: B256, value: U256)
    requires slot !in SlotsOf(storages, address)
    ensures Normalised(accounts, SetSlot(SetSlot(storages, address, slot, value), address, slot, 0))
         == Normalised(accounts, storages)
  {
    var slots := SlotsOf(storages, address);
    assert slots - {slot} == slots;
    assert slots[slot := value] - {slot} == slots;
    var after := SetSlot(SetSlot(storages, address, slot, value), address, slot, 0);
    assert after == storages[address := slots];
    assert WithSlots(after) == WithSlots(storages);
  }

  // ---------------------------------------------------------------------------------------------
  // The state itself
  // ---------------------------------------------------------------------------------------------

  method LeastKey<V>(m: map<B256, V>) returns (k: B256)
    requires m != map[]
    ensures IsLeast(k, m.Keys)
  {
    hide LexLe;
    assert m.Keys != {};
    LeastExists(m.Keys);
    k :| IsLeast(k, m.Keys);
  }

  /** An ordered map's iteration. */
  method ListRows<V>(m: map<B256, V>) returns (rows: seq<(B256, V)>)
    ensures rows == Listing(m)
  {
    hide IsLeast, Listing;
    rows := [];
    var rest := m;
    while rest != map[]
      invariant rows + Listing(rest) == Listing(m)
      decreases |rest|
    {
      var k := LeastKey(rest);
      LeastIsKey(k, rest.Keys);
      ListingStep(rest, k);
      rows := rows + [(k, rest[k])];
      rest := rest - {k};
    }
    ListingOfNothing<V>();
  }

  lemma ListingOfNothing<V>()
    ensures Listing<V>(map[]) == []
  {
  }

  lemma LeastIsKey(k: B256, keys: set<B256>)
    requires IsLeast(k, keys)
    ensures k in keys
  {
  }

  /** reth's `into_sorted`. */
  method SortPostState(p: PostState) returns (sorted: SortedPostState)
    ensures sorted == IntoSorted(p)
  {
    hide Listing;
    var accounts := ListRows(p.accounts);
    var rows := ListRows(p.storages);
    var storages := [];
    for i := 0 to |rows|
      invariant storages == SortEach(rows)[..i]
    {
      var slots := ListRows(rows[i].1);
      storages := storages + [(rows[i].0, slots)];
    }
    sorted := SortedPostState(accounts, storages);
  }

  ghost function SlotKeys(storages: Storages, addresses: set<B256>): set<(B256, B256)> {
    set a, k | a in addresses && a in storages && k in storages[a] :: (a, k)
  }

  /** The number of slots over all addresses. */
  ghost function SlotCount(storages: Storages): nat { |SlotKeys(storages, storages.Keys)| }

  ghost function Pairs(a: B256, slots: set<B256>): set<(B256, B256)> {
    set k | k in slots :: (a, k)
  }

  lemma {:induction false} PairsCount(a: B256, slots: set<B256>)
    ensures |Pairs(a, slots)| == |slots|
  {
    if slots == {} {
      assert Pairs(a, slots) == {};
    } else {
      var k :| k in slots;
      PairsCount(a, slots - {k});
      assert Pairs(a, slots) == Pairs(a, slots - {k}) + {(a, k)};
    }
  }

  lemma KeysOfOneMore(storages: Storages, addresses: set<B256>, a: B256)
    requires a in storages && a !in addresses
    ensures |SlotKeys(storages, addresses + {a})| == |SlotKeys(storages, addresses)| + |storages[a]|
  {
    var one, before := Pairs(a, storages[a].Keys), SlotKeys(storages, addresses);
    PairsCount(a, storages[a].Keys);
    assert SlotKeys(storages, addresses + {a}) == before + one;
    assert before !! one;
  }

  lemma SameSlotKeys(s: Storages, t: Storages, addresses: set<B256>)
    requires forall a :: a in addresses ==> SlotsOf(s, a) == SlotsOf(t, a)
    ensures SlotKeys(s, addresses) == SlotKeys(t, addresses)
  {
    forall r ensures r in SlotKeys(s, addresses) <==> r in SlotKeys(t, addresses) {
      SlotKeyOf(s, addresses, r);
      SlotKeyOf(t, addresses, r);
    }
  }

  lemma SlotKeyOf(s: Storages, addresses: set<B256>, r: (B256, B256))
    ensures r in SlotKeys(s, addresses) <==> r.0 in addresses && r.1 in SlotsOf(s, r.0)
  {
    assert r == (r.0, r.1);
  }

  class MemoryState {
    var accounts: map<B256, Account>
    var storages: Storages
    var sorted: Option<SortedPostState>

    /** The cache, when filled, is the view of what the maps hold now. */
    ghost predicate Valid()
      reads this
    {
      sorted.Some? ==> sorted.value == IntoSorted(Normalised(accounts, storages))
    }

    constructor ()
      ensures Valid() && accounts == map[] && storages == map[] && sorted.None?
    {
      accounts := map[];
      storages := map[];
      sorted := None;
    }

    method InsertAccount(address: B256, account: Account)
      modifies this
      ensures Valid() && sorted.None?
      ensures accounts == old(accounts)[address := account] && storages == old(storages)
    {
      sorted := None;
      accounts := accounts[address := account];
    }

    method InsertStorage(address: B256, slot: B256, value: U256)
      modifies this
      ensures Valid() && sorted.None?
      ensures accounts == old(accounts) && storages == SetSlot(old(storages), address, slot, value)
    {
      sorted := None;
      if address !in storages {
        storages := storages[address := map[]];
      }
      var slots: Slots := storages[address];
      if value == 0 {
        slots := slots - {slot};
      } else {
        slots := slots[slot := value];
      }
      storages := storages[address := slots];
    }

    method AccountCount() returns (n: nat)
      ensures n == |accounts.Keys|
    {
      n := |accounts|;
    }

    method StorageCount() returns (n: nat)
      ensures n == SlotCount(storages)
    {
      n := 0;
      var todo := storages.Keys;
      assert SlotKeys(storages, {}) == {};
      ghost var done := {};
      while todo != {}
        invariant todo + done == storages.Keys && todo !! done
        invariant n == |SlotKeys(storages, done)|
        decreases |todo|
      {
        var a :| a in todo;
        KeysOfOneMore(storages, done, a);
        n := n + |storages[a]|;
        todo := todo - {a};
        done := done + {a};
      }
    }

    method IterAccounts() returns (rows: seq<(B256, Account)>)
      ensures rows == Listing(accounts)
    {
      rows := ListRows(accounts);
    }

    method IterStorage(address: B256) returns (rows: seq<(B256, U256)>)
      ensures rows == Listing(SlotsOf(storages, address))
    {
      rows := ListRows(SlotsOf(storages, address));
    }

    /** The maps as a post-state: storages without slots are left out. */
    method Normalise() returns (post: PostState)
      ensures post == Normalised(accounts, storages)
    {
      post := PostState(map[], map[]);
      var todo := accounts.Keys;
      while todo != {}
        invariant todo <= accounts.Keys
        invariant post == PostState(map a | a in accounts && a !in todo :: Some(accounts[a]), map[])
        decreases |todo|
      {
        var a :| a in todo;
        post := post.(accounts := post.accounts[a := Some(accounts[a])]);
        todo := todo - {a};
      }
      post := AddStorages(post);
    }

    method AddStorages(before: PostState) returns (post: PostState)
      requires before == PostState(Present(accounts), map[])
      ensures post == Normalised(accounts, storages)
    {
      hide Present;
      post := before;
      var todo := storages.Keys;
      while todo != {}
        invariant todo <= storages.Keys
        invariant post.accounts == Present(accounts)
        invariant post.storages == map a | a in storages && storages[a] != map[] && a !in todo :: storages[a]
        decreases |todo|
      {
        var a :| a in todo;
        if storages[a] != map[] {
          post := post.(storages := post.storages[a := storages[a]]);
        }
        todo := todo - {a};
      }
      assert post.storages == WithSlots(storages);
    }

    /** Whatever was inserted, removed and sorted before, the view is that of the maps as they are. */
    method Sorted() returns (view: SortedPostState)
      requires Valid()
      modifies this`sorted
      ensures Valid() && sorted == Some(view)
      ensures view == IntoSorted(Normalised(accounts, storages))
      ensures IsSortedView(view, accounts, storages)
    {
      hide IntoSorted, Normalised, IsSortedView;
      ViewIsSorted(accounts, storages);
      if sorted.None? {
        var post := Normalise();
        var view' := SortPostState(post);
        sorted := Some(view');
      }
      view := sorted.value;
    }
  }

  /** A history: insertions, removals by zero, and reads of the sorted view. */
  datatype Op =
    | PutAccount(address: B256, account: Account)
    | PutStorage(address: B256, slot: B256, value: U256)
    | ReadSorted

  function AccountsAfter(ops: seq<Op>): map<B256, Account> {
    if ops == [] then map[] else
      var op, before := ops[|ops| - 1], AccountsAfter(ops[..|ops| - 1]);
      if op.PutAccount? then before[op.address := op.account] else before
  }

  function StoragesAfter(ops: seq<Op>): Storages {
    if ops == [] then map[] else
      var op, before := ops[|ops| - 1], StoragesAfter(ops[..|ops| - 1]);
      if op.PutStorage? then SetSlot(before, op.address, op.slot, op.value) else before
  }

  /** After any history, `sorted` shows what was inserted, whenever and however often it was read before. */
  method SortedAfter(ops: seq<Op>) returns (state: MemoryState, view: SortedPostState)
    ensures state.accounts == AccountsAfter(ops) && state.storages == StoragesAfter(ops)
    ensures view == IntoSorted(Normalised(AccountsAfter(ops), StoragesAfter(ops)))
  {
    hide SetSlot, IntoSorted, Normalised;
    state := new MemoryState();
    for i := 0 to |ops|
      invariant fresh(state) && state.Valid()
      invariant state.accounts == AccountsAfter(ops[..i]) && state.storages == StoragesAfter(ops[..i])
    {
      assert ops[..i + 1][..i] == ops[..i];
      match ops[i] {
        case PutAccount(address, account) => state.InsertAccount(address, account);
        case PutStorage(address, slot, value) => state.InsertStorage(address, slot, value);
        case ReadSorted => var _ := state.Sorted();
      }
    }
    assert ops[..|ops|] == ops;
    view := state.Sorted();
  }

  predicate Puts(op: Op, address: B256) { op.PutAccount? && op.address == address }

  function AddressesPut(ops: seq<Op>): set<B256> { set op | op in ops && op.PutAccount? :: op.address }

  lemma OneMorePut(ops: seq<Op>, op: Op)
    ensures AddressesPut(ops + [op]) == AddressesPut(ops) + if op.PutAccount? then {op.address} else {}
  {
    forall a ensures a in AddressesPut(ops + [op]) <==> a in AddressesPut(ops) || (op.PutAccount? && a == op.address) {
      if a in AddressesPut(ops) {
        var o :| o in ops && o.PutAccount? && o.address == a;
        assert o in ops + [op];
      }
      assert op in ops + [op];
    }
  }

  lemma AccountsNext(ops: seq<Op>, op: Op)
    ensures AccountsAfter(ops + [op])
         == if op.PutAccount? then AccountsAfter(ops)[op.address := op.account] else AccountsAfter(ops)
  {
    assert (ops + [op])[..|ops|] == ops;
  }

  /**
   * The accounts counted are the addresses ever put, however often: replacing one does not count
   * twice, and neither slots nor reads count.
   */
  lemma {:induction false} AccountsArePut(ops: seq<Op>)
    ensures AccountsAfter(ops).Keys == AddressesPut(ops)
    ensures |AccountsAfter(ops)| == |AddressesPut(ops)|
  {
    hide AddressesPut, AccountsAfter;
    if ops == [] {
      NothingPut();
    } else {
      var op, before := ops[|ops| - 1], ops[..|ops| - 1];
      assert ops == before + [op];
      AccountsArePut(before);
      OneMorePut(before, op);
      AccountsNext(before, op);
    }
    assert |AccountsAfter(ops)| == |AccountsAfter(ops).Keys|;
  }

  lemma NothingPut()
    ensures AccountsAfter([]) == map[] && AddressesPut([]) == {}
  {
  }

  /** Each account is the one put last under its address. */
  lemma {:induction false} LastPutIsKept(ops: seq<Op>, n: int)
    requires IsLastPut(ops, n)
    ensures ops[n].address in AccountsAfter(ops) && AccountsAfter(ops)[ops[n].address] == ops[n].account
  {
    hide AccountsAfter;
    var last, before := |ops| - 1, ops[..|ops| - 1];
    assert ops == before + [ops[last]];
    AccountsNext(before, ops[last]);
    if n < last {
      assert !Puts(ops[last], ops[n].address);
      assert forall m :: n < m < |before| ==> before[m] == ops[m];
      LastPutIsKept(before, n);
    }
  }

  ghost predicate IsLastPut(ops: seq<Op>, n: int) {
    && 0 <= n < |ops| && ops[n].PutAccount?
    && forall m :: n < m < |ops| ==> !Puts(ops[m], ops[n].address)
  }

  /** Only the last write to a slot matters, and a last write of zero leaves nothing. */
  lemma {:induction false} LastWriteToSlot(ops: seq<Op>, address: B256, slot: B256)
    ensures slot in SlotsOf(StoragesAfter(ops), address) <==>
      exists n :: IsLastWrite(ops, n, address, slot) && ops[n].value != 0
    ensures forall n :: IsLastWrite(ops, n, address, slot) && ops[n].value != 0 ==>
      slot in SlotsOf(StoragesAfter(ops), address) && SlotsOf(StoragesAfter(ops), address)[slot] == ops[n].value
  {
    if ops != [] {
      var last, before := |ops| - 1, ops[..|ops| - 1];
      LastWriteToSlot(before, address, slot);
      if WritesTo(ops[last], address, slot) {
        assert IsLastWrite(ops, last, address, slot);
        forall n | IsLastWrite(ops, n, address, slot) ensures n == last {
        }
      } else {
        forall n ensures IsLastWrite(ops, n, address, slot) <==> IsLastWrite(before, n, address, slot) {
        }
      }
    }
  }

  predicate WritesTo(op: Op, address: B256, slot: B256) {
    op.PutStorage? && op.address == address && op.slot == slot
  }

  ghost predicate IsLastWrite(ops: seq<Op>, n: int, address: B256, slot: B256) {
    && 0 <= n < |ops| && WritesTo(ops[n], address, slot)
    && forall m :: n < m < |ops| ==> !WritesTo(ops[m], address, slot)
  }

  // ---------------------------------------------------------------------------------------------
  // Writing the state to a database
  // ---------------------------------------------------------------------------------------------

  /** The hashed state tables. A storage row is an entry of a duplicate-keyed table: `put` adds it. */
  class HashedTables {
    var accounts: map<B256, Account>
    var storages: set<(B256, B256, U256)>

    constructor ()
      ensures accounts == map[] && storages == {}
    {
      accounts := map[];
      storages := {};
    }
  }

  function Keys<V>(rows: seq<(B256, V)>): set<B256> { set i | 0 <= i < |rows| :: rows[i].0 }

  function SlotRows(address: B256, rows: seq<(B256, U256)>): set<(B256, B256, U256)> {
    set i | 0 <= i < |rows| :: (address, rows[i].0, rows[i].1)
  }

  function Restrict(accounts: map<B256, Account>, keys: set<B256>): map<B256, Account> {
    map a | a in accounts && a in keys :: accounts[a]
  }

  lemma OneMoreRow<V>(rows: seq<(B256, V)>, i: nat)
    requires i < |rows|
    ensures Keys(rows[..i + 1]) == Keys(rows[..i]) + {rows[i].0}
  {
    var t := rows[..i + 1];
    forall k ensures k in Keys(t) <==> k in Keys(rows[..i]) || k == rows[i].0 {
      if k in Keys(rows[..i]) {
        var j :| 0 <= j < i && rows[..i][j].0 == k;
        assert t[j].0 == k;
      }
      if k == rows[i].0 {
        assert t[i].0 == k;
      }
      if k in Keys(t) && k != rows[i].0 {
        var j :| 0 <= j < i + 1 && t[j].0 == k;
        assert rows[..i][j].0 == k;
      }
    }
  }

  lemma OneMoreSlot(address: B256, rows: seq<(B256, U256)>, i: nat)
    requires i < |rows|
    ensures SlotRows(address, rows[..i + 1]) == SlotRows(address, rows[..i]) + {(address, rows[i].0, rows[i].1)}
  {
    var t, last := rows[..i + 1], (address, rows[i].0, rows[i].1);
    forall r ensures r in SlotRows(address, t) <==> r in SlotRows(address, rows[..i]) || r == last {
      if r in SlotRows(address, rows[..i]) {
        var j :| 0 <= j < i && (address, rows[..i][j].0, rows[..i][j].1) == r;
        assert (address, t[j].0, t[j].1) == r;
      }
      if r == last {
        assert (address, t[i].0, t[i].1) == r;
      }
      if r in SlotRows(address, t) && r != last {
        var j :| 0 <= j < i + 1 && (address, t[j].0, t[j].1) == r;
        assert (address, rows[..i][j].0, rows[..i][j].1) == r;
      }
    }
  }

  lemma AllKeys<V>(m: map<B256, V>)
    ensures Keys(Listing(m)) == m.Keys
  {
    hide Listing, Ascending;
    ListingIsAscending(m);
    var rows := Listing(m);
    forall k ensures k in Keys(rows) <==> k in m {
      if k in m {
        var i :| 0 <= i < |rows| && rows[i].0 == k;
      }
    }
  }

  lemma OneMoreAddress(storages: Storages, keys: set<B256>, a: B256)
    ensures RowsOf(storages, keys + {a}) == RowsOf(storages, keys) + SlotRows(a, Listing(SlotsOf(storages, a)))
  {
    hide Listing, Ascending;
    var slots := SlotsOf(storages, a);
    var rows := Listing(slots);
    ListingIsAscending(slots);
    forall r ensures r in RowsOf(storages, keys + {a}) <==> r in RowsOf(storages, keys) || r in SlotRows(a, rows) {
      RowOf(storages, keys + {a}, r);
      RowOf(storages, keys, r);
      if r.0 == a && r.1 in slots && slots[r.1] == r.2 {
        var i :| 0 <= i < |rows| && rows[i].0 == r.1;
        assert r == (a, rows[i].0, rows[i].1);
      }
    }
  }

  /**
   * All the accounts are put, and the slots of those accounts. `succeeds` is false when some put or
   * the commit fails: the transaction is dropped and the tables stay as they were.
   */
  method WriteHashedState(db: HashedTables, state: MemoryState, succeeds: bool) returns (r: Outcome<()>)
    modifies db
    ensures r.Ok? <==> succeeds
    ensures r.Ok? ==> db.accounts == old(db.accounts) + state.accounts
    ensures r.Ok? ==> db.storages == old(db.storages) + RowsOf(state.storages, state.accounts.Keys)
    ensures r.Ok? ==> forall row :: row in db.storages <==> row in old(db.storages) || IsSlot(state, row)
    ensures r.Err? ==> db.accounts == old(db.accounts) && db.storages == old(db.storages)
  {
    hide Keys, SlotRows, Restrict, RowsOf, Listing;
    var accounts, storages := db.accounts, db.storages;
    var rows := state.IterAccounts();
    NoRows(state.accounts, state.storages, db.accounts, db.storages, rows);
    for i := 0 to |rows|
      invariant unchanged(db)
      invariant accounts == db.accounts + Restrict(state.accounts, Keys(rows[..i]))
      invariant storages == db.storages + RowsOf(state.storages, Keys(rows[..i]))
    {
      RowHeld(state.accounts, i);
      RestrictOneMore(state.accounts, db.accounts, Keys(rows[..i]), rows[i].0);
      OneMoreRow(rows, i);
      accounts := accounts[rows[i].0 := rows[i].1];
      var slots := state.IterStorage(rows[i].0);
      ghost var before := storages;
      NoSlots(rows[i].0, slots);
      for j := 0 to |slots|
        invariant unchanged(db)
        invariant storages == before + SlotRows(rows[i].0, slots[..j])
      {
        OneMoreSlot(rows[i].0, slots, j);
        storages := storages + {(rows[i].0, slots[j].0, slots[j].1)};
      }
      assert slots[..|slots|] == slots;
      OneMoreAddress(state.storages, Keys(rows[..i]), rows[i].0);
    }
    if !succeeds {
      return Err;
    }
    assert rows[..|rows|] == rows;
    AllKeys(state.accounts);
    RestrictAll(state.accounts);
    RowsAreSlots(state);
    db.accounts, db.storages := accounts, storages;
    r := Ok(());
  }

  /** A slot, and its value, of an address with an account. */
  ghost predicate IsSlot(state: MemoryState, row: (B256, B256, U256))
    reads state
  {
    && row.0 in state.accounts && row.0 in state.storages
    && row.1 in state.storages[row.0] && row.2 == state.storages[row.0][row.1]
  }

  lemma RowsAreSlots(state: MemoryState)
    ensures forall row :: row in RowsOf(state.storages, state.accounts.Keys) <==> IsSlot(state, row)
  {
    forall row ensures row in RowsOf(state.storages, state.accounts.Keys) <==> IsSlot(state, row) {
      RowOf(state.storages, state.accounts.Keys, row);
    }
  }

  lemma NoRows(accounts: map<B256, Account>, storages: Storages, base: map<B256, Account>,
               rowBase: set<(B256, B256, U256)>, rows: seq<(B256, Account)>)
    ensures base + Restrict(accounts, Keys(rows[..0])) == base
    ensures rowBase + RowsOf(storages, Keys(rows[..0])) == rowBase
  {
    assert Keys(rows[..0]) == {};
    assert Restrict(accounts, {}) == map[];
  }

  lemma NoSlots(address: B256, rows: seq<(B256, U256)>)
    ensures SlotRows(address, rows[..0]) == {}
  {
  }

  lemma RowHeld(accounts: map<B256, Account>, i: nat)
    requires i < |Listing(accounts)|
    ensures var row := Listing(accounts)[i]; row.0 in accounts && accounts[row.0] == row.1
  {
    hide Listing, Ascending;
    ListingIsAscending(accounts);
  }

  lemma RestrictOneMore(accounts: map<B256, Account>, base: map<B256, Account>, keys: set<B256>, a: B256)
    requires a in accounts
    ensures base + Restrict(accounts, keys + {a}) == (base + Restrict(accounts, keys))[a := accounts[a]]
  {
  }

  lemma RestrictAll(accounts: map<B256, Account>)
    ensures Restrict(accounts, accounts.Keys) == accounts
  {
  }

  /** Every address with slots has an account. */
  predicate NoOrphans(accounts: map<B256, Account>, storages: Storages) {
    forall a :: a in storages && storages[a] != map[] ==> a in accounts
  }

  /** The rows written are those of the sorted view precisely when no slots lack an account. */
  lemma WritesTheViewExactly(accounts: map<B256, Account>, storages: Storages)
    ensures RowsOf(storages, accounts.Keys) == RowsOf(WithSlots(storages), WithSlots(storages).Keys)
       <==> NoOrphans(accounts, storages)
  {
    var w := WithSlots(storages);
    if NoOrphans(accounts, storages) {
      forall r ensures r in RowsOf(storages, accounts.Keys) <==> r in RowsOf(w, w.Keys) {
        RowOf(storages, accounts.Keys, r);
        RowOf(w, w.Keys, r);
      }
    } else {
      var a :| a in storages && storages[a] != map[] && a !in accounts;
      var k :| k in storages[a];
      var r := (a, k, storages[a][k]);
      RowOf(storages, accounts.Keys, r);
      RowOf(w, w.Keys, r);
    }
  }

  /** One slot without an account: the view has its row, and it is not written. */
  lemma OrphanSlotsAreNotWritten(address: B256, slot: B256)
    ensures var storages := map[address := map[slot := 1]];
      && RowsOf(WithSlots(storages), WithSlots(storages).Keys) == {Row(address, slot, 1)}
      && RowsOf(storages, {}) == {}
      && !NoOrphans(map[], storages)
  {
    var storages: Storages := map[address := map[slot := 1]];
    var w := WithSlots(storages);
    assert storages[address] != map[] by {
      assert slot in storages[address];
    }
    assert w == storages;
    forall r ensures r in RowsOf(w, w.Keys) <==> r == Row(address, slot, 1) {
      RowOf(w, w.Keys, r);
    }
  }
}
