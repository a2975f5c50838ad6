/**
 * What a batch of updates means for the trie tables, seen as one map from keys to nodes:
 * a present node replaces, a removed one deletes, a deleted storage trie is wiped first.
 */
module Overlay {
  import opened Trie

  /**
   * What reth's storage trie cursor, which is not part of this repository, leaves open: whether it
   * ignores the storage root's empty path, and whether it counts removals that found nothing.
   */
  datatype CursorHabits = CursorHabits(skipsRoot: bool, countsAbsent: bool)

  /** Updates of both levels by key: `None` removes. */
  datatype FlatUpdates = FlatUpdates(wiped: set<B256>, changes: map<Key, Option<Node>>)

  const NOTHING := FlatUpdates({}, map[])

  /** `into_sorted`: one change a path, and a present node wins over a removed one. */
  function Changes(nodes: map<Path, Node>, removed: set<Path>): map<Path, Option<Node>> {
    map p | p in nodes.Keys + removed :: if p in nodes then Some(nodes[p]) else None
  }

  function PathChanges(account: Option<B256>, changes: map<Path, Option<Node>>): map<Key, Option<Node>> {
    map k | k in (set p | p in changes :: Key(account, p)) :: changes[k.path]
  }

  lemma PathChangeAt(account: Option<B256>, changes: map<Path, Option<Node>>, k: Key)
    ensures k in PathChanges(account, changes) <==> k.account == account && k.path in changes
  {
    assert k.account == account ==> k == Key(account, k.path);
  }

  /** The updates of the state trie, or of one storage trie. */
  function AccountPart(u: TrieUpdates): FlatUpdates {
    FlatUpdates({}, PathChanges(None, Changes(u.accountNodes, u.removedNodes)))
  }

  function StoragePart(a: B256, s: StorageTrieUpdates): FlatUpdates {
    FlatUpdates(if s.isDeleted then {a} else {}, PathChanges(Some(a), Changes(s.storageNodes, s.removedNodes)))
  }

  /** The changes of one trie at some of its paths. */
  function PathsPart(account: Option<B256>, wiped: set<B256>, changes: map<Path, Option<Node>>,
          paths: set<Path>): FlatUpdates
  {
    var all := PathChanges(account, changes);
    FlatUpdates(wiped, map k | k in all && k.path in paths :: all[k])
  }

  lemma AllPaths(account: Option<B256>, wiped: set<B256>, changes: map<Path, Option<Node>>)
    ensures PathsPart(account, wiped, changes, changes.Keys) == FlatUpdates(wiped, PathChanges(account, changes))
    ensures PathsPart(account, wiped, changes, {}) == FlatUpdates(wiped, map[])
  {
    var f, all := PathsPart(account, wiped, changes, changes.Keys), PathChanges(account, changes);
    forall k ensures k in all ==> k.path in changes.Keys {
      PathChangeAt(account, changes, k);
    }
    assert f.changes == all;
    assert PathsPart(account, wiped, changes, {}).changes == map[];
  }

  predicate HasChange(u: TrieUpdates, k: Key) {
    match k.account
    case None => k.path in u.accountNodes || k.path in u.removedNodes
    case Some(a) => k.path in StorageOf(u, a).storageNodes || k.path in StorageOf(u, a).removedNodes
  }

  function ChangeAt(u: TrieUpdates, k: Key): Option<Node> {
    if HasNode(u, k) then Some(NodeAt(u, k)) else None
  }

  ghost function ChangeKeys(u: TrieUpdates): set<Key> {
    AccountKeys(u) + StorageKeys(u)
    + (set p | p in u.removedNodes :: Key(None, p))
    + (set a, p | a in u.storageTries && p in u.storageTries[a].removedNodes :: Key(Some(a), p))
  }

  /** The state trie and the storage tries of some accounts. */
  ghost function UpTo(u: TrieUpdates, accounts: set<B256>): FlatUpdates {
    FlatUpdates(
      set a | a in accounts && a in u.storageTries && u.storageTries[a].isDeleted,
      map k | k in ChangeKeys(u) && (k.account.Some? ==> k.account.value in accounts) :: ChangeAt(u, k))
  }

  /** Updates that touch different keys, taken together. */
  function Both(f: FlatUpdates, g: FlatUpdates): FlatUpdates {
    FlatUpdates(f.wiped + g.wiped, f.changes + g.changes)
  }

  lemma UpToAt(u: TrieUpdates, accounts: set<B256>, k: Key)
    ensures k in UpTo(u, accounts).changes <==> HasChange(u, k) && (k.account.Some? ==> k.account.value in accounts)
    ensures k in UpTo(u, accounts).changes ==> UpTo(u, accounts).changes[k] == ChangeAt(u, k)
  {
  }

  /** All the updates, by key. */
  ghost function FlatOf(u: TrieUpdates): FlatUpdates { UpTo(u, u.storageTries.Keys) }

  /** The state trie's root is never stored; reth's cursor decides about storage roots. */
  predicate Applies(c: CursorHabits, k: Key, change: Option<Node>) {
    match k.account
    case None => change.None? || k.path != []
    case Some(_) => !(c.skipsRoot && k.path == [])
  }

  predicate Wiped(f: FlatUpdates, k: Key) {
    k.account.Some? && k.account.value in f.wiped
  }

  function Get(m: map<Key, Node>, k: Key): Option<Node> {
    if k in m then Some(m[k]) else None
  }

  /** What key `k` holds after the updates. */
  function Result(c: CursorHabits, m: map<Key, Node>, f: FlatUpdates, k: Key): Option<Node> {
    if k in f.changes && Applies(c, k, f.changes[k]) then f.changes[k]
    else if Wiped(f, k) then None
    else Get(m, k)
  }

  function Apply(c: CursorHabits, m: map<Key, Node>, f: FlatUpdates): map<Key, Node> {
    map k | k in m.Keys + f.changes.Keys && Result(c, m, f, k).Some? :: Result(c, m, f, k).value
  }

  lemma ApplyAt(c: CursorHabits, m: map<Key, Node>, f: FlatUpdates, k: Key)
    ensures Get(Apply(c, m, f), k) == Result(c, m, f, k)
  {
  }

  /** Table entries written: the upserts, and the removals that are counted. */
  predicate Counts(c: CursorHabits, m: map<Key, Node>, f: FlatUpdates, k: Key) {
    && k in f.changes && Applies(c, k, f.changes[k])
    && (f.changes[k].Some? || (k in m && !Wiped(f, k)) || (k.account.Some? && c.countsAbsent))
  }

  function Counted(c: CursorHabits, m: map<Key, Node>, f: FlatUpdates): set<Key> {
    set k | k in f.changes && Counts(c, m, f, k)
  }

  lemma SameMap(m: map<Key, Node>, n: map<Key, Node>)
    requires forall k :: Get(m, k) == Get(n, k)
    ensures m == n
  {
    forall k ensures k in m <==> k in n {
      assert Get(m, k) == Get(n, k);
    }
    forall k | k in m ensures m[k] == n[k] {
      assert Get(m, k) == Get(n, k);
    }
  }

  /** No key that one of the two touches is touched by the other. */
  ghost predicate Separate(f: FlatUpdates, g: FlatUpdates) {
    && f.changes.Keys !! g.changes.Keys
    && f.wiped !! g.wiped
    && (forall k :: k in f.changes ==> !Wiped(g, k))
  }

  /** One key under two separate batches. */
  lemma SeparateAt(c: CursorHabits, m: map<Key, Node>, f: FlatUpdates, g: FlatUpdates, k: Key)
    requires Separate(f, g)
    ensures Result(c, Apply(c, m, f), g, k) == Result(c, m, Both(f, g), k)
  {
    ApplyAt(c, m, f, k);
    hide Apply;
    assert k in f.changes ==> !Wiped(g, k);
  }

  lemma SeparateCountsAt(c: CursorHabits, m: map<Key, Node>, f: FlatUpdates, g: FlatUpdates, k: Key)
    requires Separate(f, g)
    ensures Counts(c, m, Both(f, g), k) <==> Counts(c, m, f, k) || Counts(c, Apply(c, m, f), g, k)
    ensures !(Counts(c, m, f, k) && Counts(c, Apply(c, m, f), g, k))
  {
    ApplyAt(c, m, f, k);
    hide Apply;
    assert k in f.changes ==> !Wiped(g, k);
  }

  lemma CountedAt(c: CursorHabits, m: map<Key, Node>, f: FlatUpdates, k: Key)
    ensures k in Counted(c, m, f) <==> Counts(c, m, f, k)
  {
  }

  /** Separate updates may be applied one after the other. */
  lemma ApplySeparateOnes(c: CursorHabits, m: map<Key, Node>, f: FlatUpdates, g: FlatUpdates)
    requires Separate(f, g)
    ensures Apply(c, Apply(c, m, f), g) == Apply(c, m, Both(f, g))
  {
    hide Apply, Separate, Result, Both;
    var n := Apply(c, m, f);
    forall k ensures Get(Apply(c, n, g), k) == Get(Apply(c, m, Both(f, g)), k) {
      ApplyAt(c, n, g, k);
      ApplyAt(c, m, Both(f, g), k);
      SeparateAt(c, m, f, g, k);
    }
    SameMap(Apply(c, n, g), Apply(c, m, Both(f, g)));
  }

  /** And their counts add up. */
  lemma CountSeparateOnes(c: CursorHabits, m: map<Key, Node>, f: FlatUpdates, g: FlatUpdates)
    requires Separate(f, g)
    ensures Counted(c, m, Both(f, g)) == Counted(c, m, f) + Counted(c, Apply(c, m, f), g)
    ensures |Counted(c, m, Both(f, g))| == |Counted(c, m, f)| + |Counted(c, Apply(c, m, f), g)|
  {
    hide Apply, Separate, Counts, Counted, Both;
    var n := Apply(c, m, f);
    forall k ensures k in Counted(c, m, Both(f, g)) <==> k in Counted(c, m, f) + Counted(c, n, g)
             ensures !(k in Counted(c, m, f) && k in Counted(c, n, g)) {
      CountedAt(c, m, f, k);
      CountedAt(c, n, g, k);
      CountedAt(c, m, Both(f, g), k);
      SeparateCountsAt(c, m, f, g, k);
    }
    assert Counted(c, m, f) !! Counted(c, n, g);
  }

  /**
   * Both together. The second batch may change an account the first wiped, as a storage trie's own
   * entries do.
   */
  lemma ApplySeparately(c: CursorHabits, m: map<Key, Node>, f: FlatUpdates, g: FlatUpdates)
    requires Separate(f, g)
    ensures Apply(c, Apply(c, m, f), g) == Apply(c, m, Both(f, g))
    ensures Counted(c, m, Both(f, g)) == Counted(c, m, f) + Counted(c, Apply(c, m, f), g)
    ensures |Counted(c, m, Both(f, g))| == |Counted(c, m, f)| + |Counted(c, Apply(c, m, f), g)|
  {
    hide Apply, Separate, Counted, Both;
    ApplySeparateOnes(c, m, f, g);
    CountSeparateOnes(c, m, f, g);
  }

  /** A single change at one key. */
  function One(k: Key, change: Option<Node>): FlatUpdates { FlatUpdates({}, map[k := change]) }

  /** What one change does to the tables and adds to the count. */
  lemma OneMeans(c: CursorHabits, m: map<Key, Node>, k: Key, change: Option<Node>)
    ensures var m', n := Apply(c, m, One(k, change)), |Counted(c, m, One(k, change))|;
      if (k.account.None? && change.Some? && k.path == []) || (k.account.Some? && c.skipsRoot && k.path == [])
      then m' == m && n == 0
      else if change.Some? then m' == m[k := change.value] && n == 1
      else m' == m - {k} && n == if k in m || (k.account.Some? && c.countsAbsent) then 1 else 0
  {
    var f := One(k, change);
    forall q ensures Get(Apply(c, m, f), q) == if q == k && Applies(c, k, change) then change else Get(m, q) {
      ApplyAt(c, m, f, q);
    }
    OneCounted(c, m, k, change);
    hide Apply, Counted;
    if !Applies(c, k, change) {
      SameMap(Apply(c, m, f), m);
    } else if change.Some? {
      SameMap(Apply(c, m, f), m[k := change.value]);
    } else {
      SameMap(Apply(c, m, f), m - {k});
    }
  }

  lemma OneCounted(c: CursorHabits, m: map<Key, Node>, k: Key, change: Option<Node>)
    ensures Counted(c, m, One(k, change)) == if Counts(c, m, One(k, change), k) then {k} else {}
  {
  }

  /** What has been written once only the paths `rest` are left. */
  function PathsDone(account: Option<B256>, wiped: set<B256>, changes: map<Path, Option<Node>>,
          rest: set<Path>): FlatUpdates
  {
    PathsPart(account, wiped, changes, changes.Keys - rest)
  }

  /** One more path of a trie: the loop step of the account loop and of the storage cursor. */
  lemma OneMorePath(c: CursorHabits, m: map<Key, Node>, account: Option<B256>, wiped: set<B256>,
                    changes: map<Path, Option<Node>>, rest: set<Path>, p: Path, n: map<Key, Node>)
    requires p in rest && rest <= changes.Keys
    requires n == Apply(c, m, PathsDone(account, wiped, changes, rest))
    ensures Apply(c, n, One(Key(account, p), changes[p])) == Apply(c, m, PathsDone(account, wiped, changes, rest - {p}))
    ensures |Counted(c, m, PathsDone(account, wiped, changes, rest - {p}))|
         == |Counted(c, m, PathsDone(account, wiped, changes, rest))|
            + |Counted(c, n, One(Key(account, p), changes[p]))|
  {
    hide Apply, Counted;
    var f := PathsDone(account, wiped, changes, rest);
    OnePathMore(account, wiped, changes, rest, p);
    ApplySeparately(c, m, f, One(Key(account, p), changes[p]));
  }

  lemma PathDoneAt(account: Option<B256>, wiped: set<B256>, changes: map<Path, Option<Node>>, rest: set<Path>, k: Key)
    ensures var f := PathsDone(account, wiped, changes, rest);
      && (k in f.changes <==> k.account == account && k.path in changes && k.path !in rest)
      && (k in f.changes ==> f.changes[k] == changes[k.path])
  {
    PathChangeAt(account, changes, k);
  }

  lemma OnePathMore(account: Option<B256>, wiped: set<B256>, changes: map<Path, Option<Node>>, rest: set<Path>, p: Path)
    requires p in rest && rest <= changes.Keys
    ensures var one := One(Key(account, p), changes[p]);
      && Separate(PathsDone(account, wiped, changes, rest), one)
      && Both(PathsDone(account, wiped, changes, rest), one) == PathsDone(account, wiped, changes, rest - {p})
  {
    hide PathsDone;
    var f, g := PathsDone(account, wiped, changes, rest), PathsDone(account, wiped, changes, rest - {p});
    var one := One(Key(account, p), changes[p]);
    WipedWhenDone(account, wiped, changes, rest);
    WipedWhenDone(account, wiped, changes, rest - {p});
    forall k ensures k in Both(f, one).changes <==> k in g.changes
             ensures k in g.changes ==> Both(f, one).changes[k] == g.changes[k]
             ensures !(k in f.changes && k in one.changes) {
      PathDoneAt(account, wiped, changes, rest, k);
      PathDoneAt(account, wiped, changes, rest - {p}, k);
    }
    assert Both(f, one).changes == g.changes;
  }

  lemma WipedWhenDone(account: Option<B256>, wiped: set<B256>, changes: map<Path, Option<Node>>, rest: set<Path>)
    ensures PathsDone(account, wiped, changes, rest).wiped == wiped
  {
  }

  lemma NoPathsYet(c: CursorHabits, m: map<Key, Node>, account: Option<B256>, wiped: set<B256>,
          changes: map<Path, Option<Node>>)
    ensures PathsDone(account, wiped, changes, changes.Keys) == FlatUpdates(wiped, map[])
    ensures |Counted(c, m, PathsDone(account, wiped, changes, changes.Keys))| == 0
  {
    AllPaths(account, wiped, changes);
    WipeCountsNothing(c, m, wiped);
    assert changes.Keys - changes.Keys == {};
  }

  lemma NoPathsLeft(account: Option<B256>, wiped: set<B256>, changes: map<Path, Option<Node>>)
    ensures PathsDone(account, wiped, changes, {}) == FlatUpdates(wiped, PathChanges(account, changes))
  {
    AllPaths(account, wiped, changes);
    assert changes.Keys - {} == changes.Keys;
  }

  lemma NoTries(u: TrieUpdates)
    ensures UpTo(u, {}) == AccountPart(u)
  {
    forall k ensures k in UpTo(u, {}).changes <==> k in AccountPart(u).changes {
      UpToAt(u, {}, k);
      PathChangeAt(None, Changes(u.accountNodes, u.removedNodes), k);
    }
    assert UpTo(u, {}).changes == AccountPart(u).changes;
  }

  /** One more storage trie: the loop step over the accounts. */
  lemma OneMoreTrie(c: CursorHabits, m: map<Key, Node>, u: TrieUpdates, rest: set<B256>, a: B256, n: map<Key, Node>)
    requires a in rest && rest <= u.storageTries.Keys
    requires n == Apply(c, m, UpTo(u, u.storageTries.Keys - rest))
    ensures Apply(c, n, StoragePart(a, u.storageTries[a])) == Apply(c, m, UpTo(u, u.storageTries.Keys - (rest - {a})))
    ensures |Counted(c, m, UpTo(u, u.storageTries.Keys - (rest - {a})))|
         == |Counted(c, m, UpTo(u, u.storageTries.Keys - rest))| + |Counted(c, n, StoragePart(a, u.storageTries[a]))|
  {
    var accounts := u.storageTries.Keys - rest;
    assert u.storageTries.Keys - (rest - {a}) == accounts + {a};
    JoinTrie(u, accounts, a);
    ApplySeparately(c, m, UpTo(u, accounts), StoragePart(a, u.storageTries[a]));
  }

  lemma InTrie(u: TrieUpdates, a: B256, k: Key)
    requires a in u.storageTries
    ensures k in StoragePart(a, u.storageTries[a]).changes <==> k.account == Some(a) && HasChange(u, k)
    ensures k in StoragePart(a, u.storageTries[a]).changes ==>
      StoragePart(a, u.storageTries[a]).changes[k] == ChangeAt(u, k)
  {
    PathChangeAt(Some(a), Changes(u.storageTries[a].storageNodes, u.storageTries[a].removedNodes), k);
  }

  lemma JoinAt(u: TrieUpdates, accounts: set<B256>, a: B256, k: Key)
    requires a in u.storageTries && a !in accounts
    ensures var f, g, part := UpTo(u, accounts), UpTo(u, accounts + {a}), StoragePart(a, u.storageTries[a]);
            && (k in g.changes <==> k in f.changes || k in part.changes)
            && (k in f.changes ==> k !in part.changes && !Wiped(part, k) && f.changes[k] == g.changes[k])
            && (k in part.changes ==> part.changes[k] == g.changes[k])
  {
    UpToAt(u, accounts, k);
    UpToAt(u, accounts + {a}, k);
    InTrie(u, a, k);
    if k.account.Some? {
      assert k.account.value in accounts + {a} <==> k.account.value in accounts || k.account == Some(a);
    }
  }

  lemma JoinWiped(u: TrieUpdates, accounts: set<B256>, a: B256)
    requires a in u.storageTries && a !in accounts
    ensures var f, g, part := UpTo(u, accounts), UpTo(u, accounts + {a}), StoragePart(a, u.storageTries[a]);
      f.wiped + part.wiped == g.wiped && f.wiped !! part.wiped
  {
  }

  lemma JoinSeparate(u: TrieUpdates, accounts: set<B256>, a: B256)
    requires a in u.storageTries && a !in accounts
    ensures Separate(UpTo(u, accounts), StoragePart(a, u.storageTries[a]))
  {
    hide UpTo, StoragePart;
    var f, part := UpTo(u, accounts), StoragePart(a, u.storageTries[a]);
    JoinWiped(u, accounts, a);
    forall k | k in f.changes ensures k !in part.changes && !Wiped(part, k) {
      JoinAt(u, accounts, a, k);
    }
  }

  lemma SameChanges(f: map<Key, Option<Node>>, g: map<Key, Option<Node>>, h: map<Key, Option<Node>>)
    requires forall k :: k in h <==> k in f || k in g
    requires forall k :: k in h ==> h[k] == if k in g then g[k] else f[k]
    ensures f + g == h
  {
  }

  lemma JoinChanges(u: TrieUpdates, accounts: set<B256>, a: B256)
    requires a in u.storageTries && a !in accounts
    ensures UpTo(u, accounts).changes + StoragePart(a, u.storageTries[a]).changes == UpTo(u, accounts + {a}).changes
  {
    hide UpTo, StoragePart;
    var f, part := UpTo(u, accounts).changes, StoragePart(a, u.storageTries[a]).changes;
    var g := UpTo(u, accounts + {a}).changes;
    forall k ensures (k in g <==> k in f || k in part) && (k in g ==> g[k] == if k in part then part[k] else f[k]) {
      JoinAt(u, accounts, a, k);
    }
    SameChanges(f, part, g);
  }

  lemma JoinTrie(u: TrieUpdates, accounts: set<B256>, a: B256)
    requires a in u.storageTries && a !in accounts
    ensures Separate(UpTo(u, accounts), StoragePart(a, u.storageTries[a]))
    ensures Both(UpTo(u, accounts), StoragePart(a, u.storageTries[a])) == UpTo(u, accounts + {a})
  {
    hide UpTo, StoragePart, Separate;
    JoinSeparate(u, accounts, a);
    JoinWiped(u, accounts, a);
    JoinChanges(u, accounts, a);
  }

  /** The later updates over the earlier ones, as one batch. */
  function Then(c: CursorHabits, f: FlatUpdates, g: FlatUpdates): FlatUpdates {
    FlatUpdates(
      f.wiped + g.wiped,
      map k | k in f.changes.Keys + g.changes.Keys
              && ((k in g.changes && Applies(c, k, g.changes[k])) || (k in f.changes && !Wiped(g, k))) ::
        if k in g.changes && Applies(c, k, g.changes[k]) then g.changes[k] else f.changes[k])
  }

  /** Two batches one after the other do what the one batch does, also where they overlap. */
  lemma ApplyThen(c: CursorHabits, m: map<Key, Node>, f: FlatUpdates, g: FlatUpdates)
    ensures Apply(c, Apply(c, m, f), g) == Apply(c, m, Then(c, f, g))
  {
    var n := Apply(c, m, f);
    var h := Then(c, f, g);
    forall k ensures Get(Apply(c, n, g), k) == Get(Apply(c, m, h), k) {
      ApplyAt(c, m, f, k);
      ApplyAt(c, n, g, k);
      ApplyAt(c, m, h, k);
    }
    SameMap(Apply(c, n, g), Apply(c, m, h));
  }

  lemma ApplyNothing(c: CursorHabits, m: map<Key, Node>)
    ensures Apply(c, m, NOTHING) == m
  {
    forall k ensures Get(Apply(c, m, NOTHING), k) == Get(m, k) {
      ApplyAt(c, m, NOTHING, k);
    }
    SameMap(Apply(c, m, NOTHING), m);
  }

  /** Wiping is not counted. */
  lemma WipeCountsNothing(c: CursorHabits, m: map<Key, Node>, wiped: set<B256>)
    ensures Counted(c, m, FlatUpdates(wiped, map[])) == {}
  {
  }

  // ---------------------------------------------------------------------------------------------
  // What a batch does, key by key
  // ---------------------------------------------------------------------------------------------

  ghost predicate Holds(m: map<Key, Node>, k: Key, n: Node) { k in m && m[k] == n }

  ghost predicate Same(m: map<Key, Node>, m': map<Key, Node>, k: Key) {
    (k in m <==> k in m') && (k in m ==> m'[k] == m[k])
  }

  /** The account table: present nodes are there, but for the root; removed ones are gone; the rest stays. */
  ghost predicate AccountWritten(m: map<Key, Node>, u: TrieUpdates, m': map<Key, Node>, p: Path) {
    var k := Key(None, p);
    && (p in u.accountNodes && p != [] ==> Holds(m', k, u.accountNodes[p]))
    && (p in u.accountNodes && p == [] ==> Same(m, m', k))
    && (p in u.removedNodes && p !in u.accountNodes ==> k !in m')
    && (p !in u.removedNodes && p !in u.accountNodes ==> Same(m, m', k))
  }

  ghost predicate AccountsWritten(m: map<Key, Node>, u: TrieUpdates, m': map<Key, Node>) {
    forall p: Path :: AccountWritten(m, u, m', p)
  }

  /** One path of one storage trie, unless it is an empty one that the cursor ignores. */
  ghost predicate StoragePathWritten(m: map<Key, Node>, s: StorageTrieUpdates, m': map<Key, Node>, a: B256, p: Path) {
    var k := Key(Some(a), p);
    && (p in s.storageNodes ==> Holds(m', k, s.storageNodes[p]))
    && (p in s.removedNodes && p !in s.storageNodes ==> k !in m')
    && (s.isDeleted && p !in s.storageNodes ==> k !in m')
    && (!s.isDeleted && p !in s.removedNodes && p !in s.storageNodes ==> Same(m, m', k))
  }

  /** A storage trie: its nodes are there, removed ones are gone, and of a deleted one nothing else is left. */
  ghost predicate StorageWrittenAt(c: CursorHabits, m: map<Key, Node>, u: TrieUpdates, m': map<Key, Node>, a: B256,
          p: Path)
  {
    var k := Key(Some(a), p);
    if a !in u.storageTries then Same(m, m', k)
    else if c.skipsRoot && p == [] then
      if u.storageTries[a].isDeleted then k !in m' else Same(m, m', k)
    else StoragePathWritten(m, u.storageTries[a], m', a, p)
  }

  ghost predicate StoragesWritten(c: CursorHabits, m: map<Key, Node>, u: TrieUpdates, m': map<Key, Node>) {
    forall a: B256, p: Path :: StorageWrittenAt(c, m, u, m', a, p)
  }

  ghost function AccountUpserts(u: TrieUpdates): set<Path> {
    set p | p in u.accountNodes && p != []
  }

  ghost function AccountDeletes(m: map<Key, Node>, u: TrieUpdates): set<Path> {
    set p | p in u.removedNodes && p !in u.accountNodes && Key(None, p) in m
  }

  ghost function StorageUpserts(c: CursorHabits, u: TrieUpdates): set<(B256, Path)> {
    set a, p | a in u.storageTries && p in u.storageTries[a].storageNodes && !(c.skipsRoot && p == []) :: (a, p)
  }

  /** Removals that found a node, in a trie not wiped before; or all of them, if the cursor counts those. */
  ghost function StorageDeletes(c: CursorHabits, m: map<Key, Node>, u: TrieUpdates): set<(B256, Path)> {
    set a, p | a in u.storageTries && p in u.storageTries[a].removedNodes && p !in u.storageTries[a].storageNodes
               && !(c.skipsRoot && p == [])
               && (c.countsAbsent || (Key(Some(a), p) in m && !u.storageTries[a].isDeleted)) :: (a, p)
  }

  lemma FlatAt(u: TrieUpdates, k: Key)
    ensures k in FlatOf(u).changes <==> HasChange(u, k)
    ensures HasChange(u, k) ==> FlatOf(u).changes[k] == ChangeAt(u, k)
    ensures Wiped(FlatOf(u), k) <==>
      k.account.Some? && k.account.value in u.storageTries && u.storageTries[k.account.value].isDeleted
  {
    UpToAt(u, u.storageTries.Keys, k);
  }

  lemma WritesAccount(c: CursorHabits, m: map<Key, Node>, u: TrieUpdates, p: Path)
    ensures AccountWritten(m, u, Apply(c, m, FlatOf(u)), p)
  {
    FlatAt(u, Key(None, p));
    ApplyAt(c, m, FlatOf(u), Key(None, p));
    hide Apply, UpTo;
  }

  lemma WritesStorage(c: CursorHabits, m: map<Key, Node>, u: TrieUpdates, a: B256, p: Path)
    ensures StorageWrittenAt(c, m, u, Apply(c, m, FlatOf(u)), a, p)
  {
    FlatAt(u, Key(Some(a), p));
    ApplyAt(c, m, FlatOf(u), Key(Some(a), p));
    hide Apply, UpTo;
  }

  /** The overlay of a batch is what the batch says, key by key. */
  lemma OverlayMeans(c: CursorHabits, m: map<Key, Node>, u: TrieUpdates)
    ensures AccountsWritten(m, u, Apply(c, m, FlatOf(u)))
    ensures StoragesWritten(c, m, u, Apply(c, m, FlatOf(u)))
  {
    hide Apply, UpTo, AccountWritten, StorageWrittenAt;
    forall p: Path ensures AccountWritten(m, u, Apply(c, m, FlatOf(u)), p) {
      WritesAccount(c, m, u, p);
    }
    forall a: B256, p: Path ensures StorageWrittenAt(c, m, u, Apply(c, m, FlatOf(u)), a, p) {
      WritesStorage(c, m, u, a, p);
    }
  }

  function AtAccount(p: Path): Key { Key(None, p) }

  function AtStorage(r: (B256, Path)): Key { Key(Some(r.0), r.1) }

  ghost function Images<T>(f: T -> Key, s: set<T>): set<Key> { set x | x in s :: f(x) }

  lemma {:induction false} ImagesCount<T(!new)>(f: T -> Key, s: set<T>)
    requires forall x, y :: x in s && y in s && f(x) == f(y) ==> x == y
    ensures |Images(f, s)| == |s|
  {
    if s == {} {
      assert Images(f, s) == {};
    } else {
      var x :| x in s;
      ImagesCount(f, s - {x});
      assert Images(f, s) == Images(f, s - {x}) + {f(x)};
    }
  }

  /** The entries counted are the upserts and the counted removals of both tables. */
  lemma CountedMeans(c: CursorHabits, m: map<Key, Node>, u: TrieUpdates, k: Key)
    ensures k in Counted(c, m, FlatOf(u)) <==>
      match k.account
      case None => k.path in AccountUpserts(u) || k.path in AccountDeletes(m, u)
      case Some(a) => (a, k.path) in StorageUpserts(c, u) || (a, k.path) in StorageDeletes(c, m, u)
  {
    FlatAt(u, k);
    CountedAt(c, m, FlatOf(u), k);
    hide Counted, UpTo;
  }

  lemma AccountImage(s: set<Path>, k: Key)
    ensures k in Images(AtAccount, s) <==> k.account.None? && k.path in s
  {
    if k.account.None? {
      assert k == AtAccount(k.path);
    }
  }

  lemma StorageImage(s: set<(B256, Path)>, k: Key)
    ensures k in Images(AtStorage, s) <==> k.account.Some? && (k.account.value, k.path) in s
  {
    if k.account.Some? {
      assert k == AtStorage((k.account.value, k.path));
    }
  }

  lemma UpsertsAndDeletes(c: CursorHabits, m: map<Key, Node>, u: TrieUpdates)
    ensures AccountUpserts(u) !! AccountDeletes(m, u) && StorageUpserts(c, u) !! StorageDeletes(c, m, u)
  {
  }

  lemma ImagesApart(s: set<Path>, t: set<(B256, Path)>)
    ensures Images(AtAccount, s) !! Images(AtStorage, t)
    ensures |Images(AtAccount, s) + Images(AtStorage, t)| == |s| + |t|
  {
    ImagesCount(AtAccount, s);
    ImagesCount(AtStorage, t);
    hide Images;
    forall k ensures !(k in Images(AtAccount, s) && k in Images(AtStorage, t)) {
      AccountImage(s, k);
      StorageImage(t, k);
    }
  }

  /** Their number, table by table. */
  lemma CountedIsSum(c: CursorHabits, m: map<Key, Node>, u: TrieUpdates)
    ensures |Counted(c, m, FlatOf(u))|
         == |AccountUpserts(u)| + |AccountDeletes(m, u)| + |StorageUpserts(c, u)| + |StorageDeletes(c, m, u)|
  {
    hide AccountUpserts, AccountDeletes, StorageUpserts, StorageDeletes, Counted, FlatOf, Images;
    var s, t := AccountUpserts(u) + AccountDeletes(m, u), StorageUpserts(c, u) + StorageDeletes(c, m, u);
    UpsertsAndDeletes(c, m, u);
    forall k ensures k in Counted(c, m, FlatOf(u)) <==> k in Images(AtAccount, s) + Images(AtStorage, t) {
      CountedMeans(c, m, u, k);
      AccountImage(s, k);
      StorageImage(t, k);
    }
    assert Counted(c, m, FlatOf(u)) == Images(AtAccount, s) + Images(AtStorage, t);
    ImagesApart(s, t);
  }
}
