/** The running digest of a node multiset: one count and two XOR folds. */
module NodeDigests {
  import opened Trie
  import opened NodeEncoding
  import opened XorFold

  /**
   * The two seeded hashes, of which nothing is known but their width. The program's has 64 bits;
   * what is proved here holds for every width.
   */
  datatype Seeds = Seeds(width: nat, first: Bytes -> Word, second: Bytes -> Word)

  ghost predicate Sized(seeds: Seeds) {
    forall b :: Fits(seeds.first(b), seeds.width) && Fits(seeds.second(b), seeds.width)
  }

  function FirstHash(seeds: Seeds): Entry -> Word { e => seeds.first(Encode(e)) }

  function SecondHash(seeds: Seeds): Entry -> Word { e => seeds.second(Encode(e)) }

  datatype Digest = Digest(count: nat, fold: Word)

  /** The first accumulator shifted up by the width, or the second. */
  function Join(width: nat, hi: Word, lo: Word): Word { (set i | i in hi :: i + width) + lo }

  lemma JoinAt(width: nat, hi: Word, lo: Word, i: nat)
    requires Fits(lo, width)
    ensures i in Join(width, hi, lo) <==> if i < width then i in lo else i - width in hi
  {
    if i >= width && i - width in hi {
      assert i - width + width == i;
    }
  }

  lemma JoinInjective(width: nat, a: Word, b: Word, c: Word, d: Word)
    requires Fits(b, width) && Fits(d, width)
    ensures Join(width, a, b) == Join(width, c, d) <==> a == c && b == d
  {
    if Join(width, a, b) == Join(width, c, d) {
      forall i: nat ensures (i in a <==> i in c) && (i in b <==> i in d) {
        JoinAt(width, a, b, i + width);
        JoinAt(width, c, d, i + width);
        JoinAt(width, a, b, i);
        JoinAt(width, c, d, i);
      }
    }
  }

  /** The digest of a sequence of pushes; the counter is 64 bits wide. */
  function DigestOf(seeds: Seeds, s: seq<Entry>): Digest {
    Digest(|s| % TWO_TO_THE_64, Join(seeds.width, XorAll(FirstHash(seeds), s), XorAll(SecondHash(seeds), s)))
  }

  /** The digest of a set of nodes, with no order at all. */
  ghost function DigestOfSet(seeds: Seeds, s: set<Entry>): Digest {
    Digest(|s| % TWO_TO_THE_64, Join(seeds.width, XorSet(FirstHash(seeds), s), XorSet(SecondHash(seeds), s)))
  }

  /**
   * Bit by bit: the low half folds the second seed's hashes, the high half the first's, and a bit
   * is set when an odd number of the nodes' buffers hash to a word with it.
   */
  lemma DigestBits(seeds: Seeds, s: seq<Entry>, i: nat)
    requires Sized(seeds)
    ensures DigestOf(seeds, s).count == |s| % TWO_TO_THE_64
    ensures i in DigestOf(seeds, s).fold <==>
      if i < seeds.width then |set k | 0 <= k < |s| && i in seeds.second(Encode(s[k]))| % 2 == 1
      else |set k | 0 <= k < |s| && i - seeds.width in seeds.first(Encode(s[k]))| % 2 == 1
  {
    var hi, lo := XorAll(FirstHash(seeds), s), XorAll(SecondHash(seeds), s);
    XorAllIsOdd(SecondHash(seeds), s);
    FoldFits(seeds, Odd(s));
    JoinAt(seeds.width, hi, lo, i);
    if i < seeds.width {
      BitIsParity(SecondHash(seeds), s, i);
      assert Having(SecondHash(seeds), s, i) == set k | 0 <= k < |s| && i in seeds.second(Encode(s[k]));
    } else {
      BitIsParity(FirstHash(seeds), s, i - seeds.width);
      assert Having(FirstHash(seeds), s, i - seeds.width)
          == set k | 0 <= k < |s| && i - seeds.width in seeds.first(Encode(s[k]));
    }
  }

  /** The same for a set of nodes, such as the rows of tables. */
  lemma SetDigestBits(seeds: Seeds, s: set<Entry>, i: nat)
    requires Sized(seeds)
    ensures DigestOfSet(seeds, s).count == |s| % TWO_TO_THE_64
    ensures i in DigestOfSet(seeds, s).fold <==>
      if i < seeds.width then |set e | e in s && i in seeds.second(Encode(e))| % 2 == 1
      else |set e | e in s && i - seeds.width in seeds.first(Encode(e))| % 2 == 1
  {
    var hi, lo := XorSet(FirstHash(seeds), s), XorSet(SecondHash(seeds), s);
    FoldFits(seeds, s);
    JoinAt(seeds.width, hi, lo, i);
    if i < seeds.width {
      SetBitIsParity(SecondHash(seeds), s, i);
      assert HavingIn(SecondHash(seeds), s, i) == set e | e in s && i in seeds.second(Encode(e));
    } else {
      SetBitIsParity(FirstHash(seeds), s, i - seeds.width);
      assert HavingIn(FirstHash(seeds), s, i - seeds.width)
          == set e | e in s && i - seeds.width in seeds.first(Encode(e));
    }
  }

  lemma DigestIgnoresOrder(seeds: Seeds, s: seq<Entry>, t: seq<Entry>)
    requires multiset(s) == multiset(t)
    ensures DigestOf(seeds, s) == DigestOf(seeds, t)
  {
    FoldIgnoresOrder(FirstHash(seeds), s, t);
    FoldIgnoresOrder(SecondHash(seeds), s, t);
    assert |multiset(s)| == |s| && |multiset(t)| == |t|;
  }

  lemma DigestOfDistinct(seeds: Seeds, s: seq<Entry>)
    requires NoDuplicates(s)
    ensures DigestOf(seeds, s) == DigestOfSet(seeds, Elements(s))
  {
    OddOfDistinct(s);
    XorAllIsOdd(FirstHash(seeds), s);
    XorAllIsOdd(SecondHash(seeds), s);
  }

  // ---------------------------------------------------------------------------------------------
  // What an equal digest says about the nodes
  // ---------------------------------------------------------------------------------------------

  ghost function Buffers(s: set<Entry>): set<Bytes> { set e | e in s :: Encode(e) }

  /** An ideal hash: no non-empty set of the buffers XORs to zero under both seeds. */
  ghost predicate Independent(seeds: Seeds, buffers: set<Bytes>) {
    forall b: set<Bytes> | b <= buffers && b != {} ::
      XorSet(seeds.first, b) != NoBits() || XorSet(seeds.second, b) != NoBits()
  }

  /** Folding nodes is folding their buffers: the encoding merges no two nodes. */
  lemma {:induction false} XorOfBuffers(f: Bytes -> Word, g: Entry -> Word, s: set<Entry>)
    requires forall e :: g(e) == f(Encode(e))
    ensures XorSet(g, s) == XorSet(f, Buffers(s))
    decreases |s|
  {
    if s == {} {
      assert Buffers(s) == {};
    } else {
      var x := Pick(s);
      var rest := s - {x};
      XorOfBuffers(f, g, rest);
      forall e | e in rest ensures Encode(e) != Encode(x) {
        EncodeInjective(e, x);
      }
      assert Buffers(s) - {Encode(x)} == Buffers(rest);
      XorSetRemove(f, Buffers(s), Encode(x));
    }
  }

  lemma OddAreElements(s: seq<Entry>)
    ensures Odd(s) <= Elements(s)
  {
    forall e | e in Odd(s) ensures e in Elements(s) {
      OddIsOddMultiplicity(s, e);
    }
  }

  /** An ideal hash sees every non-empty set of nodes. */
  lemma FoldSeesNodes(seeds: Seeds, d: set<Entry>, all: set<Entry>)
    requires d != {} && d <= all && Independent(seeds, Buffers(all))
    ensures XorSet(FirstHash(seeds), d) != NoBits() || XorSet(SecondHash(seeds), d) != NoBits()
  {
    XorOfBuffers(seeds.first, FirstHash(seeds), d);
    XorOfBuffers(seeds.second, SecondHash(seeds), d);
    assert Buffers(d) <= Buffers(all);
    var e :| e in d;
    assert Encode(e) in Buffers(d);
  }

  /** Sets whose buffers an ideal hash covers fold alike exactly when they are equal. */
  lemma SetFoldSound(seeds: Seeds, s: set<Entry>, t: set<Entry>)
    requires Independent(seeds, Buffers(s + t))
    ensures XorSet(FirstHash(seeds), s) == XorSet(FirstHash(seeds), t)
            && XorSet(SecondHash(seeds), s) == XorSet(SecondHash(seeds), t)
            <==> s == t
  {
    if s != t {
      CollisionExactly(FirstHash(seeds), s, t);
      CollisionExactly(SecondHash(seeds), s, t);
      var e :| (e in s) != (e in t);
      assert e in SymmetricDifference(s, t);
      FoldSeesNodes(seeds, SymmetricDifference(s, t), s + t);
    }
  }

  lemma FoldFits(seeds: Seeds, s: set<Entry>)
    requires Sized(seeds)
    ensures Fits(XorSet(SecondHash(seeds), s), seeds.width)
  {
    forall e | e in s ensures Fits(SecondHash(seeds)(e), seeds.width) {
      assert Fits(seeds.second(Encode(e)), seeds.width);
    }
    XorSetFits(SecondHash(seeds), s, seeds.width);
  }

  /** Equal folds are equal folds of the nodes of odd multiplicity, seed by seed. */
  lemma FoldSplits(seeds: Seeds, s: seq<Entry>, t: seq<Entry>)
    requires Sized(seeds)
    ensures DigestOf(seeds, s).fold == DigestOf(seeds, t).fold
       <==> XorSet(FirstHash(seeds), Odd(s)) == XorSet(FirstHash(seeds), Odd(t))
            && XorSet(SecondHash(seeds), Odd(s)) == XorSet(SecondHash(seeds), Odd(t))
  {
    XorAllIsOdd(FirstHash(seeds), s);
    XorAllIsOdd(FirstHash(seeds), t);
    XorAllIsOdd(SecondHash(seeds), s);
    XorAllIsOdd(SecondHash(seeds), t);
    FoldFits(seeds, Odd(s));
    FoldFits(seeds, Odd(t));
    JoinInjective(seeds.width, XorSet(FirstHash(seeds), Odd(s)), XorSet(SecondHash(seeds), Odd(s)),
                  XorSet(FirstHash(seeds), Odd(t)), XorSet(SecondHash(seeds), Odd(t)));
  }

  /**
   * Any hash, any nodes: two multisets collide exactly when their sizes agree modulo 2^64 and the
   * buffers of the nodes that occur oddly often in just one of them fold to zero under both seeds.
   */
  lemma DigestCollidesExactly(seeds: Seeds, s: seq<Entry>, t: seq<Entry>)
    requires Sized(seeds)
    ensures var apart := Buffers(SymmetricDifference(Odd(s), Odd(t)));
      DigestOf(seeds, s) == DigestOf(seeds, t)
      <==> |s| % TWO_TO_THE_64 == |t| % TWO_TO_THE_64
           && XorSet(seeds.first, apart) == NoBits() && XorSet(seeds.second, apart) == NoBits()
  {
    hide Odd, SymmetricDifference, Buffers, Join;
    var apart := SymmetricDifference(Odd(s), Odd(t));
    FoldSplits(seeds, s, t);
    CollisionExactly(FirstHash(seeds), Odd(s), Odd(t));
    CollisionExactly(SecondHash(seeds), Odd(s), Odd(t));
    XorOfBuffers(seeds.first, FirstHash(seeds), apart);
    XorOfBuffers(seeds.second, SecondHash(seeds), apart);
  }

  /** For sets of nodes, such as the rows of tables, those are the nodes in just one of the two. */
  lemma SetsCollideExactly(seeds: Seeds, s: set<Entry>, t: set<Entry>)
    requires Sized(seeds)
    ensures var apart := Buffers(SymmetricDifference(s, t));
      DigestOfSet(seeds, s) == DigestOfSet(seeds, t)
      <==> |s| % TWO_TO_THE_64 == |t| % TWO_TO_THE_64
           && XorSet(seeds.first, apart) == NoBits() && XorSet(seeds.second, apart) == NoBits()
  {
    hide SymmetricDifference, Buffers, Join;
    var apart := SymmetricDifference(s, t);
    FoldFits(seeds, s);
    FoldFits(seeds, t);
    JoinInjective(seeds.width, XorSet(FirstHash(seeds), s), XorSet(SecondHash(seeds), s),
                  XorSet(FirstHash(seeds), t), XorSet(SecondHash(seeds), t));
    CollisionExactly(FirstHash(seeds), s, t);
    CollisionExactly(SecondHash(seeds), s, t);
    XorOfBuffers(seeds.first, FirstHash(seeds), apart);
    XorOfBuffers(seeds.second, SecondHash(seeds), apart);
  }

  /** The same for sequences without repeats. */
  lemma DistinctCollideExactly(seeds: Seeds, s: seq<Entry>, t: seq<Entry>)
    requires Sized(seeds) && NoDuplicates(s) && NoDuplicates(t)
    ensures var apart := Buffers(SymmetricDifference(Elements(s), Elements(t)));
      DigestOf(seeds, s) == DigestOf(seeds, t)
      <==> |s| % TWO_TO_THE_64 == |t| % TWO_TO_THE_64
           && XorSet(seeds.first, apart) == NoBits() && XorSet(seeds.second, apart) == NoBits()
  {
    OddOfDistinct(s);
    OddOfDistinct(t);
    DigestOfDistinct(seeds, s);
    DigestOfDistinct(seeds, t);
    SetsCollideExactly(seeds, Elements(s), Elements(t));
  }

  /** Equal folds under an ideal hash mean equal sets of nodes of odd multiplicity. */
  lemma FoldIsOddSet(seeds: Seeds, s: seq<Entry>, t: seq<Entry>)
    requires Sized(seeds) && Independent(seeds, Buffers(Elements(s) + Elements(t)))
    ensures DigestOf(seeds, s).fold == DigestOf(seeds, t).fold <==> Odd(s) == Odd(t)
  {
    hide DigestOf;
    OddAreElements(s);
    OddAreElements(t);
    assert Buffers(Odd(s) + Odd(t)) <= Buffers(Elements(s) + Elements(t));
    FoldSplits(seeds, s, t);
    SetFoldSound(seeds, Odd(s), Odd(t));
  }

  /** Two duplicate-free node sets have equal digests exactly when they are equal. */
  lemma DigestSound(seeds: Seeds, s: seq<Entry>, t: seq<Entry>)
    requires NoDuplicates(s) && NoDuplicates(t)
    requires Sized(seeds) && Independent(seeds, Buffers(Elements(s) + Elements(t)))
    ensures DigestOf(seeds, s) == DigestOf(seeds, t) <==> Elements(s) == Elements(t)
  {
    OddOfDistinct(s);
    OddOfDistinct(t);
    FoldIsOddSet(seeds, s, t);
  }

  /** One duplicate-free side suffices: whatever digests like it is the same multiset. */
  lemma DigestDetermines(seeds: Seeds, s: seq<Entry>, t: seq<Entry>)
    requires NoDuplicates(s)
    requires |s| < TWO_TO_THE_64 && |t| < TWO_TO_THE_64
    requires Sized(seeds) && Independent(seeds, Buffers(Elements(s) + Elements(t)))
    requires DigestOf(seeds, s) == DigestOf(seeds, t)
    ensures multiset(s) == multiset(t)
  {
    assert |s| == |t|;
    OddOfDistinct(s);
    OddCardinality(t);
    FoldIsOddSet(seeds, s, t);
    SameDistinctElements(s, t);
  }

  lemma SameDistinctElements<T(!new)>(s: seq<T>, t: seq<T>)
    requires NoDuplicates(s) && NoDuplicates(t) && Odd(s) == Odd(t)
    ensures multiset(s) == multiset(t)
  {
    forall e ensures multiset(s)[e] == multiset(t)[e] {
      DistinctMultiplicity(s, e);
      DistinctMultiplicity(t, e);
      OddIsOddMultiplicity(s, e);
      OddIsOddMultiplicity(t, e);
    }
  }

  lemma {:induction false} DistinctMultiplicity<T(!new)>(s: seq<T>, e: T)
    requires NoDuplicates(s)
    ensures multiset(s)[e] <= 1
  {
    if s != [] {
      DistinctMultiplicity(s[1..], e);
      assert s == [s[0]] + s[1..];
      assert s[0] !in s[1..];
    }
  }

  /**
   * A repeated node hides from the digest, whatever the hash: a different multiset has the same
   * count and the same fold.
   */
  lemma DuplicateCollides(seeds: Seeds, s: seq<Entry>, i: nat, j: nat) returns (t: seq<Entry>)
    requires i < j < |s| && s[i] == s[j]
    ensures DigestOf(seeds, t) == DigestOf(seeds, s) && |t| == |s|
    ensures multiset(t) != multiset(s)
  {
    var root := if s[i].node.rootHash.Some? then None else Some(Zero());
    var y := Entry(s[i].key, s[i].node.(rootHash := root));
    t := s[i := y][j := y];
    assert y.node.rootHash != s[i].node.rootHash;
    ReplacedDigest(seeds, s, i, j, y);
  }

  lemma ReplacedOnce<T(!new)>(s: seq<T>, i: nat, y: T, x: T)
    requires i < |s| && s[i] != y
    ensures multiset(s[i := y])[x] ==
            multiset(s)[x] + (if x == y then 1 else 0) - (if x == s[i] then 1 else 0)
  {
    assert s == s[..i] + [s[i]] + s[i + 1..];
    assert s[i := y] == s[..i] + [y] + s[i + 1..];
  }

  lemma ReplacedPair<T(!new)>(s: seq<T>, i: nat, j: nat, y: T)
    requires i < j < |s| && s[i] == s[j] && y != s[i]
    ensures var t := s[i := y][j := y];
            multiset(t) != multiset(s) && forall x :: multiset(t)[x] % 2 == multiset(s)[x] % 2
  {
    forall x ensures multiset(s[i := y][j := y])[x] % 2 == multiset(s)[x] % 2 {
      ReplacedOnce(s, i, y, x);
      ReplacedOnce(s[i := y], j, y, x);
    }
    ReplacedOnce(s, i, y, y);
    ReplacedOnce(s[i := y], j, y, y);
    assert multiset(s[i := y][j := y])[y] == multiset(s)[y] + 2;
  }

  /** Among sequences over the nodes `all`, the digest of `s` belongs to no other multiset. */
  ghost predicate Determined(seeds: Seeds, s: seq<Entry>, all: set<Entry>) {
    forall t: seq<Entry> :: Elements(t) <= all && |t| < TWO_TO_THE_64 && DigestOf(seeds, t) == DigestOf(seeds, s) ==>
      multiset(t) == multiset(s)
  }

  lemma IndependentSubset(seeds: Seeds, s: set<Entry>, all: set<Entry>)
    requires s <= all && Independent(seeds, Buffers(all))
    ensures Independent(seeds, Buffers(s))
  {
    assert Buffers(s) <= Buffers(all);
  }

  /** Under an ideal hash a digest determines its multiset of nodes exactly when no node repeats. */
  lemma DeterminedExactly(seeds: Seeds, s: seq<Entry>, all: set<Entry>)
    requires Elements(s) <= all && |all| > 1 && |s| < TWO_TO_THE_64
    requires Sized(seeds) && Independent(seeds, Buffers(all))
    ensures Determined(seeds, s, all) <==> NoDuplicates(s)
  {
    hide Independent, DigestOf, Sized;
    if NoDuplicates(s) {
      forall t: seq<Entry> | Elements(t) <= all && |t| < TWO_TO_THE_64 && DigestOf(seeds, t) == DigestOf(seeds, s)
        ensures multiset(t) == multiset(s)
      {
        IndependentSubset(seeds, Elements(s) + Elements(t), all);
        DigestDetermines(seeds, s, t);
      }
    } else {
      var i, j :| 0 <= i < j < |s| && s[i] == s[j];
      assert s[i] in all;
      var y := Another(all, s[i]);
      var t := s[i := y][j := y];
      ReplacedDigest(seeds, s, i, j, y);
      assert Elements(t) <= all;
      assert !Determined(seeds, s, all);
    }
  }

  lemma Another(all: set<Entry>, x: Entry) returns (y: Entry)
    requires |all| > 1 && x in all
    ensures y in all && y != x
  {
    assert all - {x} != {} by {
      assert all == (all - {x}) + {x};
    }
    y :| y in all - {x};
  }

  lemma ReplacedDigest(seeds: Seeds, s: seq<Entry>, i: nat, j: nat, y: Entry)
    requires i < j < |s| && s[i] == s[j] && y != s[i]
    ensures var t := s[i := y][j := y];
      |t| == |s| && multiset(t) != multiset(s) && DigestOf(seeds, t) == DigestOf(seeds, s)
  {
    ReplacedPair(s, i, j, y);
    FoldIsParity(FirstHash(seeds), s[i := y][j := y], s);
    FoldIsParity(SecondHash(seeds), s[i := y][j := y], s);
  }

  // ---------------------------------------------------------------------------------------------
  // When an ideal hash exists
  // ---------------------------------------------------------------------------------------------

  function Joined(seeds: Seeds): Bytes -> Word { b => Join(seeds.width, seeds.first(b), seeds.second(b)) }

  lemma JoinXor(width: nat, a: Word, b: Word, c: Word, d: Word)
    requires Fits(b, width) && Fits(d, width)
    ensures Xor(Join(width, a, b), Join(width, c, d)) == Join(width, Xor(a, c), Xor(b, d))
  {
    hide Join;
    forall i: nat ensures i in Xor(Join(width, a, b), Join(width, c, d)) <==> i in Join(width, Xor(a, c), Xor(b, d)) {
      JoinAt(width, a, b, i);
      JoinAt(width, c, d, i);
      JoinAt(width, Xor(a, c), Xor(b, d), i);
    }
  }

  /** The two folds side by side are one fold of twice the width. */
  lemma {:induction false} XorOfJoined(seeds: Seeds, s: set<Bytes>)
    requires Sized(seeds)
    ensures XorSet(Joined(seeds), s) == Join(seeds.width, XorSet(seeds.first, s), XorSet(seeds.second, s))
  {
    if s != {} {
      var b := Pick(s);
      XorOfJoined(seeds, s - {b});
      XorSetFits(seeds.second, s - {b}, seeds.width);
      JoinXor(seeds.width, seeds.first(b), seeds.second(b),
              XorSet(seeds.first, s - {b}), XorSet(seeds.second, s - {b}));
    }
  }

  lemma JoinedFits(seeds: Seeds, b: Bytes)
    requires Sized(seeds)
    ensures Fits(Joined(seeds)(b), 2 * seeds.width)
  {
    assert Fits(seeds.first(b), seeds.width);
  }

  /** No hash is ideal on more buffers than the two accumulators have bits. */
  lemma IdealHashNeedsWidth(seeds: Seeds, buffers: set<Bytes>)
    requires Sized(seeds) && Independent(seeds, buffers)
    ensures |buffers| <= 2 * seeds.width
  {
    if |buffers| > 2 * seeds.width {
      forall b | b in buffers ensures Fits(Joined(seeds)(b), 2 * seeds.width) {
        JoinedFits(seeds, b);
      }
      var d := Dependent(Joined(seeds), buffers, 2 * seeds.width);
      XorOfJoined(seeds, d);
      XorSetFits(seeds.second, d, seeds.width);
      JoinInjective(seeds.width, XorSet(seeds.first, d), XorSet(seeds.second, d), NoBits(), NoBits());
      assert false;
    }
  }

  /** A hash that gives every numbered buffer a bit of its own. */
  function Unary(width: nat, index: map<Bytes, nat>): (seeds: Seeds)
    requires forall b :: b in index ==> index[b] < 2 * width
    ensures Sized(seeds) && seeds.width == width
  {
    Seeds(width,
          b => if b in index && width <= index[b] < 2 * width then {index[b] - width} else {},
          b => if b in index && index[b] < width then {index[b]} else {})
  }

  lemma UnaryJoined(width: nat, index: map<Bytes, nat>, b: Bytes)
    requires b in index && forall b :: b in index ==> index[b] < 2 * width
    ensures Joined(Unary(width, index))(b) == {index[b]}
  {
  }

  /** And on as many buffers some hash is. */
  lemma IdealHashExists(width: nat, buffers: set<Bytes>) returns (seeds: Seeds)
    requires |buffers| <= 2 * width
    ensures seeds.width == width && Sized(seeds) && Independent(seeds, buffers)
  {
    hide Join;
    var index := Numbering(buffers);
    seeds := Unary(width, index);
    forall s: set<Bytes> | s <= buffers && s != {}
      ensures XorSet(seeds.first, s) != NoBits() || XorSet(seeds.second, s) != NoBits()
    {
      forall b | b in s ensures Joined(seeds)(b) == {index[b]} {
        UnaryJoined(width, index, b);
      }
      XorOfSingletons(Joined(seeds), index, s);
      XorOfJoined(seeds, s);
      var b :| b in s;
      assert index[b] in XorSet(Joined(seeds), s);
      JoinOfNothing(width);
    }
  }

  lemma JoinOfNothing(width: nat)
    ensures Join(width, NoBits(), NoBits()) == NoBits()
  {
  }

  // ---------------------------------------------------------------------------------------------
  // The running digest
  // ---------------------------------------------------------------------------------------------

  class NodeDigest {
    const seeds: Seeds
    var count: nat
    var fold: seq<Word>
    /** Everything pushed so far, in order. */
    ghost var pushed: seq<Entry>

    ghost predicate Valid()
      reads this
    {
      && |fold| == 2
      && count == |pushed| % TWO_TO_THE_64
      && fold[0] == XorAll(FirstHash(seeds), pushed)
      && fold[1] == XorAll(SecondHash(seeds), pushed)
    }

    constructor (seeds: Seeds)
      ensures Valid() && this.seeds == seeds && pushed == []
    {
      this.seeds := seeds;
      count := 0;
      fold := [NoBits(), NoBits()];
      pushed := [];
    }

    /** XORs the hash of a buffer under each seed into that seed's accumulator. */
    method FoldIn(buf: Bytes)
      requires |fold| == 2
      modifies this`fold
      ensures |fold| == 2
      ensures fold[0] == Xor(old(fold)[0], seeds.first(buf))
      ensures fold[1] == Xor(old(fold)[1], seeds.second(buf))
    {
      ghost var before := fold;
      var hashes := [seeds.first, seeds.second];
      for i := 0 to 2
        invariant |fold| == 2
        invariant forall j :: 0 <= j < i ==> fold[j] == Xor(before[j], hashes[j](buf))
        invariant forall j :: i <= j < 2 ==> fold[j] == before[j]
      {
        fold := fold[i := Xor(fold[i], hashes[i](buf))];
      }
    }

    /** Folds one node in: one XOR per seed, then the count, which wraps at 64 bits. */
    method Push(account: Option<B256>, path: Path, node: Node)
      requires Valid()
      modifies this
      ensures Valid()
      ensures pushed == old(pushed) + [Entry(Key(account, path), node)]
    {
      var buf := BuildBuffer(account, path, node);
      ghost var e := Entry(Key(account, path), node);
      FoldIn(buf);
      count := (count + 1) % TWO_TO_THE_64;
      PushedOneMore(seeds, pushed, e);
      pushed := pushed + [e];
    }

    method Snapshot() returns (d: Digest)
      requires Valid()
      ensures d == DigestOf(seeds, pushed)
    {
      var hi := fold[0];
      var lo := fold[1];
      d := Digest(count, Join(seeds.width, hi, lo));
    }

    /** Pushes the nodes of one map, which iterates in an order of its own. */
    method PushAll(account: Option<B256>, nodes: map<Path, Node>)
      requires Valid() && NoDuplicates(pushed)
      requires forall e :: e in pushed ==> e.key.account != account
      modifies this
      ensures Valid() && NoDuplicates(pushed)
      ensures Elements(pushed) == old(Elements(pushed)) + PathEntries(account, nodes)
    {
      var rest := nodes;
      while rest != map[]
        invariant Valid() && NoDuplicates(pushed)
        invariant rest.Keys <= nodes.Keys && forall p :: p in rest ==> rest[p] == nodes[p]
        invariant forall e :: e in pushed <==>
          e in old(pushed) || (e in PathEntries(account, nodes) && e.key.path !in rest)
        decreases |rest|
      {
        var p :| p in rest;
        ghost var before := pushed;
        Push(account, p, nodes[p]);
        assert pushed[..|before|] == before;
        rest := rest - {p};
      }
    }

    /** The digest of a `TrieUpdates`, for every order in which its maps iterate. */
    static method OfTrieUpdates(seeds: Seeds, updates: TrieUpdates) returns (d: Digest)
      ensures d == DigestOfSet(seeds, Entries(FlatNodes(updates)))
    {
      var digest := new NodeDigest(seeds);
      digest.PushAll(None, updates.accountNodes);
      var rest := updates.storageTries;
      while rest != map[]
        invariant digest.Valid() && NoDuplicates(digest.pushed)
        invariant digest.seeds == seeds
        invariant rest.Keys <= updates.storageTries.Keys
        invariant Elements(digest.pushed) == EntriesOutside(updates, rest.Keys)
        decreases |rest|
      {
        var account :| account in rest;
        assert forall e :: e in digest.pushed ==> e in Elements(digest.pushed);
        EntriesOutsideFewer(updates, rest.Keys, account);
        digest.PushAll(Some(account), updates.storageTries[account].storageNodes);
        rest := rest - {account};
      }
      assert EntriesOutside(updates, {}) == Entries(FlatNodes(updates));
      DigestOfDistinct(seeds, digest.pushed);
      d := digest.Snapshot();
    }
  }

  lemma PushedOneMore(seeds: Seeds, s: seq<Entry>, e: Entry)
    ensures XorAll(FirstHash(seeds), s + [e]) == Xor(XorAll(FirstHash(seeds), s), seeds.first(Encode(e)))
    ensures XorAll(SecondHash(seeds), s + [e]) == Xor(XorAll(SecondHash(seeds), s), seeds.second(Encode(e)))
    ensures |s + [e]| % TWO_TO_THE_64 == (|s| % TWO_TO_THE_64 + 1) % TWO_TO_THE_64
  {
    XorAllAppend(FirstHash(seeds), s, e);
    XorAllAppend(SecondHash(seeds), s, e);
  }

  ghost function PathEntries(account: Option<B256>, nodes: map<Path, Node>): (s: set<Entry>)
    ensures forall e :: e in s <==>
      e.key.account == account && e.key.path in nodes && nodes[e.key.path] == e.node
  {
    set p | p in nodes :: Entry(Key(account, p), nodes[p])
  }

  /** The nodes of `u` but for the storage tries of `accounts`. */
  ghost function EntriesOutside(u: TrieUpdates, accounts: set<B256>): (s: set<Entry>)
    ensures forall e :: e in s <==>
      e in Entries(FlatNodes(u)) && (e.key.account.Some? ==> e.key.account.value !in accounts)
  {
    set e | e in Entries(FlatNodes(u)) && (e.key.account.Some? ==> e.key.account.value !in accounts)
  }

  lemma EntriesOutsideFewer(u: TrieUpdates, accounts: set<B256>, a: B256)
    requires a in accounts && a in u.storageTries
    ensures EntriesOutside(u, accounts - {a})
         == EntriesOutside(u, accounts) + PathEntries(Some(a), u.storageTries[a].storageNodes)
  {
  }
}
