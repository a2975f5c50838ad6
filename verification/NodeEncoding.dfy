/** The byte buffer a node is hashed from, and a decoder that recovers the node from it. */
module NodeEncoding {
  import opened Trie

  const HASH_BYTES := 32
  const TAIL_BYTES := 33

  function Flag(b: bool): Byte { if b then 1 else 0 }

  function HashOrZero(h: Option<B256>): B256 {
    match h
    case Some(v) => v
    case None => Zero()
  }

  /** Two nibbles a byte, high nibble first; an odd last nibble is padded with zero. */
  function Pack(path: seq<Nibble>): (b: Bytes)
    ensures |b| == (|path| + 1) / 2
  {
    if |path| == 0 then []
    else if |path| == 1 then [path[0] as int * 16]
    else [path[0] as int * 16 + path[1] as int] + Pack(path[2..])
  }

  function Unpack(bytes: Bytes, n: nat): (p: seq<Nibble>)
    requires |bytes| == (n + 1) / 2
    ensures |p| == n
  {
    if n == 0 then []
    else if n == 1 then [bytes[0] / 16]
    else [bytes[0] / 16, bytes[0] % 16] + Unpack(bytes[1..], n - 2)
  }

  lemma UnpackTwo(a: Nibble, b: Nibble, bytes: Bytes, n: nat)
    requires |bytes| == (n + 1) / 2
    ensures Unpack([a as int * 16 + b as int] + bytes, n + 2) == [a, b] + Unpack(bytes, n)
  {
    assert ([a as int * 16 + b as int] + bytes)[1..] == bytes;
  }

  lemma {:induction false} UnpackPack(path: seq<Nibble>)
    ensures Unpack(Pack(path), |path|) == path
  {
    if |path| >= 2 {
      var rest := path[2..];
      UnpackPack(rest);
      UnpackTwo(path[0], path[1], Pack(rest), |rest|);
      assert path == [path[0], path[1]] + rest;
    }
  }

  function BigEndian16(m: Mask): (b: Bytes)
    ensures |b| == 2
    ensures FromBigEndian16(b) == m
  {
    [m / 256, m % 256]
  }

  function FromBigEndian16(b: Bytes): Mask
    requires |b| == 2
  {
    b[0] as int * 256 + b[1] as int
  }

  function Concat(hashes: seq<B256>): (b: Bytes)
    ensures |b| == HASH_BYTES * |hashes|
  {
    if hashes == [] then [] else hashes[0] + Concat(hashes[1..])
  }

  function Split(b: Bytes): seq<B256>
    requires |b| % HASH_BYTES == 0
  {
    if b == [] then [] else [b[..HASH_BYTES]] + Split(b[HASH_BYTES..])
  }

  lemma {:induction false} SplitConcat(hashes: seq<B256>)
    ensures Split(Concat(hashes)) == hashes
  {
    if hashes != [] {
      SplitConcat(hashes[1..]);
      var b := Concat(hashes);
      assert b[..HASH_BYTES] == hashes[0];
      assert b[HASH_BYTES..] == Concat(hashes[1..]);
    }
  }

  lemma {:induction false} ConcatAppend(hashes: seq<B256>, h: B256)
    ensures Concat(hashes + [h]) == Concat(hashes) + h
  {
    if hashes == [] {
      assert Concat([h]) == h + [];
    } else {
      ConcatAppend(hashes[1..], h);
      assert (hashes + [h])[1..] == hashes[1..] + [h];
    }
  }

  /** Identity of a node: address, address flag, path length, packed path. */
  function EncodeKey(k: Key): Bytes {
    HashOrZero(k.account) + ([Flag(k.account.Some?)] + ([|k.path|] + Pack(k.path)))
  }

  function EncodeMasks(n: Node): (b: Bytes)
    ensures |b| == 6
  {
    BigEndian16(n.stateMask) + BigEndian16(n.treeMask) + BigEndian16(n.hashMask)
  }

  /** Root hash or zero, then the flag that tells the two apart. */
  function EncodeTail(n: Node): (b: Bytes)
    ensures |b| == TAIL_BYTES
  {
    HashOrZero(n.rootHash) + [Flag(n.rootHash.Some?)]
  }

  function EncodeNode(n: Node): Bytes {
    EncodeMasks(n) + (Concat(n.hashes) + EncodeTail(n))
  }

  /** The buffer `NodeDigest::push` hashes. */
  function Encode(e: Entry): Bytes {
    EncodeKey(e.key) + EncodeNode(e.node)
  }

  function DecodeHash(hash: B256, flag: Byte): Option<B256> {
    if flag == 0 then None else Some(hash)
  }

  /** Number of bytes the key takes: the length byte fixes it, also for an odd path. */
  function KeyBytes(b: Bytes): nat
    requires |b| >= 34
  {
    34 + (b[33] as int + 1) / 2
  }

  function DecodeKey(b: Bytes): Option<Key> {
    if |b| >= 34 && b[33] <= 64 && KeyBytes(b) <= |b| then
      Some(Key(DecodeHash(b[..32], b[32]), Unpack(b[34..KeyBytes(b)], b[33])))
    else None
  }

  /** The masks lead and the tail has a fixed size; the hashes are what lies between. */
  function DecodeNode(b: Bytes): Option<Node> {
    if |b| >= 6 + TAIL_BYTES && (|b| - 6 - TAIL_BYTES) % HASH_BYTES == 0 then
      var tail := |b| - TAIL_BYTES;
      Some(Node(FromBigEndian16(b[..2]), FromBigEndian16(b[2..4]), FromBigEndian16(b[4..6]),
                Split(b[6..tail]), DecodeHash(b[tail..tail + 32], b[tail + 32])))
    else None
  }

  function Decode(b: Bytes): Option<Entry> {
    match DecodeKey(b)
    case None => None
    case Some(k) =>
      match DecodeNode(b[KeyBytes(b)..])
      case None => None
      case Some(n) => Some(Entry(k, n))
  }

  lemma DecodeEncodeKey(k: Key, rest: Bytes)
    ensures |EncodeKey(k) + rest| >= 34
    ensures DecodeKey(EncodeKey(k) + rest) == Some(k)
    ensures KeyBytes(EncodeKey(k) + rest) == |EncodeKey(k)|
  {
    var b := EncodeKey(k) + rest;
    assert b[..32] == HashOrZero(k.account);
    assert b[34..KeyBytes(b)] == Pack(k.path);
    UnpackPack(k.path);
  }

  lemma Slices(a: Bytes, h: Bytes, t: Bytes)
    ensures var b := a + (h + t);
      b[..|a|] == a && b[|a|..|a| + |h|] == h && b[|a| + |h|..] == t
  {
  }

  lemma MaskSlices(n: Node)
    ensures var b := EncodeMasks(n);
      b[..2] == BigEndian16(n.stateMask) && b[2..4] == BigEndian16(n.treeMask) && b[4..6] == BigEndian16(n.hashMask)
  {
    hide BigEndian16;
    var s, t, h := BigEndian16(n.stateMask), BigEndian16(n.treeMask), BigEndian16(n.hashMask);
    Associative(s, t, h);
    Slices(s, t, h);
  }

  lemma TailSlices(n: Node)
    ensures EncodeTail(n)[..32] == HashOrZero(n.rootHash) && EncodeTail(n)[32] == Flag(n.rootHash.Some?)
  {
  }

  lemma DecodeEncodeNode(n: Node)
    ensures DecodeNode(EncodeNode(n)) == Some(n)
  {
    hide Concat, Split, EncodeMasks, EncodeTail, BigEndian16, FromBigEndian16;
    var b := EncodeNode(n);
    var tail := |b| - TAIL_BYTES;
    Slices(EncodeMasks(n), Concat(n.hashes), EncodeTail(n));
    MaskSlices(n);
    TailSlices(n);
    assert b[..2] == b[..6][..2] && b[2..4] == b[..6][2..4] && b[4..6] == b[..6][4..6];
    assert b[tail..tail + 32] == b[tail..][..32];
    SplitConcat(n.hashes);
  }

  /** Every field of every node can be read back from the buffer. */
  lemma DecodeEncode(e: Entry)
    ensures Decode(Encode(e)) == Some(e)
  {
    DecodeEncodeKey(e.key, EncodeNode(e.node));
    DecodeEncodeNode(e.node);
    assert Encode(e)[|EncodeKey(e.key)|..] == EncodeNode(e.node);
  }

  /** Distinct nodes are hashed from distinct buffers. */
  lemma EncodeInjective(a: Entry, b: Entry)
    ensures Encode(a) == Encode(b) <==> a == b
  {
    DecodeEncode(a);
    DecodeEncode(b);
  }

  lemma Associative(a: Bytes, b: Bytes, c: Bytes)
    ensures (a + b) + c == a + (b + c)
  {
  }

  /** Appends one node after another piece: what the appends add up to. */
  lemma AppendedIsEncoding(e: Entry)
    ensures EncodeKey(e.key) + EncodeMasks(e.node) + Concat(e.node.hashes) + EncodeTail(e.node) == Encode(e)
  {
    var k, m, h, t := EncodeKey(e.key), EncodeMasks(e.node), Concat(e.node.hashes), EncodeTail(e.node);
    Associative(k + m, h, t);
    Associative(k, m, h + t);
  }

  // ---------------------------------------------------------------------------------------------
  // The buffer byte by byte
  // ---------------------------------------------------------------------------------------------

  /** 32 bytes of a hash, or zeros, followed by one or zero. */
  ghost predicate IsFlagged(b: Bytes, h: Option<B256>) {
    && |b| == 33
    && (h.Some? ==> b[..32] == h.value && b[32] == 1)
    && (h.None? ==> b[32] == 0 && forall i :: 0 <= i < 32 ==> b[i] == 0)
  }

  /** Two nibbles a byte, the first in the high half; the low half after an odd last nibble is zero. */
  ghost predicate IsPacked(b: Bytes, path: seq<Nibble>) {
    && |b| == (|path| + 1) / 2
    && (forall i :: 0 <= i < |path| / 2 ==> b[i] as int == 16 * path[2 * i] as int + path[2 * i + 1] as int)
    && (|path| % 2 == 1 ==> b[|path| / 2] as int == 16 * path[|path| - 1] as int)
  }

  /** Six bytes: state, tree and hash mask, each with its high byte first. */
  ghost predicate AreMasks(b: Bytes, n: Node) {
    && |b| == 6
    && 256 * b[0] as int + b[1] as int == n.stateMask
    && 256 * b[2] as int + b[3] as int == n.treeMask
    && 256 * b[4] as int + b[5] as int == n.hashMask
  }

  ghost predicate AreHashes(b: Bytes, hashes: seq<B256>) {
    && |b| == 32 * |hashes|
    && forall i :: 0 <= i < |hashes| ==> b[32 * i..32 * i + 32] == hashes[i]
  }

  /** The address, the length of the path, the path, the masks, the hashes and the root hash, in this order. */
  ghost predicate IsBuffer(b: Bytes, account: Option<B256>, path: Path, n: Node) {
    var masks := 34 + (|path| + 1) / 2;
    var hashes := masks + 6;
    var root := hashes + 32 * |n.hashes|;
    && |b| == root + 33
    && IsFlagged(b[..33], account) && b[33] == |path|
    && IsPacked(b[34..masks], path) && AreMasks(b[masks..hashes], n)
    && AreHashes(b[hashes..root], n.hashes) && IsFlagged(b[root..], n.rootHash)
  }

  lemma FlaggedIsFlagged(h: Option<B256>)
    ensures IsFlagged(HashOrZero(h) + [Flag(h.Some?)], h)
  {
    var b := HashOrZero(h) + [Flag(h.Some?)];
    assert b[..32] == HashOrZero(h);
    assert forall i :: 0 <= i < 32 ==> b[i] == HashOrZero(h)[i];
  }

  lemma {:induction false} PackedPair(path: seq<Nibble>, i: nat)
    requires 2 * i + 1 < |path|
    ensures i < |Pack(path)| && Pack(path)[i] as int == 16 * path[2 * i] as int + path[2 * i + 1] as int
  {
    if i > 0 {
      var rest := path[2..];
      PackedPair(rest, i - 1);
      assert Pack(path)[i] == Pack(rest)[i - 1];
      assert rest[2 * (i - 1)] == path[2 * i] && rest[2 * (i - 1) + 1] == path[2 * i + 1];
    }
  }

  lemma {:induction false} PackedLast(path: seq<Nibble>, i: nat)
    requires |path| == 2 * i + 1
    ensures i < |Pack(path)| && Pack(path)[i] as int == 16 * path[2 * i] as int
  {
    if i > 0 {
      var rest := path[2..];
      PackedLast(rest, i - 1);
      assert Pack(path)[i] == Pack(rest)[i - 1];
      assert rest[2 * (i - 1)] == path[2 * i];
    }
  }

  lemma PackIsPacked(path: seq<Nibble>)
    ensures IsPacked(Pack(path), path)
  {
    hide Pack;
    var half := |path| / 2;
    forall i | 0 <= i < half ensures Pack(path)[i] as int == 16 * path[2 * i] as int + path[2 * i + 1] as int {
      PackedPair(path, i);
    }
    if |path| % 2 == 1 {
      PackedLast(path, half);
    }
  }

  lemma {:induction false} ConcatHashes(hashes: seq<B256>, i: nat)
    requires i < |hashes|
    ensures Concat(hashes)[32 * i..32 * i + 32] == hashes[i]
  {
    var b := Concat(hashes);
    if i == 0 {
      assert b[..32] == hashes[0];
    } else {
      ConcatHashes(hashes[1..], i - 1);
      assert b[32..] == Concat(hashes[1..]);
      assert b[32 * i..32 * i + 32] == b[32..][32 * (i - 1)..32 * (i - 1) + 32];
    }
  }

  lemma ConcatIsHashes(hashes: seq<B256>)
    ensures AreHashes(Concat(hashes), hashes)
  {
    forall i | 0 <= i < |hashes| ensures Concat(hashes)[32 * i..32 * i + 32] == hashes[i] {
      ConcatHashes(hashes, i);
    }
  }

  lemma MasksAreMasks(n: Node)
    ensures AreMasks(EncodeMasks(n), n)
  {
  }

  lemma Fields(a: Bytes, l: Byte, p: Bytes, m: Bytes, h: Bytes, t: Bytes)
    ensures var b := (a + ([l] + p)) + (m + (h + t));
      var i, j := |a| + 1 + |p|, |a| + 1 + |p| + |m|;
      && b[..|a|] == a && b[|a|] == l && b[|a| + 1..i] == p && b[i..j] == m && b[j..j + |h|] == h && b[j + |h|..] == t
  {
    var b := (a + ([l] + p)) + (m + (h + t));
    assert b == a + ([l] + (p + (m + (h + t))));
    var i, j := |a| + 1 + |p|, |a| + 1 + |p| + |m|;
    assert b[|a| + 1..] == p + (m + (h + t));
    assert b[i..] == m + (h + t);
    assert b[j..] == h + t;
  }

  lemma FieldsMakeBuffer(a: Bytes, p: Bytes, m: Bytes, h: Bytes, t: Bytes, account: Option<B256>, path: Path, n: Node)
    requires |a| == 33 && |p| == (|path| + 1) / 2 && |m| == 6 && |h| == 32 * |n.hashes| && |t| == 33
    requires IsFlagged(a, account) && IsPacked(p, path) && AreMasks(m, n) && AreHashes(h, n.hashes)
    requires IsFlagged(t, n.rootHash)
    ensures IsBuffer((a + ([|path|] + p)) + (m + (h + t)), account, path, n)
  {
    hide IsFlagged, IsPacked, AreMasks, AreHashes;
    Fields(a, |path|, p, m, h, t);
  }

  lemma EncodeFields(e: Entry)
    ensures var account, path := e.key.account, e.key.path;
      Encode(e) == ((HashOrZero(account) + [Flag(account.Some?)]) + ([|path|] + Pack(path)))
                   + (EncodeMasks(e.node) + (Concat(e.node.hashes) + EncodeTail(e.node)))
  {
    hide HashOrZero, Flag, Pack, EncodeMasks, Concat, EncodeTail;
    Associative(HashOrZero(e.key.account), [Flag(e.key.account.Some?)], [|e.key.path|] + Pack(e.key.path));
  }

  /** The encoding has, byte by byte, the layout of the buffer. */
  lemma EncodeIsBuffer(e: Entry)
    ensures IsBuffer(Encode(e), e.key.account, e.key.path, e.node)
  {
    var h, n := e.key.account, e.node;
    EncodeFields(e);
    FlaggedIsFlagged(h);
    FlaggedIsFlagged(n.rootHash);
    PackIsPacked(e.key.path);
    MasksAreMasks(n);
    ConcatIsHashes(n.hashes);
    assert EncodeTail(n) == HashOrZero(n.rootHash) + [Flag(n.rootHash.Some?)];
    hide *;
    FieldsMakeBuffer(HashOrZero(h) + [Flag(h.Some?)], Pack(e.key.path), EncodeMasks(n), Concat(n.hashes), EncodeTail(n),
                     h, e.key.path, n);
  }

  method AppendKey(account: Option<B256>, path: Path) returns (buf: Bytes)
    ensures buf == EncodeKey(Key(account, path))
  {
    buf := HashOrZero(account);
    buf := buf + [Flag(account.Some?)];
    buf := buf + [|path|];
    buf := buf + Pack(path);
  }

  method AppendHashes(head: Bytes, hashes: seq<B256>) returns (buf: Bytes)
    ensures buf == head + Concat(hashes)
  {
    buf := head;
    for i := 0 to |hashes|
      invariant buf == head + Concat(hashes[..i])
    {
      ConcatAppend(hashes[..i], hashes[i]);
      assert hashes[..i + 1] == hashes[..i] + [hashes[i]];
      Associative(head, Concat(hashes[..i]), hashes[i]);
      buf := buf + hashes[i];
    }
    assert hashes[..|hashes|] == hashes;
  }

  /** Builds the buffer by appending, field after field. */
  method BuildBuffer(account: Option<B256>, path: Path, node: Node) returns (buf: Bytes)
    ensures buf == Encode(Entry(Key(account, path), node))
    ensures IsBuffer(buf, account, path, node)
  {
    hide IsBuffer;
    ghost var e := Entry(Key(account, path), node);
    buf := AppendKey(account, path);
    buf := buf + (BigEndian16(node.stateMask) + BigEndian16(node.treeMask) + BigEndian16(node.hashMask));
    buf := AppendHashes(buf, node.hashes);
    buf := buf + (HashOrZero(node.rootHash) + [Flag(node.rootHash.Some?)]);
    AppendedIsEncoding(e);
    EncodeIsBuffer(e);
  }
}
