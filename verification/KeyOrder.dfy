/** The byte order of keys, and the listing of a map in that order. */
module KeyOrder {
  import opened Trie

  /** Byte by byte. */
  predicate LexLe(a: Bytes, b: Bytes) {
    if a == [] then true
    else if b == [] then false
    else a[0] < b[0] || (a[0] == b[0] && LexLe(a[1..], b[1..]))
  }

  /** At the first byte in which two keys of one length differ, the smaller byte belongs to the smaller key. */
  lemma {:induction false} LexAtFirstDifference(a: Bytes, b: Bytes, i: nat)
    requires |a| == |b| && i < |a| && a[..i] == b[..i] && a[i] != b[i]
    ensures LexLe(a, b) <==> a[i] < b[i]
  {
    if i > 0 {
      assert a[0] == a[..i][0] && b[0] == b[..i][0];
      assert a[1..][..i - 1] == a[..i][1..] && b[1..][..i - 1] == b[..i][1..];
      LexAtFirstDifference(a[1..], b[1..], i - 1);
    }
  }

  lemma {:induction false} LexTotal(a: Bytes, b: Bytes)
    ensures LexLe(a, b) || LexLe(b, a)
  {
    if a != [] && b != [] {
      LexTotal(a[1..], b[1..]);
    }
  }

  lemma {:induction false} LexAntisymmetric(a: Bytes, b: Bytes)
    requires LexLe(a, b) && LexLe(b, a)
    ensures a == b
  {
    if a != [] && b != [] {
      LexAntisymmetric(a[1..], b[1..]);
      assert a == [a[0]] + a[1..] && b == [b[0]] + b[1..];
    }
  }

  lemma {:induction false} LexTransitive(a: Bytes, b: Bytes, c: Bytes)
    requires LexLe(a, b) && LexLe(b, c)
    ensures LexLe(a, c)
  {
    if a != [] && a[0] == b[0] == c[0] {
      LexTransitive(a[1..], b[1..], c[1..]);
    }
  }

  predicate IsLeast(k: B256, keys: set<B256>) {
    k in keys && forall q :: q in keys ==> LexLe(k, q)
  }

  lemma {:induction false} LeastExists(keys: set<B256>)
    requires keys != {}
    ensures exists k: B256 :: IsLeast(k, keys)
  {
    var q :| q in keys;
    var rest := keys - {q};
    LexTotal(q, q);
    if rest == {} {
      assert keys == {q};
      assert IsLeast(q, keys);
    } else {
      LeastExists(rest);
      var k: B256 :| IsLeast(k, rest);
      LexTotal(k, q);
      if LexLe(k, q) {
        assert IsLeast(k, keys);
      } else {
        forall r: B256 | r in keys ensures LexLe(q, r) {
          if r != q {
            LexTransitive(q, k, r);
          }
        }
        assert IsLeast(q, keys);
      }
    }
  }

  ghost function Least(keys: set<B256>): (k: B256)
    requires keys != {}
    ensures IsLeast(k, keys)
  {
    LeastExists(keys);
    var k: B256 :| IsLeast(k, keys);
    k
  }

  /** The rows of an ordered map, least key first. */
  ghost function Listing<V>(m: map<B256, V>): seq<(B256, V)>
    decreases |m|
  {
    if m == map[] then [] else
      var k := Least(m.Keys);
      [(k, m[k])] + Listing(m - {k})
  }

  predicate Ascending<V>(rows: seq<(B256, V)>) {
    forall i, j :: 0 <= i < j < |rows| ==> LexLe(rows[i].0, rows[j].0) && rows[i].0 != rows[j].0
  }

  ghost predicate HoldsRows<V>(m: map<B256, V>, rows: seq<(B256, V)>) {
    && (forall i :: 0 <= i < |rows| ==> rows[i].0 in m && rows[i].1 == m[rows[i].0])
    && (forall k :: k in m ==> exists i :: 0 <= i < |rows| && rows[i].0 == k)
  }

  lemma ListingStep<V>(m: map<B256, V>, k: B256)
    requires IsLeast(k, m.Keys)
    ensures Listing(m) == [(k, m[k])] + Listing(m - {k})
  {
    LexAntisymmetric(k, Least(m.Keys));
  }

  lemma HoldsOneMore<V>(m: map<B256, V>, k: B256, rows: seq<(B256, V)>)
    requires k in m && HoldsRows(m - {k}, rows)
    ensures HoldsRows(m, [(k, m[k])] + rows)
  {
    var all := [(k, m[k])] + rows;
    forall q | q in m ensures exists i :: 0 <= i < |all| && all[i].0 == q {
      if q == k {
        assert all[0].0 == q;
      } else {
        assert q in m - {k};
        var i :| 0 <= i < |rows| && rows[i].0 == q;
        assert all[i + 1].0 == q;
      }
    }
  }

  lemma AscendsOneMore<V>(m: map<B256, V>, k: B256, rows: seq<(B256, V)>)
    requires IsLeast(k, m.Keys) && HoldsRows(m - {k}, rows) && Ascending(rows)
    ensures Ascending([(k, m[k])] + rows)
  {
    var all := [(k, m[k])] + rows;
    forall j | 0 < j < |all| ensures LexLe(k, all[j].0) && k != all[j].0 {
      assert all[j] == rows[j - 1];
      assert all[j].0 in m - {k};
    }
  }

  /** A listing ascends, and holds exactly the rows of the map. */
  lemma {:induction false} ListingIsAscending<V>(m: map<B256, V>)
    ensures Ascending(Listing(m)) && HoldsRows(m, Listing(m)) && |Listing(m)| == |m|
    decreases |m|
  {
    hide IsLeast, Ascending, HoldsRows, LexLe;
    if m == map[] {
      NothingListed<V>();
    } else {
      var k := Least(m.Keys);
      LeastIsIn(m.Keys);
      var rest := m - {k};
      assert m.Keys == rest.Keys + {k};
      ListingIsAscending(rest);
      HoldsOneMore(m, k, Listing(rest));
      AscendsOneMore(m, k, Listing(rest));
    }
  }

  lemma LeastIsIn(keys: set<B256>)
    requires keys != {}
    ensures Least(keys) in keys
  {
  }

  lemma NothingListed<V>()
    ensures Ascending<V>([]) && HoldsRows<V>(map[], [])
  {
  }

  lemma FirstIsLeast<V>(m: map<B256, V>, rows: seq<(B256, V)>)
    requires Ascending(rows) && HoldsRows(m, rows) && rows != []
    ensures IsLeast(rows[0].0, m.Keys) && rows[0].1 == m[rows[0].0]
  {
    forall q | q in m ensures LexLe(rows[0].0, q) {
      var i :| 0 <= i < |rows| && rows[i].0 == q;
      LexTotal(q, q);
    }
  }

  lemma RestHolds<V>(m: map<B256, V>, rows: seq<(B256, V)>)
    requires Ascending(rows) && HoldsRows(m, rows) && rows != []
    ensures Ascending(rows[1..]) && HoldsRows(m - {rows[0].0}, rows[1..])
  {
    var rest, tail := m - {rows[0].0}, rows[1..];
    forall i | 0 <= i < |tail| ensures tail[i].0 in rest && tail[i].1 == rest[tail[i].0] {
      assert tail[i] == rows[i + 1];
    }
    forall q | q in rest ensures exists i :: 0 <= i < |tail| && tail[i].0 == q {
      var j :| 0 <= j < |rows| && rows[j].0 == q;
      assert tail[j - 1].0 == q;
    }
  }

  /** Nothing else does. */
  lemma {:induction false} ListingIsUnique<V>(m: map<B256, V>, rows: seq<(B256, V)>)
    requires Ascending(rows) && HoldsRows(m, rows)
    ensures rows == Listing(m)
    decreases |rows|
  {
    if rows == [] {
      assert m == map[];
    } else {
      hide IsLeast, Ascending, HoldsRows, LexLe, Listing;
      FirstIsLeast(m, rows);
      ListingStep(m, rows[0].0);
      RestHolds(m, rows);
      ListingIsUnique(m - {rows[0].0}, rows[1..]);
    }
  }
}
