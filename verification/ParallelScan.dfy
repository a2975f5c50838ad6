/** The sixteen range scans run in parallel: every schedule digests the tables as the serial scan does. */
module ParallelScan {
  import opened Trie
  import opened XorFold
  import opened NodeDigests
  import opened Sequences
  import opened ConcurrentPushes
  import opened TableScan

  /** The rows a walk of the account table yields, in some order. */
  ghost predicate IsAccountWalk(m: map<Key, Node>, rows: seq<Entry>) {
    NoDuplicates(rows) && forall e :: e in rows <==> e in Entries(m) && e.key.account.None?
  }

  /** The rows a walk of one address range of the storage table yields, in some order. */
  ghost predicate IsRangeWalk(m: map<Key, Node>, n: Nibble, rows: seq<Entry>) {
    && NoDuplicates(rows)
    && forall e :: e in rows <==> e in Entries(m) && e.key.account.Some? && InRange(n, e.key.account.value)
  }

  ghost predicate IsScan(m: map<Key, Node>, accounts: seq<Entry>, ranges: seq<seq<Entry>>) {
    && IsAccountWalk(m, accounts)
    && |ranges| == 16
    && forall n: nat :: n < 16 ==> IsRangeWalk(m, n, ranges[n])
  }

  /** Which of the seventeen walks visits a row. */
  function WalkOf(e: Entry): nat {
    match e.key.account
    case None => 0
    case Some(a) => FirstNibble(a) as int + 1
  }

  lemma WalkVisits(m: map<Key, Node>, accounts: seq<Entry>, ranges: seq<seq<Entry>>, w: nat, e: Entry)
    requires IsScan(m, accounts, ranges) && w < 17
    ensures e in ([accounts] + ranges)[w] <==> e in Entries(m) && WalkOf(e) == w
    ensures NoDuplicates(([accounts] + ranges)[w])
  {
    if w > 0 {
      assert IsRangeWalk(m, w - 1, ranges[w - 1]);
      if e.key.account.Some? {
        RangeIsFirstNibble(w - 1, e.key.account.value);
      }
    }
  }

  /** Lists with nothing in common flatten to a list without repeats. */
  lemma {:induction false} FlattenDistinct<T(!new)>(lists: seq<seq<T>>)
    requires forall i :: 0 <= i < |lists| ==> NoDuplicates(lists[i])
    requires forall i, j, x :: 0 <= i < j < |lists| && x in lists[i] ==> x !in lists[j]
    ensures NoDuplicates(Flatten(lists))
    ensures forall x :: x in Flatten(lists) <==> exists i :: 0 <= i < |lists| && x in lists[i]
  {
    if lists != [] {
      var rest := lists[1..];
      assert forall i :: 0 <= i < |rest| ==> rest[i] == lists[i + 1];
      FlattenDistinct(rest);
      forall x | x in Flatten(lists) ensures exists i :: 0 <= i < |lists| && x in lists[i] {
        if x !in lists[0] {
          var i :| 0 <= i < |rest| && x in rest[i];
          assert x in lists[i + 1];
        }
      }
      forall i, x | 0 <= i < |lists| && x in lists[i] ensures x in Flatten(lists) {
        if i > 0 {
          assert x in rest[i - 1];
        }
      }
      Concatenated(lists[0], Flatten(rest));
    }
  }

  lemma Concatenated<T(!new)>(s: seq<T>, t: seq<T>)
    requires NoDuplicates(s) && NoDuplicates(t)
    requires forall x :: x in s ==> x !in t
    ensures NoDuplicates(s + t)
  {
    forall i, j | 0 <= i < j < |s + t| ensures (s + t)[i] != (s + t)[j] {
      if i < |s| && j >= |s| {
        assert s[i] in s && t[j - |s|] in t;
      }
    }
  }

  lemma ScanVisitsEachRowOnce(m: map<Key, Node>, accounts: seq<Entry>, ranges: seq<seq<Entry>>)
    requires IsScan(m, accounts, ranges)
    ensures NoDuplicates(Flatten([accounts] + ranges)) && Elements(Flatten([accounts] + ranges)) == Entries(m)
    ensures |accounts| + |Flatten(ranges)| == |m|
  {
    var walks := [accounts] + ranges;
    forall i, e | 0 <= i < |walks|
      ensures e in walks[i] <==> e in Entries(m) && WalkOf(e) == i
      ensures NoDuplicates(walks[i])
    {
      WalkVisits(m, accounts, ranges, i, e);
    }
    FlattenDistinct(walks);
    forall e ensures e in Elements(Flatten(walks)) <==> e in Entries(m) {
      assert e in walks[WalkOf(e)] <==> e in Entries(m);
    }
    OddOfDistinct(Flatten(walks));
    EntriesCardinality(m);
    assert walks[1..] == ranges;
  }

  /**
   * The digest and the total count of the parallel scan, for every table, every order within the
   * walks and every interleaving of the pushes.
   */
  lemma ParallelScanIsSerial(seeds: Seeds, m: map<Key, Node>, accounts: seq<Entry>, ranges: seq<seq<Entry>>,
          run: seq<Shared>)
    requires IsScan(m, accounts, ranges)
    requires IsRun(seeds, [accounts] + ranges, run) && Quiet(run[|run| - 1])
    ensures SnapshotOf(seeds, run[|run| - 1]) == DigestOfSet(seeds, Entries(m))
    ensures |accounts| + |Flatten(ranges)| == |m|
  {
    var walks := [accounts] + ranges;
    ScanVisitsEachRowOnce(m, accounts, ranges);
    QuietSnapshot(seeds, walks, run, Flatten(walks));
    DigestOfDistinct(seeds, Flatten(walks));
  }
}
