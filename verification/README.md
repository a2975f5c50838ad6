# Verified model of the trie rebuild checks

This project models the machinery around a parallel rebuild of an Ethereum state trie, and proves what its parity
checks rely on: that nodes handed from many workers to one writer end in the trie tables exactly once and in whole
chunks, that a digest over those tables says what it is taken to say, that the generated test state has exactly the
configured shape, and that the counters beside the build can be trusted. It is checked with
`dafny verify dfyconfig.toml`.

Code that changes state step by step is modelled by classes and loops with their contracts; code in which threads
interleave is modelled by a step system whose theorems hold for every run.

**Trie tables.** A batch of updates means one overlay on one map from keys (account or none, path) to nodes
(`Overlay`). `TrieTables` has the two tables with encoded row keys and the upsert, delete and wipe loops; they are
proved to produce the overlay, and the exact count of entries written, in any order of accounts and paths.

**Writer.** `Writer.WriteChunks` is the loop over the receiver. `Pipeline` is the whole sink: workers, bounded
channel, writer thread, transactions that may fail, closing and joining. Every reachable state holds a committed
prefix of the arrivals; a run that ends well has written everything, one that ends badly has written full chunks
only; every run ends, and none gets stuck.

**Digest.** `NodeEncoding` gives the hashed buffer a decoder. `XorFold` and `NodeDigests` show what the fold of a
multiset of nodes determines: for every hash and any number of nodes, exactly when two digests collide, and for an
ideal hash, exactly what a digest determines. `ConcurrentPushes` splits a push into its three atomic updates.
`TableScan`, `ParallelScan` and `ShardedSink` are the other producers;
`Parity` connects all of them.

**Generated state.** `SplitMix` proves the generator a permutation of the 64-bit words with full period. `Synth`
derives that no two drawn keys collide before 2^64 draws, and so that the counts of the result are exact.
`MemoryStates` has the state with its cached sorted view and the writing of it to a database.

**Rebuild and counters.** `Rebuild` runs a resumable walk piece by piece and compares it with the one-shot walk and
with the writer. `PeakAllocs` and `ProgressLines` are the counting allocator and the rate-limited progress lines;
`LivePeak` and `ForeseenPeak` say what the allocator's peak is worth.

Foreign code appears as contracts only. A key adapter is a pair of encodings that can be decoded
(`TrieTables.Decodes`). The hash is an arbitrary function into words of an arbitrary width; the program's are 64 bits
wide. Where a statement needs an ideal hash it says so (`NodeDigests.Independent`: no non-empty set of the buffers at
hand XORs to zero under both seeds). Such a hash exists if and only if there are at most twice as many buffers as a word
has bits (`IdealHashExists`, `IdealHashNeedsWidth`), so for a whole trie those statements are about wider words than the
program's; at 64 bits `DigestCollidesExactly` and `SetsCollideExactly` say what an equal digest means. reth's storage
trie cursor writes one address's overlay; whether it skips an empty path and whether it counts removals that found
nothing is a parameter (`Overlay.CursorHabits`). The resumable walk is a deterministic step function that comes
closer to its end with each call and whose pieces compose to the whole (`Rebuild.Coherent`). Commits, clocks and the
outcome of system allocations are parameters too.

## Where the code and its documentation differ

- `digest.rs` says that two node multisets with equal count and equal fold are equal with overwhelming probability.
  That fails for multisets with a repeated node, whatever the hash: `NodeDigests.DuplicateCollides` turns any sequence
  with a repeat into a different multiset with the same digest. The digest sees the nodes of odd multiplicity:
  `DigestCollidesExactly` says for every hash when two multisets collide. Under an ideal hash a digest determines its
  multiset if and only if that has no repeats (`DeterminedExactly`). Table rows have distinct keys, so the checks are
  never in the failing case.
- `alloc.rs` calls the peak the highest number of live bytes since the last reset. What it keeps is the highest value of
  its counter. That lags behind the live bytes while operations overlap, so that the peak can be too high
  (`LivePeak.PeakAboveLive`) or too low (`LivePeak.PeakBelowLive`) even without a reset. Operations one at a time leave
  exactly the highest number of live bytes (`SequentialPeak`, `SequentialPeakWithoutReset`).
- Nor is it always the highest value of the counter. It is too low when an allocation begins and completes between the
  read and the store of a reset (`PeakAllocs.OverlappedResetLosesThePeak`), and too high when a `fetch_max` is
  outstanding as the reset reads and lands after it stored (`PeakAllocs.StaleRaiseOverstatesThePeak`). `PeakExactly` says
  of a quiet state exactly when its peak is the highest value of the counter since the reset, and
  `ForeseenPeak.PeakForeseen` says of the state a reset leaves exactly when every quiet peak before the next store will be.

## Limits worth knowing

- A progress line may report fewer entries than an earlier one, as the count is taken before the lock
  (`ProgressLines.LinesMayGoBackwards`). Lines ascend if and only if callers are let through in the order in which they
  counted (`LinesAscendExactly`), as they are when calls do not overlap (`SeparateCallsAscend`).
- A caller that is let through panics if and only if the batches counted up to its own add up to a multiple of 2^64
  (`DividesByZeroExactly`): the remaining time is then not finite. It panics with the lock held, so that every later
  caller with entries to report panics too (`ProgressLines.WrappedCounterPanics`). Nobody does while all batches fit the
  counter (`NobodyPanics`).
- `write_hashed_state` writes the slots of addresses that have an account, so slots without one are not written
  (`MemoryStates.OrphanSlotsAreNotWritten`). It writes all of the state precisely when there are none
  (`WritesTheViewExactly`), which holds for every generated state.

## Model

| member | source | states |
|---|---|---|
| NodeEncoding.UnpackPack | crates/bench/src/digest.rs:49 | a path of either parity is recovered from its packed bytes and its length |
| NodeEncoding.SplitConcat | crates/bench/src/digest.rs:53-55 | the list of hashes is recovered from their concatenation |
| NodeEncoding.DecodeEncode | crates/bench/src/digest.rs:45-57 | a decoder recovers every field of every node from the hashed buffer |
| NodeEncoding.EncodeInjective | crates/bench/src/digest.rs:45-57 | two nodes have the same buffer if and only if they are the same in account, path, masks, hashes and root hash |
| NodeEncoding.EncodeIsBuffer | crates/bench/src/digest.rs:45-57 | the encoding has that layout at every position, with its literal flag bytes and with the low half of the last path byte zero after an odd path |
| NodeEncoding.BuildBuffer | crates/bench/src/digest.rs:45-57 | the appends, with their loop over the hashes, build the buffer: address or zeros, flag 0 or 1, path length, two nibbles a byte, the masks big-endian, the hashes, root hash or zeros, flag |
| XorFold.OddIsOddMultiplicity | crates/bench/src/digest.rs:59-61 | the surviving elements of a fold are those of odd multiplicity |
| XorFold.XorAllIsOdd | crates/bench/src/digest.rs:59-61 | folding a sequence is folding the set of its elements of odd multiplicity |
| XorFold.FoldIsParity | crates/bench/src/digest.rs:59-61 | sequences whose multiplicities agree modulo two fold to the same word |
| XorFold.FoldIgnoresOrder | crates/bench/src/digest.rs:4-6 | the fold does not depend on the order of the nodes |
| XorFold.OddCardinality | crates/bench/src/digest.rs:59-62 | only a sequence without repeats has as many odd elements as elements |
| XorFold.CollisionExactly | crates/bench/src/digest.rs:59-61 | two sets fold alike if and only if what they do not share folds to zero |
| XorFold.Dependent | crates/bench/src/digest.rs:59-61 | among more words than a word has bits, some non-empty set folds to zero |
| XorFold.BitIsParity | crates/bench/src/digest.rs:59-61 | a bit of the fold is set if and only if an odd number of positions have a word with that bit |
| XorFold.SetBitIsParity | crates/bench/src/digest.rs:59-61 | and, for a set, if and only if an odd number of its elements do |
| NodeDigests.DigestIgnoresOrder | crates/bench/src/digest.rs:4-6 | count and fold depend on the multiset of nodes only |
| NodeDigests.DigestOfDistinct | crates/bench/src/digest.rs:66-73 | the digest of nodes without repeats is that of their set |
| NodeDigests.XorOfBuffers | crates/bench/src/digest.rs:45-61 | folding nodes is folding their buffers, since no two nodes share one |
| NodeDigests.DigestBits | crates/bench/src/digest.rs:59-73 | bit by bit: the low half of the digest is the parity of the second seed's hashes, the high half that of the first's, and the count is the number of nodes modulo 2^64 |
| NodeDigests.SetDigestBits | crates/bench/src/digest.rs:59-73 | the same for the digest of a set of nodes |
| NodeDigests.DigestCollidesExactly | crates/bench/src/digest.rs:4-8 | for every hash and any two multisets, the digests are equal if and only if the sizes agree modulo 2^64 and the buffers of the nodes that occur oddly often in just one fold to zero under both seeds |
| NodeDigests.SetsCollideExactly | crates/bench/src/digest.rs:4-8 | for every hash and any two sets of rows, the digests are equal if and only if the sizes agree modulo 2^64 and the buffers of the rows in just one fold to zero under both seeds |
| NodeDigests.DistinctCollideExactly | crates/bench/src/digest.rs:4-8 | the same for two sequences without repeats |
| NodeDigests.IdealHashExists | crates/bench/src/digest.rs:10-12 | on at most twice as many buffers as a word has bits some hash is ideal |
| NodeDigests.IdealHashNeedsWidth | crates/bench/src/digest.rs:10-12 | and on more buffers none is |
| NodeDigests.SetFoldSound | crates/bench/src/digest.rs:4-8 | where a hash is ideal, two sets of nodes fold alike if and only if they are equal |
| NodeDigests.FoldIsOddSet | crates/bench/src/digest.rs:4-8 | where a hash is ideal, two multisets have equal folds if and only if the same nodes occur an odd number of times |
| NodeDigests.DigestSound | crates/bench/src/digest.rs:4-8 | where a hash is ideal, two collections without repeats have equal digests if and only if they are equal |
| NodeDigests.DigestDetermines | crates/bench/src/digest.rs:4-8 | where a hash is ideal, whatever digests like a collection without repeats, below 2^64 nodes, is the same multiset |
| NodeDigests.DeterminedExactly | crates/bench/src/digest.rs:4-8 | where a hash is ideal, a digest determines its multiset of nodes if and only if no node repeats |
| NodeDigests.DuplicateCollides | crates/bench/src/digest.rs:4-8 | for every hash, a multiset with a repeat has a different multiset with the same count and fold |
| NodeDigests.NodeDigest.FoldIn | crates/bench/src/digest.rs:59-61 | the hash of the buffer under each seed is folded into that seed's accumulator, and only there |
| NodeDigests.NodeDigest.Push | crates/bench/src/digest.rs:44-63 | the count and both folds, each under its own seed, stay those of everything pushed so far, with the new node appended |
| NodeDigests.NodeDigest.Snapshot | crates/bench/src/digest.rs:66-73 | the snapshot is the digest of everything pushed |
| NodeDigests.NodeDigest.PushAll | crates/bench/src/digest.rs:79-81 | all nodes of one map are pushed once each, in whatever order the map iterates |
| NodeDigests.NodeDigest.OfTrieUpdates | crates/bench/src/digest.rs:77-88 | the digest of a `TrieUpdates` is that of its set of nodes, for every iteration order |
| ConcurrentPushes.StepConserves | crates/bench/src/digest.rs:59-62 | one atomic update of one push keeps what is in the accumulators and what is owed to them constant |
| ConcurrentPushes.RunConserves | crates/bench/src/digest.rs:59-62 | that conservation holds in every reachable state of any number of pushing threads |
| ConcurrentPushes.QuietSnapshot | crates/bench/src/digest.rs:59-73 | once quiet, every interleaving leaves the digest of the nodes pushed in any order |
| ConcurrentPushes.RunWork | crates/bench/src/digest.rs:59-62 | the steps done and the updates outstanding always add up to three a node |
| ConcurrentPushes.QuietAfterThreeUpdatesPerNode | crates/bench/src/digest.rs:59-62 | a run is quiet if and only if it has done three updates for every node |
| Overlay.ApplySeparately | crates/bench/src/rebuild.rs:129-160 | batches on different keys can be applied one after the other, and their counts of entries add up |
| Overlay.OneMorePath | crates/bench/src/rebuild.rs:133-149 | writing one more path extends the part of the overlay done, whatever the order of paths |
| Overlay.OneMoreTrie | crates/bench/src/rebuild.rs:154-159 | writing one more storage trie extends the part of the overlay done, whatever the order of accounts |
| Overlay.ApplyThen | crates/bench/src/rebuild.rs:129-160 | two batches one after the other, also overlapping ones, do what one composed batch does |
| Overlay.OneMeans | crates/bench/src/rebuild.rs:133-149 | a single change stores its node, or removes the key, or does nothing at an empty path, and counts accordingly |
| Overlay.OverlayMeans | crates/bench/src/rebuild.rs:129-160 | path by path, the account table has the new nodes except at the empty path, has lost the removed ones, and is otherwise as before; a deleted storage trie has only its new nodes left, others are overlaid |
| Overlay.CountedIsSum | crates/bench/src/rebuild.rs:129-160 | the entries counted are the non-empty new account paths, the removed ones that were present, and the same of every storage trie |
| TrieTables.KeysDistinct | crates/bench/src/rebuild.rs:134 | encoded keys are equal if and only if the paths are |
| TrieTables.Tables.WriteAccount | crates/bench/src/rebuild.rs:133-149 | an account change stores its node and counts one, unless the path is empty, when it does nothing; a removal deletes the row and counts one exactly if it was there |
| TrieTables.Tables.WriteStorage | crates/bench/src/rebuild.rs:154-157 | a storage change replaces or deletes the row of its address and path only |
| TrieTables.Tables.WipeStorage | crates/bench/src/rebuild.rs:154-157 | all rows of one address go and no others |
| TrieTables.Tables.WriteAccounts | crates/bench/src/rebuild.rs:132-149 | the account loop leaves the overlay and returns the exact count, in any order |
| TrieTables.Tables.WriteStorageTrie | crates/bench/src/rebuild.rs:154-158 | one storage trie's wipe and changes leave the overlay and the exact count, in any order |
| TrieTables.Tables.WriteTrieUpdates | crates/bench/src/rebuild.rs:125-161 | from any tables and for any updates: new account nodes are there, removed ones gone, deleted storage tries hold only their new nodes, everything else is as before, and the result is the number of upserts and counted removals in both tables |
| TrieTables.Tables.Clear | crates/bench/src/rebuild.rs:26-32 | both tables are empty afterwards |
| Chunks.LastWritesAppend | crates/bench/src/writer.rs:111-132 | last-write-per-key of two stretches of arrivals is the second's over the first's |
| Chunks.ChunkIsLatest | crates/bench/src/writer.rs:111-120 | the two-level chunk holds exactly the last node of every key inserted since it was empty |
| Chunks.CommitChunk | crates/bench/src/writer.rs:100-109 | committing a chunk puts its last writes over the tables and counts each once |
| Chunks.OneMoreChunk | crates/bench/src/writer.rs:123-127 | the entries written so far grow by exactly those of the chunk |
| Chunks.ChunksAreCeiling | crates/bench/src/writer.rs:122-132 | the number of chunks is the number of arrivals over the chunk size, rounded up |
| Chunks.DistinctLatest | crates/bench/src/writer.rs:111-120 | arrivals with distinct keys are all kept |
| Chunks.DistinctWrittenNodes | crates/bench/src/writer.rs:124-131 | for distinct stored nodes the entries written are the arrivals, whatever the chunk size |
| Chunks.DistinctWritesOnce | crates/bench/src/writer.rs:124-131 | for distinct nodes the entries written are those with stored keys, however the nodes are cut |
| Chunks.CommitStep | crates/bench/src/writer.rs:123-131 | a commit turns "exactly these arrivals are in the tables" into the same with the chunk appended |
| Chunks.LastWritesHold | crates/bench/src/writer.rs:111-132 | of every key that arrived the tables hold the node that arrived last, if such a key is stored, and all other keys are as before |
| Writer.Commit | crates/bench/src/writer.rs:100-109 | a transaction writes all of the chunk and returns the entries, or fails and leaves the tables alone |
| Writer.CommitPending | crates/bench/src/writer.rs:123-131 | a commit of the pending nodes extends the committed prefix, or leaves it |
| Writer.WriteChunks | crates/bench/src/writer.rs:91-134 | for every arrival sequence, repeats included, and every chunk size, the loop succeeds if and only if every transaction does; then every stored key that arrived holds the node that arrived last, otherwise a prefix of full chunks is in the tables |
| Writer.ChunkSize | crates/bench/src/writer.rs:67 | the chunk size is the greater of the configured one and one |
| Pipeline.SinkConfig | crates/bench/src/writer.rs:59-70 | the constructor takes the configured chunk size, or one if that is zero, a channel of 65536 nodes and the tables as they are |
| Pipeline.SendInv | crates/bench/src/writer.rs:81-87 | a send keeps the invariant: the node moves from its worker to the end of the arrivals |
| Pipeline.ReceiveInv | crates/bench/src/writer.rs:111-123 | a receive keeps it: the node moves from the queue into the chunk |
| Pipeline.CommitPrefix | crates/bench/src/writer.rs:123-131 | a commit moves the pending nodes into the committed prefix |
| Pipeline.ReachableInv | crates/bench/src/writer.rs:59-134 | in every reachable state arrivals are committed, pending or queued, in that order, and none is lost or invented |
| Pipeline.PrefixAtomicity | crates/bench/src/writer.rs:97-133 | at any moment, failed or not, the tables hold a prefix of the arrivals made of full chunks, or everything that will arrive |
| Pipeline.BoundedMemory | crates/bench/src/writer.rs:111-127 | nodes held are at most the channel's capacity and one chunk |
| Pipeline.SinkBoundedMemory | crates/bench/src/writer.rs:33-67 | for the sink as constructed that is 65536 nodes and one chunk |
| Pipeline.SinkHoldsMost | crates/bench/src/writer.rs:33-67 | and some run of that sink does hold 65536 queued nodes and a full chunk at once |
| Pipeline.FinishedOk | crates/bench/src/writer.rs:73-77 | when `finish` reports success, every worker's every node was received and committed and nothing is queued or pending |
| Pipeline.FinishedErr | crates/bench/src/writer.rs:73-77 | when it reports an error, the tables hold the full chunks before the failed commit and nothing of it |
| Pipeline.NeverStuck | crates/bench/src/writer.rs:59-134 | until `finish` has returned some worker, the writer or `finish` can step without a new failure |
| Pipeline.StepDecreases | crates/bench/src/writer.rs:59-134 | every step of any kind decreases a measure over unsent, queued and pending nodes |
| Pipeline.RunsAreFinite | crates/bench/src/writer.rs:59-134 | no run has more steps than three a node, one a worker and four |
| Pipeline.FailureFreeNoError | crates/bench/src/writer.rs:97-133 | as long as no transaction fails, neither the writer nor `finish` returns an error |
| Pipeline.FailureFreeFinishes | crates/bench/src/writer.rs:59-134 | a run in which no transaction fails and that has come to its end has `finish` return what was written |
| Pipeline.FailureFreeGoesOn | crates/bench/src/writer.rs:59-134 | every run in which no transaction has failed yet goes on to such an end |
| Pipeline.SinkCommitsInChunks | crates/bench/src/writer.rs:59-132 | every finished failure-free run of the sink as constructed starts from the tables as they were and reports as many chunks as nodes over the greater of the configured size and one, rounded up |
| KeyOrder.ListingIsAscending | crates/bench/src/memory.rs:53-64 | an ordered map lists exactly its rows, by strictly ascending key |
| KeyOrder.ListingIsUnique | crates/bench/src/memory.rs:53-64 | no other list of rows does |
| KeyOrder.LexAtFirstDifference | crates/bench/src/memory.rs:53-64 | the order of two keys is that of the first bytes in which they differ |
| TableScan.RangeIsFirstNibble | crates/bench/src/mdbx.rs:170-174 | an address lies in a range if and only if its first nibble is the range's: the ranges are disjoint and cover all |
| TableScan.RowsAreContents | crates/bench/src/mdbx.rs:160-180 | the decoded rows of both tables are exactly the nodes of their contents |
| TableScan.NextRange | crates/bench/src/mdbx.rs:166-174 | one more range adds exactly the rows of one more first nibble |
| TableScan.ScanAccounts | crates/bench/src/mdbx.rs:159-164 | the account walk pushes and counts every account row once |
| TableScan.ScanRange | crates/bench/src/mdbx.rs:175-181 | a range walk pushes and counts every row of its range once |
| TableScan.EntriesApart | crates/bench/src/mdbx.rs:159-181 | the rows of the two tables are as many different nodes |
| TableScan.DigestTables | crates/bench/src/mdbx.rs:154-185 | digest and counts of the tables are those of the set of nodes they hold, and each table's count is its own number of rows |
| ParallelScan.ScanVisitsEachRowOnce | crates/bench/src/mdbx.rs:159-182 | the account walk and the sixteen range walks together visit every row once |
| ParallelScan.ParallelScanIsSerial | crates/bench/src/mdbx.rs:166-184 | every schedule of the walks and of their atomic updates gives the digest and count of one serial scan |
| ShardedSink.ExtendDisjoint | crates/bench/src/updates.rs:22-23 | merging shards without a common account loses nothing, though `extend` replaces storage tries whole |
| ShardedSink.MergeStep | crates/bench/src/updates.rs:20-24 | merging one more shard adds exactly the nodes of its first nibble |
| ShardedSink.LastEmitted | crates/bench/src/updates.rs:30-49 | the flat map holds for every emitted key the node emitted last, and no other keys |
| ShardedSink.TrieUpdatesSink.OnBranchNode | crates/bench/src/updates.rs:30-49 | every shard keeps exactly the emitted nodes of its first nibble |
| ShardedSink.TrieUpdatesSink.IntoTrieUpdates | crates/bench/src/updates.rs:17-26 | the merged updates are the flat map of the last node emitted for every key |
| Parity.DistinctPermuted | crates/bench/src/writer.rs:111-121 | distinct keys stay distinct in every arrival order |
| Parity.BuildIsWritten | crates/bench/src/writer.rs:111-133 | distinct non-root nodes into empty tables: the tables hold exactly them and the totals are their number and the chunks |
| Parity.RowsDigestAsPushed | crates/bench/src/mdbx.rs:131-133 | the digest of the rows distinct nodes leave is the digest of pushing the nodes |
| Parity.FinishedSinkParity | crates/bench/src/writer.rs:73-134 | when `finish` reports success, the tables hold the emitted nodes, their number is reported, and they digest as the nodes do in any order |
| Parity.WriteSinkParity | crates/bench/src/writer.rs:73-134 | for any workers, interleaving and chunk size, a run in which no transaction fails ends with `finish` reporting success and the emitted nodes, exactly, in the tables, counted and digested |
| Parity.TablesDoNotDependOnTheRun | crates/bench/src/writer.rs:59-134 | two finished runs over the same nodes leave the same tables, however dealt, interleaved and cut |
| Parity.WriteThenDigest | crates/bench/src/mdbx.rs:154-185 | writing a build in chunks and digesting the tables gives the build's own digest and count |
| Parity.CollectThenDigest | crates/bench/src/digest.rs:75-88 | the collected updates digest as the emissions did, and hold exactly them |
| SplitMix.MixBijective | crates/bench/src/synth.rs:41-44 | the mix has a two-sided inverse on 64-bit words |
| SplitMix.FromNatAdds | crates/bench/src/synth.rs:40 | counting in a word turns sums of increments into wrapping sums |
| SplitMix.FromNatToNat | crates/bench/src/synth.rs:40 | every word is the counter after some number of increments below 2^64 |
| SplitMix.ToNatFromNat | crates/bench/src/synth.rs:40 | and that number is unique |
| SplitMix.StateIsWalk | crates/bench/src/synth.rs:40 | after n calls the state is the seed and n times the odd step, wrapping |
| SplitMix.OutputsDiffer | crates/bench/src/synth.rs:39-45 | two outputs of one generator fewer than 2^64 calls apart differ |
| SplitMix.EveryWordComesUp | crates/bench/src/synth.rs:39-45 | every word is output within the first 2^64 calls |
| SplitMix.Period | crates/bench/src/synth.rs:39-45 | the outputs repeat those of the first 2^64 calls, all of which are new |
| SplitMix.ReferenceOutputs | crates/bench/src/synth.rs:39-45 | the first three outputs from seed zero are the published ones |
| Synth.LittleEndianRoundTrip | crates/bench/src/synth.rs:51 | a number is recovered from its little-endian bytes |
| Synth.KeyByte | crates/bench/src/synth.rs:48-54 | byte i of a key is byte i mod 8, lowest first, of the word drawn i / 8 after the first |
| Synth.KeysDiffer | crates/bench/src/synth.rs:48-54 | keys drawn at different positions fewer than 2^64 apart differ |
| Synth.Rng.NextU64 | crates/bench/src/synth.rs:39-45 | a call adds the odd constant to the state and returns the mix of the state it leaves, which is the output of its position |
| Synth.Rng.NextB256 | crates/bench/src/synth.rs:48-54 | the array filled eight bytes at a time holds four consecutive outputs |
| Synth.Rng.Below | crates/bench/src/synth.rs:57-59 | a draw below n is the remainder of one output |
| Synth.InsertEoa | crates/bench/src/synth.rs:67-76 | one account: four draws for the key, then a nonce below 50, then the next word whole as the balance, no code |
| Synth.InsertContract | crates/bench/src/synth.rs:82-94 | one contract's account from nine draws, then each slot's value and key from five |
| Synth.DrawSizes | crates/bench/src/synth.rs:78-80 | one draw for each small contract gives its size, and the large ones follow as configured |
| Synth.SizesAreDrawn | crates/bench/src/synth.rs:78-80 | small contract j has one plus draw 6 eoas + j modulo the maximum slots, large ones as many as configured |
| Synth.Synthesize | crates/bench/src/synth.rs:63-97 | for every configuration the loops build the state defined by draw positions, later writes winning; up to 2^64 draws every account and slot is there with the fields drawn for it |
| Synth.EoasExact | crates/bench/src/synth.rs:67-76 | before 2^64 draws the plain accounts have distinct keys |
| Synth.ContractsExact | crates/bench/src/synth.rs:81-90 | and each contract adds an account |
| Synth.SlotsExact | crates/bench/src/synth.rs:91-94 | and each slot of a contract a key of its own |
| Synth.StoragesHaveAccounts | crates/bench/src/synth.rs:81-94 | only contracts have slots |
| Synth.StoragesExact | crates/bench/src/synth.rs:81-95 | the slots of all contracts number exactly the sum of their sizes |
| Synth.ContractSlots | crates/bench/src/synth.rs:81-95 | later contracts do not touch the slots of an earlier one |
| Synth.SynthesisIsExact | crates/bench/src/synth.rs:63-97 | with at most 2^64 draws the account and slot counts are exact and every address with slots has an account |
| Synth.ContractIsExact | crates/bench/src/synth.rs:78-94 | each contract has exactly its slots, small ones from one to the maximum, large ones as configured, none of value zero |
| Synth.EoaIsDrawn | crates/bench/src/synth.rs:67-76 | with at most 2^64 draws, plain account i has no code, its nonce is draw 6i + 4 modulo 50 and its balance draw 6i + 5 |
| Synth.ContractIsDrawn | crates/bench/src/synth.rs:81-94 | contract n has nonce 1, a balance below a million, four words as its code hash, and exactly its slots, each valued one more than the remainder of the word before its key |
| Synth.SynthesisAsDrawn | crates/bench/src/synth.rs:63-97 | the whole state: exactly as many accounts without code as plain ones configured, all accounts and slots as drawn |
| Synth.CountSynthesized | crates/bench/src/memory.rs:44-51 | the counts a generated state reports are exactly the configured accounts and the sum of the contract sizes |
| Synth.NoOrphansSynthesized | crates/bench/src/synth.rs:81-94 | for every configuration, however many draws, every address with slots has an account |
| Synth.SynthesizeAndWrite | crates/bench/src/mdbx.rs:72-82 | every generated state, written to empty tables, leaves exactly the rows of its sorted view |
| MemoryStates.MemoryState.InsertAccount | crates/bench/src/memory.rs:27-30 | the account is replaced, the cache dropped, the slots untouched |
| MemoryStates.MemoryState.InsertStorage | crates/bench/src/memory.rs:33-41 | zero removes the slot, anything else replaces it, the cache is dropped |
| MemoryStates.AccountsArePut | crates/bench/src/memory.rs:27-46 | after any history the accounts counted are the addresses ever inserted, once each |
| MemoryStates.LastPutIsKept | crates/bench/src/memory.rs:27-30 | after any history each account is the one inserted last under its address |
| MemoryStates.MemoryState.StorageCount | crates/bench/src/memory.rs:49-51 | the sum over addresses is the number of pairs of address and slot |
| MemoryStates.MemoryState.Normalise | crates/bench/src/memory.rs:69-80 | the loops build the view in which addresses without slots are left out |
| MemoryStates.ViewIsSorted | crates/bench/src/memory.rs:67-83 | accounts and slots ascend by key, each account stands with itself as `Some`, and each address with slots lists exactly its slots |
| MemoryStates.MemoryState.Sorted | crates/bench/src/memory.rs:67-83 | cached or not, the result is the sorted view of the maps as they are: ascending, every account and every slot once |
| MemoryStates.SortedAfter | crates/bench/src/memory.rs:27-83 | after any history of insertions, removals and reads, the view shows what was inserted |
| MemoryStates.LastWriteToSlot | crates/bench/src/memory.rs:33-41 | a slot is present if and only if its last write was not zero, and then holds that write |
| MemoryStates.SameViewSameRows | crates/bench/src/memory.rs:67-83 | two states look the same sorted if and only if they have the same accounts and the same slots |
| MemoryStates.ZeroUndoesInsert | crates/bench/src/memory.rs:33-41 | inserting an absent slot and zeroing it leaves no trace in the view |
| MemoryStates.WriteHashedState | crates/bench/src/mdbx.rs:72-82 | all accounts and the slots of those accounts are added in one transaction, row by row, or nothing is |
| MemoryStates.WritesTheViewExactly | crates/bench/src/mdbx.rs:74-79 | the storage rows written are those of the sorted view if and only if every address with slots has an account |
| MemoryStates.OrphanSlotsAreNotWritten | crates/bench/src/mdbx.rs:74-79 | a state with one slot and no account, of which nothing is written |
| Rebuild.ClearTrieTables | crates/bench/src/rebuild.rs:26-32 | the tables are empty, or as they were if the transaction failed |
| Rebuild.PieceTaken | crates/bench/src/rebuild.rs:81-90 | committing a piece keeps root, total entries and final tables those of the whole walk |
| Rebuild.PieceCounted | crates/bench/src/rebuild.rs:88 | and keeps the total of written entries, if pieces touch different nodes |
| Rebuild.PiecesAhead | crates/bench/src/rebuild.rs:72-90 | after any number of pieces the walk from where they end brings exactly the rest of root, entries and tables |
| Rebuild.FirstComplete | crates/bench/src/rebuild.rs:91-103 | a walk complete after k pieces and not after k - 1 is so after no fewer, as a complete one stays complete |
| Rebuild.RebuildTables | crates/bench/src/rebuild.rs:64-105 | for every threshold the loop ends with the one-shot walk's tables, root and entries; when a commit fails the tables hold exactly the pieces before it, and the walk resumed there would bring exactly what is missing; the chunks reported are the first number of pieces after which the walk is complete |
| Rebuild.RethRebuild | crates/bench/src/rebuild.rs:50-62 | the same from cleared tables, whatever was in them, and nothing changed if the clearing fails; the chunks reported are again the first number that completes the walk |
| Rebuild.RebuildMatchesOneShot | crates/bench/src/rebuild.rs:50-105 | piecewise and one-shot rebuilds of two databases leave the same tables, root and entries, and the same written totals if pieces touch different nodes |
| Rebuild.SeparateComposes | crates/bench/src/rebuild.rs:79-88 | pieces that touch different nodes compose to their union |
| Rebuild.ChunkComposes | crates/bench/src/rebuild.rs:79-88 | the updates of a stretch of nodes do what those of its two halves do in turn, also with repeats |
| Rebuild.EmissionWalkCoherent | crates/bench/src/rebuild.rs:72-104 | a walk over given nodes is coherent however it is cut into pieces |
| Rebuild.ChunksSeparate | crates/bench/src/rebuild.rs:79-88 | two stretches with no key in common make batches on different keys whose union is the batch of both |
| Rebuild.EmissionWalkSeparate | crates/bench/src/rebuild.rs:72-104 | a walk over distinct nodes comes in pieces that touch different nodes, however it is cut |
| Rebuild.RebuildMatchesWriter | crates/bench/src/rebuild.rs:50-105 | the rebuild and the writing sink leave the same tables for the same nodes, whatever the pauses and the chunk size, and for distinct nodes report the same number of entries |
| PeakAllocs.PeakAlloc.Alloc | crates/bench/src/alloc.rs:65-81 | a block is counted if and only if the system gave one, and the peak stays the highest value since the last reset |
| PeakAllocs.PeakAlloc.Dealloc | crates/bench/src/alloc.rs:83-87 | the counter stays the bytes of the blocks held, and the peak the highest value since the last reset |
| PeakAllocs.PeakAlloc.Realloc | crates/bench/src/alloc.rs:89-97 | a resized block counts with its new size, having been taken off first, so that both sizes together never reach the peak; one that could not be resized counts with its old |
| PeakAllocs.PeakAlloc.ResetPeak | crates/bench/src/alloc.rs:40-43 | the history of which the peak is the highest value starts over with the current size |
| PeakAllocs.StepBalances | crates/bench/src/alloc.rs:45-52 | every atomic step keeps the counter the blocks in callers' hands and the charges of operations under way |
| PeakAllocs.AllocateAlone | crates/bench/src/alloc.rs:65-81 | the three steps of an allocation alone: it is counted, put to the peak, and then the caller's |
| PeakAllocs.FreeAlone | crates/bench/src/alloc.rs:83-87 | the two steps of a release alone: no longer the caller's, then taken off, the peak as it was |
| PeakAllocs.ResizeAlone | crates/bench/src/alloc.rs:89-97 | the four steps of a resizing alone: the old size goes first, so that the peak is put to the rest and the new size |
| PeakAllocs.ResetAlone | crates/bench/src/alloc.rs:41-43 | the two steps of a reset alone leave the counter as the peak |
| PeakAllocs.AlwaysBalanced | crates/bench/src/alloc.rs:45-97 | that balance holds in every reachable state |
| PeakAllocs.CounterIsLiveAdjusted | crates/bench/src/alloc.rs:45-97 | at every step the counter is the live bytes adjusted by operations under way, is not negative, and covers every pending subtraction |
| PeakAllocs.QuietCounterIsExact | crates/bench/src/alloc.rs:31-33 | when quiet it is the live bytes |
| PeakAllocs.HighestIsMaximum | crates/bench/src/alloc.rs:35-38 | the reference value for the peak is one the counter took, and no value it took is higher |
| PeakAllocs.PeakIsPut | crates/bench/src/alloc.rs:41-48 | from a store on, as long as no other follows, the peak is the highest of the stored value and the raises since |
| PeakAllocs.AlwaysExplained | crates/bench/src/alloc.rs:45-48 | in every reachable state the highest counter value since a given step was there at that step, or an allocation begun since put it up or is about to, and no such allocation puts up more |
| PeakAllocs.PeakWithoutReset | crates/bench/src/alloc.rs:35-48 | without a reset a quiet allocator's peak is the highest value its counter ever took |
| PeakAllocs.PeakExactly | crates/bench/src/alloc.rs:35-48 | whatever other threads and resets did, the peak is what the last reset and the raises after it put there; when quiet it is the highest counter value since that reset if and only if no allocation begun and completed during the reset went above what was put, and no raise outstanding at its read that landed after its store went above what the counter took |
| PeakAllocs.PeakSinceReset | crates/bench/src/alloc.rs:35-48 | so it is right after a reset that reads with no `fetch_max` outstanding and during which no allocation completes |
| PeakAllocs.OverlappedResetLosesThePeak | crates/bench/src/alloc.rs:41-48 | a run in which an overlapped reset leaves a quiet peak below the counter |
| PeakAllocs.StaleRaiseOverstatesThePeak | crates/bench/src/alloc.rs:41-48 | a run in which no allocation completes during the reset and a quiet peak is above everything the counter took since |
| LivePeak.LiveOfOnly | crates/bench/src/alloc.rs:45-52 | with one operation under way the live bytes are the counter, plus what it has yet to add, less what it has yet to take off |
| LivePeak.SequentialLive | crates/bench/src/alloc.rs:45-97 | operations one at a time keep the highest number of live bytes the higher of the highest counter value and what is live now |
| LivePeak.SequentialPeakWithoutReset | crates/bench/src/alloc.rs:35-48 | without a reset, operations one at a time leave the highest number of live bytes ever as the peak |
| LivePeak.SequentialPeak | crates/bench/src/alloc.rs:35-48 | after a reset, operations one at a time leave the highest number of live bytes since as the peak |
| LivePeak.PeakAboveLive | crates/bench/src/alloc.rs:45-52 | a run without a reset whose quiet peak is twice what was ever live |
| LivePeak.PeakBelowLive | crates/bench/src/alloc.rs:45-52 | a run without a reset whose quiet peak is half of what was live |
| ForeseenPeak.RaiseLands | crates/bench/src/alloc.rs:45-48 | a `fetch_max` outstanding in some state has happened by the next quiet one |
| ForeseenPeak.AddLands | crates/bench/src/alloc.rs:45-48 | bytes an operation has yet to add have by then been counted and put to the peak, at no less |
| ForeseenPeak.ForeseenIsRight | crates/bench/src/alloc.rs:35-48 | if the condition holds as a reset stores, every quiet continuation has the highest counter value since the reset as its peak |
| ForeseenPeak.Drain | crates/bench/src/alloc.rs:65-97 | from every state after a reset some run finishes everything and frees it before the next bytes are added, so that neither peak nor counter grows beyond what is owed |
| ForeseenPeak.PeakForeseen | crates/bench/src/alloc.rs:35-48 | as a reset stores it is settled: all quiet continuations without another store have the right peak if and only if what completed during the reset is made up for by the stored value or what is under way, and what is outstanding from before it is no more than the counter reached or has still to reach |
| ProgressLines.ProgressSink.OnProgress | crates/bench/src/progress.rs:65-86 | a call counts its batch and logs exactly when an interval has passed since the last line; it panics when the count to be divided by is zero, and ever after |
| ProgressLines.StepKeepsRate | crates/bench/src/progress.rs:72-76 | every atomic step of every caller keeps lines an interval apart and the lock with one caller, or with none once poisoned |
| ProgressLines.StepKeepsCounts | crates/bench/src/progress.rs:69 | every step keeps the counter the sum of the batches and every caller's count the sum of some first batches |
| ProgressLines.CallAlone | crates/bench/src/progress.rs:65-86 | the steps of a call that counts and gets the lock: no line before the interval has passed, afterwards a line with the count and the time, or a panic with the lock held if the count is zero |
| ProgressLines.WalkedIsTheTotal | crates/bench/src/progress.rs:55-69 | when every caller has reported all its batches and returned, the counter is the total of the work given to them modulo 2^64, whatever the interleaving |
| ProgressLines.LinesAreSpaced | crates/bench/src/progress.rs:72-76 | successive lines are at least the interval apart, and the first is no sooner after the start |
| ProgressLines.LinesAreCounts | crates/bench/src/progress.rs:69-85 | every line reports the sum of the batches counted up to its caller's, modulo 2^64, and never zero |
| ProgressLines.LinesReportNoMore | crates/bench/src/progress.rs:79-85 | every line reports at least one entry and at most all of them |
| ProgressLines.DividesByZeroExactly | crates/bench/src/progress.rs:78-80 | a caller that is let through panics if and only if the batches counted up to its own add up to a multiple of 2^64 |
| ProgressLines.NobodyPanics | crates/bench/src/progress.rs:72-80 | while all batches fit the counter no caller panics and the lock is never poisoned |
| ProgressLines.LinesAscendExactly | crates/bench/src/progress.rs:69-85 | while all batches fit the counter, lines ascend if and only if callers are let through in the order in which they counted |
| ProgressLines.SeparateCallsAscend | crates/bench/src/progress.rs:65-86 | calls that do not overlap give ascending lines |
| ProgressLines.LinesMayGoBackwards | crates/bench/src/progress.rs:69-85 | a run in which a later line reports fewer entries than an earlier one |
| ProgressLines.WrappedCounterPanics | crates/bench/src/progress.rs:69-80 | a run whose batches wrap the counter to zero: nothing is logged, the caller panics, and so does the next on the poisoned lock |

## Left out

- The trie computation: `PartitionedStateRoot`, `StateRoot` and the split of a state into partitions are reth's; the
  model takes the emitted nodes, and the pieces of the resumable walk, as given.
- The walk reading the trie tables: `Rebuild.Coherent` makes each call a function of the threshold and the intermediate
  state alone, so that what earlier pieces wrote does not influence it.
- Database I/O: opening and reading transactions, cursors, pages and read errors. A transaction either goes through or
  leaves the tables as they were; which ones fail is a parameter.
- The concrete hash, the two key formats and the choice between them in the metadata table.
- reth's storage trie cursor: its own loop is modelled by its contract, including what it does with the empty path.
- MemoryStates.SortPostState: stands for reth's `into_sorted`, as the listing of both levels by ascending key.
- Memory order: every atomic operation is one step of a sequentially consistent machine.
- TableScan.DigestTables: visits the rows of a table in some order rather than in key order, as nothing in the result
  depends on it; the parallel schedule is in `ParallelScan.ParallelScanIsSerial`.
- Writer.WriteChunks: does not model the debug assertion on repeated nodes, and proves the release behaviour for them.
- Pipeline.NeverStuck: assumes nothing about fairness; that runs end is `Pipeline.RunsAreFinite`.
- Machine width of `usize` counters: node, chunk and entry totals are unbounded numbers; the digest's count, the progress
  counter and the generator are 64 bits wide.
- Formatting: `human_bytes`, percentages, remaining time, log texts and the command line.
- `without_empty_storage_tries`, `runtime`, `SharedCursorFactory` and the cursor factories.
