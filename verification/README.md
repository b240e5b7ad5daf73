# A verified model of the key/value store

A single-node LSM key/value store: a write-ahead log, an AVL memtable, SST files with index and
Bloom filter, compaction, point-in-time reads, and per-key locking. This project models its
algorithms in Dafny and proves what they promise, over every input, every interleaving and every
run. `dafny verify dfyconfig.toml` checks all of it.

Every part has the same three layers. A specification on values says what a loop or a state change
computes. Classes and methods with loops, in the form of the source, are proved to compute exactly
that. Lemmas then prove what the specification guarantees. Concurrency is interleaving: an `await`
ends a step, and a run is any sequence of steps.

## Parts

- Byte strings and checks: `Bytes`, `Varint`, `Checksum`, `Indexing`, `Entries`.
- Concurrent write path: `WriteModel` is the state machine of put, bulk put, del, cas and
  transaction commit; `WriteLocks` proves mutual exclusion, fairness and absence of deadlock;
  `WriteReplay` proves that the log rebuilds the memtable, and `TreeReplay` says when the rebuilt tree
  answers like the live one; `WriteCas` counts the winners of a compare-and-swap, `WriteFlush` lets
  flushes run beside the calls, and `WriteLinear` says
  where they stand in the log; `WritePath` is the engine class whose methods are the steps.
- Compaction: `MinHeap`, `MergeIterator` and `MergeLimits` (the k-way merge), `Compaction` (what one
  group does to the stored versions), `Tombstones` (what it does to deletions), `Selection` (which files
  are next), `Compactor` (whole runs).
- SST files: `SstFormat`, `SstBloom`, `SstWriter` and `SstWriting` (the writer as functions and as a
  class), `SstReader`, `SstRoundTrip`.
- Write-ahead log: `WalFrames` (record format and scans), `WalRecovery`, `WalSegments` and
  `WalTiling` (rotation and collection), `WalReopen`, `CrashReplay`, `HandoffQueue` and `HandoffWal`
  (the queue between producers and the background writer).
- Memtable: `MemTree` and `MemOrder` (the tree as a value), `MemNodes`, `MemIterators` and `MemTable`
  (mutable nodes, explicit-stack iterators, detached snapshots).
- Reads: `ReadPath` (get over flushes, their two steps, and restarts), `Mvcc` (reads at a revision).
- `Semaphore`: the weighted priority semaphore.

## Where the code does not do what it is meant to

The model follows the code. Where a promise fails, the project proves the exact condition under which it
holds, mostly with a concrete failing run beside it.

- `sinkDown` compares children with a stale slot, so an item sinks one level. The merge sorts all
  sorted sources, and the two point-in-time reads agree on them, exactly up to four sources
  (`MergeLimits.MergeSortsIffAtMostFour`, `Mvcc.ReadsAgreeIffAtMostFour`).
- `MemTable.delete` of a node with two children goes on with the outer key. Strict order survives
  exactly for at most one child (`MemOrder.RemoveStrictIff`). In any run a deletion removes its key
  exactly if it stands in the tree once (`MemOrder.DeleteAfterRunIff`, `MemOrder.DeletedKeySurvives`).
  The tree is safe, whatever comes next, exactly if no deletion has hit a node with two children
  (`TreeReplay.SafeRunIff`); otherwise live and replayed trees can differ
  (`TreeReplay.LiveAndReplayedDiffer`), and an overwritten value can come back by the deletion of another
  key (`TreeReplay.OverwrittenValueComesBack`).
- `cas` with a null expectation can succeed twice. Without flushes: exactly if an odd number of deletions of
  the key has followed its last value (`WriteLinear.AbsentAgainIff`, `WriteCas.DeleteAllowsSecondWinner`).
- A flush takes the memtable away at once and publishes its file after its awaits. Until then `get` misses
  what only the detached memtable has (`ReadPath.GetReturnsLastPutIff`), and `cas` compares without it, so
  that it can succeed twice, for null or for a revision, with no deletion at all (`WriteFlush.CasMatchesIff`,
  `WriteFlush.SecondNullWinnerIff`, `WriteFlush.FlushAllowsSecondWinner`, `WriteFlush.StaleRevisionWinsAgain`).
- Nothing keeps flushes from overlapping and ending in another order
  (`ReadPath.EndOrderIsInvisibleIff`, `ReadPath.OvertakenFlushSurvivesIff`).
- `flush` rotates the log at an offset that it took before its awaits (`WalTiling.RotateTilesIff`,
  `WalTiling.StaleRotationLosesIff`).
- `Engine.get` treats a tombstone in the memtable as nothing and falls through to the files
  (`ReadPath.DeleteHidesIff`, `ReadPath.DeletedComesBack`).
- `revCounter` is rebuilt from the replayed records only. After a flush and a restart revisions can
  start again below stored ones (`ReadPath.RestartKeepsCounterIff`, `ReadPath.RevisionsStartAgain`).
- A flush between a log append and its memtable update records an offset past that write
  (`ReadPath.InFlightWriteSurvivesIff`).
- A partial compaction gives its outputs the manifest's newest offset, and readers are ordered by
  offset (`ReadPath.PartialCompactionKeepsGetIff`, `ReadPath.OldValueComesBack`).
- Replay skips the empty key (`WriteReplay.ReplayExactIff`).
- `prefixEndExclusive` keeps the bytes after the one it increments. Its bound is the least one
  exactly if the last byte is below 0xff or all bytes are 0xff (`Indexing.PrefixScanExactIff`).
- The second loop of `recoverTail` starts twelve bytes too early, so an intact file can be cut
  (`WalRecovery.IntactFileKeptIff`, `WalRecovery.EmbeddedFrameIsLost`).
- `meta.json` is written every 64 appends, and a reopened log trusts it
  (`WalReopen.ReopenIsFaithful`, `WalReopen.RotationAfterReopenIff`).
- `Wal.reverseScan` reads the active file last (`WalReopen.WalReverseIsExactIff`).
- `HandoffWal.scanWithOffsets` counts from the first remaining file (`WalReopen.HandoffOffsetsIff`).
- `HandoffWal` reports a failed write only on the console, and a producer that wakes late pushes to a
  queue nobody empties (`HandoffQueue.ResolvedMeansDurableIff`,
  `HandoffQueue.NothingIsWrittenAfterStop`).
- Level-0 compaction writes a promoted candidate and its tombstone (`Tombstones.LookupInOutput`,
  `Compaction.WrittenIsSortedIff`), and dropping an expired tombstone can bring an older version back
  (`Tombstones.StaysDeletedIff`, `Tombstones.StaysDeletedIffOfFour`).
- `recoverTail` leaves a torn part alone if the file has no whole frame in front of it or the part is
  longer than the search window (`WalRecovery.RecoveryIsExactIff`, `WalRecovery.FirstAppendTorn`,
  `WalReopen.CrashInsideAppendIff`).
- The time stamp and offset of a merged entry are found by counting readable files, but in the list of
  all files of the group; the model does the same.
- Both after-add estimators price the index entry of a newly opened block with the first key of the old
  one, and so agree in every state (`SstWriter.EstimateExactIff`).
- `crc32c` mixes a reflected table with an unreflected polynomial and inverts its start value; nothing
  but its determinism and its range is used, and no conformance is claimed.

## Model

| member | source | states |
|---|---|---|
| WriteReplay.ReplayRebuildsMemtable | libs/storage/engine.ts:1089-1230 | for every interleaving of put, bulk put, del, cas and transaction commits, replaying the log from empty gives the memtable that the appended calls lead to once applied, without the empty key |
| WriteReplay.ReplayExactIff | libs/storage/engine.ts:1106-1121 | replay is exact if and only if no write of the empty key has survived (the truthiness test skips it) |
| WriteReplay.RevisionsGrowAlongTheLog | libs/storage/engine.ts:722-741 | along the log the revisions of each key strictly increase; the replayed counter is at least every replayed revision and at most the live counter |
| WriteReplay.ReachableStatesProgress | libs/storage/engine.ts:663-718 | in every reachable state with an unfinished call some call can step, and that step reduces the remaining work |
| WriteLocks.HoldersAreUnique | libs/storage/engine.ts:663-693 | at most one call holds the lock of a key |
| WriteLocks.FirstComeFirstServed | libs/storage/engine.ts:663-693 | of two calls queued for a key the later one does not hold the lock, and stays behind across any step until the earlier one, as the holder, has finished |
| WriteLocks.NoDeadlock | libs/storage/engine.ts:696-718 | sorted acquisition: while a call is unfinished, some call can take a step |
| WriteLocks.StepsAreProgress | libs/storage/engine.ts:696-718 | every step other than a submission strictly reduces the remaining work, so runs end |
| WriteLocks.GreatestWaiting | libs/storage/engine.ts:696-718 | among waiting calls there is one whose awaited key is maximal, the witness of the deadlock argument |
| WriteCas.CasHasOneWinner | libs/storage/engine.ts:1400-1444 | in runs of calls without a flush at most one cas per key and expected revision succeeds; for the expectation null, in runs that do not delete the key; the exact conditions are WriteLinear.AbsentAgainIff and, with flushes, WriteFlush.CasMatchesIff |
| WriteLinear.CasStandsWhereExpected | libs/storage/engine.ts:1404-1440 | in every run without a flush the record of every cas that has gone through stands where the log in front of it shows the expected revision of its key |
| WriteLinear.AbsentAgainIff | libs/storage/engine.ts:1425-1428 | in runs without a flush, with one winner for a null expectation, another null cas on the key finds it absent if and only if the log holds, behind the record of the winner, an odd number of deletions of the key since its last value |
| WriteLinear.GoneIff | libs/storage/memtable.ts:133-138 | a key that was there is gone after operations if and only if an odd number of deletions follows its last value, as a deletion drops a tombstone too |
| WriteCas.DeleteAllowsSecondWinner | libs/storage/engine.ts:1400-1444 | such a run: with a deletion in between, two cas calls that expect null both succeed |
| WriteFlush.CasMatchesIff | libs/storage/engine.ts:1404-1428 | in every run of calls and flushes, which detach and publish at any time and in any order, the compare of a cas succeeds if and only if the memtable in use, or if that shows nothing the newest published file that does, leaves the expected revision; what flushes in progress hold counts for nothing |
| WriteFlush.NullCasMatchesIff | libs/storage/engine.ts:1404-1428 | for the expectation null: if and only if the memtable in use and every published file have got no value of the key and an even number of its deletions, or an odd number of deletions since its last value |
| WriteFlush.SecondNullWinnerIff | libs/storage/engine.ts:1400-1444 | for a key that a null cas has created and nobody deletes, another null cas succeeds if and only if every write of the key is with flushes in progress |
| WriteFlush.FlushAllowsSecondWinner | libs/storage/engine.ts:1715-1760 | such a run: create, begin a flush, create again; both cas calls that expect null succeed without a deletion |
| WriteFlush.StaleRevisionWinsAgain | libs/storage/engine.ts:1715-1760 | the same for a revision: while a flush holds revision 2, a second cas that expects revision 1 finds it in an older file |
| WriteFlush.ReplayWithFlushes | libs/storage/engine.ts:1089-1230 | with flushes among the calls, replaying the whole log gives what all memtable updates give together in their order, once the calls in flight have applied |
| WriteFlush.LeavesNothingIff | libs/storage/memtable.ts:133-138 | operations leave nothing of a key, from nothing, exactly by that parity |
| WriteModel.StampAll | libs/storage/engine.ts:327-386 | a batch gets consecutive revisions above the counter, in the order of its operations |
| WriteModel.LockKeysIncreasing | libs/storage/engine.ts:696-699 | the keys to lock are strictly increasing, so each is taken once and in order |
| WriteModel.LockKeysAreTheKeys | libs/storage/engine.ts:696-699 | exactly the keys of the writes are locked |
| WriteModel.ReplayCounter | libs/storage/engine.ts:1119-1121 | the replayed counter is the maximum of its start and all replayed revisions |
| WriteModel.UnlockAllQueues | libs/storage/engine.ts:709-717 | unlocking distinct keys removes exactly the heads of their queues |
| WritePath.Engine.Open | libs/storage/engine.ts:1089-1230 | the replay loop computes the replay function of the model |
| WritePath.Engine.ReplayRecord | libs/storage/engine.ts:1104-1229 | one record, plain or transaction, applies its operations in order |
| WritePath.Engine.AcquireKeyLock | libs/storage/engine.ts:663-693 | takes a ticket; it runs at once exactly if the queue was empty |
| WritePath.Engine.UnlockKey | libs/storage/engine.ts:673-686 | removes the head, drops an empty queue, and wakes exactly the next ticket |
| WritePath.Engine.ReleaseLocks | libs/storage/engine.ts:709-717 | releasing in reverse order unlocks every key |
| WritePath.Engine.AllocateRevs | libs/storage/engine.ts:722-741 | returns the next n revisions and advances the counter by n |
| WritePath.Engine.Start | libs/storage/engine.ts:312-326 | the part of put, del, cas or commit up to the first wait is the submission step of the model |
| WritePath.Engine.ResumeWithLock | libs/storage/engine.ts:701-708 | granting one lock is the acquisition step |
| WritePath.Engine.Prepare | libs/storage/engine.ts:1403-1432 | with all locks held, the compare of a cas and the revision allocation are the stamping step |
| WritePath.Engine.AppendRecord | libs/storage/engine.ts:1290-1292 | once the record is in the log a replay gives what it gave before and then the operations of this call, all of them, while the memtable has not changed |
| WritePath.Engine.Finish | libs/storage/engine.ts:405-425 | the memtable update and the unlock are the final step |
| TreeReplay.SafeIffStrict | libs/storage/memtable.ts:106-139 | after any run whose tree answers like the map: it goes on doing so after every possible next operation if and only if no key stands in it twice |
| TreeReplay.SafeRunIff | libs/storage/memtable.ts:106-139 | the exact condition: the tree answers like the map, after every possible next operation, at each operation of a run if and only if no deletion but the last operation hits a node with two children |
| TreeReplay.ReplayedTreeAnswersLikeLive | libs/storage/memtable.ts:57-139 | so the live tree, built in the order in which the calls applied, and the tree that replay builds from the log answer every lookup alike if that holds for both orders |
| TreeReplay.ReplayedTreeIsSettled | libs/storage/engine.ts:1089-1230 | under that guard the replayed tree stands for the memtable map that the calls in flight lead to |
| TreeReplay.MemIsApplied | libs/storage/engine.ts:405-425 | the memtable is what the operations give in the order in which the calls applied them |
| TreeReplay.OrderOfDeletesMatters | libs/storage/memtable.ts:125-128 | two deletions of different keys give different lookups in the two orders |
| TreeReplay.LiveAndReplayedDiffer | libs/storage/engine.ts:405-425 | a run of the write path that appends two deletions in one order and applies them in the other: the live tree has no value of the key, the replayed one has |
| TreeReplay.OverwrittenValueComesBack | libs/storage/memtable.ts:106-139 | an unsafe run in which a key is overwritten and never deleted: the deletion of another key makes lookups return the overwritten value |
| WritePath.ReplayIsRecordwise | libs/storage/engine.ts:1089-1230 | a log prefix replays whole records, so a transaction is there wholly or not at all, and replaying the rest completes the state |
| Compactor.Compactor.Compact | libs/storage/compactor.ts:51-1147 | a whole run invents no version, keeps every newest version that is live, and without tombstone retention preserves the newest versions in both directions; if every file can be read, every level above 0 ends within its target, or empty if it has none, apart from files made in the run |
| Compactor.Compactor.CompactLevel0 | libs/storage/compactor.ts:180-536 | level 0 keeps the newest versions; if any file of the group can be read the whole group is replaced, otherwise nothing changes; levels above 1 stay |
| Compactor.Compactor.CompactToTarget | libs/storage/compactor.ts:543-879 | the per-level loop ends, keeps the newest versions and brings the level within its target if every file can be read |
| Compactor.Compactor.CompactOneByOne | libs/storage/compactor.ts:880-1147 | the loop over single files keeps the newest versions and leaves none of the level's own files behind if every file can be read |
| Compactor.Compactor.CompactGroup | libs/storage/compactor.ts:845-879 | the group's manifest entries are replaced by those of output files that hold, file after file, exactly what the merge yields; every other file on disk is untouched |
| Compactor.Compactor.MergeGroup | libs/storage/compactor.ts:676-845 | wherever the output is split, the output files one after the other equal the merged sequence after the tombstone rules, and each manifest entry has the key range of its file |
| Compactor.Compactor.RotateWriter | libs/storage/compactor.ts:698-724 | the current output becomes a new file with its own manifest entry |
| Compactor.Compactor.AddOutcome | libs/storage/compactor.ts:334-500 | the calls of add for one merged item append its entries in order |
| Compactor.Compactor.PromoteFile | libs/storage/compactor.ts:888-906 | promotion changes level and time stamp of one entry and no stored version |
| Compactor.LevelShrinks | libs/storage/compactor.ts:858-879 | each round removes at least one file from the level, so the loop terminates |
| Compactor.MovedByGroup | libs/storage/compactor.ts:845-858 | replacing a group touches no level but its own and the next one |
| Compaction.GroupKeeps | libs/storage/compactor.ts:163-529 | replacing a group by what its merge wrote keeps the newest versions of the whole manifest, whatever the group is |
| Compaction.NewestIsWritten | libs/storage/compactor.ts:300-500 | for any number of sources, sorted or not: without retention a newest version of every key is written, with retention one that is live |
| Compaction.NothingInvented | libs/storage/compactor.ts:300-500 | everything written has key, value and revision of something read |
| Compaction.WrittenIsSortedIff | libs/storage/compactor.ts:300-500 | for at most four sorted sources the written sequence is strictly sorted if and only if no candidate is promoted over its tombstone |
| Compaction.SortedFiles | libs/storage/compactor.ts:262-296 | splitting a sorted sequence gives sorted files whose key ranges lie one behind the other |
| Tombstones.ExpiredGroupVanishes | libs/storage/compactor.ts:409-483 | a group of expired, unprotected tombstones writes nothing |
| Tombstones.StaysDeletedIff | libs/storage/compactor.ts:409-498 | for any group and any number of files: a key whose newest version is a tombstone reads deleted after the replacement if and only if its tombstone is written, or nothing live is newest among the files outside the group and what else the group writes for the key |
| Tombstones.StaysDeletedIffOfFour | libs/storage/compactor.ts:409-498 | for up to four sorted files: if and only if the tombstone is protected, or not expired, or brought along by a promoted candidate, or the newest version outside the group is not live |
| Tombstones.ExpiredTombstoneResurrects | libs/storage/compactor.ts:409-483 | such a family: a group of expired tombstones in front of a live version outside it |
| Tombstones.LookupInOutput | libs/storage/compactor.ts:409-498 | over the whole output of up to four sorted files: where a tombstone is written, a lookup finds it if and only if no candidate was promoted for that key; the other cases are stated too |
| Selection.SelectFiles | libs/storage/compactor.ts:555-658 | the three selection stages compute the selection function |
| Selection.PickByOverlap | libs/storage/compactor.ts:561-589 | the first stage takes files from the scored list until the reduction or the limit is reached or the overlap ends |
| Selection.FillBySize | libs/storage/compactor.ts:591-606 | the second stage appends files smallest first |
| Selection.FindWindow | libs/storage/compactor.ts:608-658 | the third stage finds the best window by key order |
| Selection.FindEnd | libs/storage/compactor.ts:626-643 | the inner loop ends at the first window from a start that suffices |
| Selection.SelectionIsSound | libs/storage/compactor.ts:543-658 | the selection is non-empty, within the limit and from the level; if it falls short of the reduction, no key-contiguous window of at most that many files reaches it |
| Selection.WindowIsLeast | libs/storage/compactor.ts:608-658 | a chosen window has the least total of all windows that reach the reduction |
| Selection.OverlapStagePrefersScore | libs/storage/compactor.ts:561-589 | no file left out by the first stage scores better than one it took |
| Selection.SizeStagePrefersSmall | libs/storage/compactor.ts:591-606 | no file left out by the second stage is smaller than one it added |
| Selection.WindowEndIsLeast | libs/storage/compactor.ts:626-643 | the first sufficient end gives the least sufficient total from that start |
| Selection.SortIsSorted | libs/storage/compactor.ts:571-575 | the stable sort by a total order is sorted |
| Selection.WindowsFollowKeys | libs/storage/compactor.ts:608-624 | windows are runs of neighbours in key order over all files of the level |
| MergeIterator.MergeYieldsNewestOnce | libs/storage/merge_iterator.ts:43-82 | up to four strictly sorted sources: increasing keys, every key once, with the highest revision and ties to the later source; candidates are all entries of a shared key |
| MergeIterator.MergeOfFourIsCorrect | libs/storage/merge_iterator.ts:43-82 | up to four strictly sorted sources: group keys strictly increase and a group holds exactly all entries of its key |
| MergeIterator.MergeLosesNothing | libs/storage/merge_iterator.ts:17-82 | for any number of sources in any order the groups hold exactly the entries of the sources, and each group is about one key |
| MergeIterator.ChooseIsBest | libs/storage/merge_iterator.ts:51-58 | the chosen entry of a group has the highest revision, the later source among equals |
| MergeIterator.KWayMerge | libs/storage/merge_iterator.ts:17-82 | the generator yields the merge function of its sources |
| MergeIterator.MergeRound | libs/storage/merge_iterator.ts:43-82 | one round drains a group, yields its winner and refills the heap |
| MergeIterator.DrainGroup | libs/storage/merge_iterator.ts:44-70 | everything at the top of the heap with the same key is drained |
| MergeIterator.LoadAll | libs/storage/merge_iterator.ts:31-38 | the first entry of every source is loaded |
| MergeIterator.RefillAll | libs/storage/merge_iterator.ts:72-81 | each drained source is advanced once per drained item |
| MergeIterator.Next | libs/storage/merge_iterator.ts:73-81 | one source is advanced by at most one entry |
| MergeIterator.ChooseBest | libs/storage/merge_iterator.ts:51-58 | the loop over a group computes the winner |
| MergeLimits.MergeSortsIffAtMostFour | libs/storage/min_heap.ts:76-98 | the merge sorts every choice of n sorted sources if and only if n is at most four, because an item sinks one level only |
| MinHeap.MinHeap.constructor | libs/storage/min_heap.ts:14-16 | a new heap is empty |
| MinHeap.MinHeap.PushItem | libs/storage/min_heap.ts:22-25 | push in place equals the push function |
| MinHeap.MinHeap.PopItem | libs/storage/min_heap.ts:31-40 | pop returns the first item and leaves the pop function of the array |
| MinHeap.MinHeap.BubbleUpFrom | libs/storage/min_heap.ts:61-70 | the loop with the moving hole equals the bubble-up function |
| MinHeap.MinHeap.SinkDownFrom | libs/storage/min_heap.ts:76-98 | the loop that compares children with the stale slot equals the sink-down function |
| MinHeap.PushPopPermute | libs/storage/min_heap.ts:22-40 | in any array push adds exactly its item and pop removes exactly the first one |
| MinHeap.PushKeepsOrder | libs/storage/min_heap.ts:61-70 | push keeps heap order |
| MinHeap.RootIsLeast | libs/storage/min_heap.ts:46-48 | in an ordered heap the root is least |
| MinHeap.SinkStopsAfterOneLevel | libs/storage/min_heap.ts:76-98 | on an ordered heap the item sinks at most one level |
| MinHeap.PopOrderIff | libs/storage/min_heap.ts:76-98 | pop keeps heap order if and only if one level of sinking is enough for the moved item |
| MinHeap.SmallHeapPopKeepsOrder | libs/storage/min_heap.ts:76-98 | with at most four items pop keeps heap order |
| SstRoundTrip.WrittenFileReadsBack | libs/storage/sstreader.ts:42-128 | main round trip: any written file opens; the iterator yields exactly the added entries with all fields; for increasing keys get equals lookup for every key, and if no block was stored compressed a range scan is exactly the range filter |
| SstRoundTrip.OpenWritten | libs/storage/sstreader.ts:42-128 | open passes every check on a written file and returns the written index and filter |
| SstRoundTrip.SearchFinds | libs/storage/sstreader.ts:156-170 | the binary search ends at the last block whose first key is at most the key |
| SstRoundTrip.OnlyInBlock | libs/storage/sstreader.ts:150-245 | no block but that one can hold the key |
| SstRoundTrip.FindIsLookup | libs/storage/sstreader.ts:188-241 | the scan of a block is lookup in its entries |
| SstRoundTrip.GetLed | libs/storage/sstreader.ts:150-245 | get over well-formed blocks equals lookup in all entries |
| SstRoundTrip.RangeLed | libs/storage/sstreader.ts:456-585 | the range scan of an uncompressed file yields exactly the entries of the range |
| SstRoundTrip.WrittenBloomAdmits | libs/storage/sstreader.ts:130-148 | the written filter admits every added key |
| SstReader.OpenFile | libs/storage/sstreader.ts:42-128 | the checks and loops of open equal the parse of the file |
| SstReader.LoadIndex | libs/storage/sstreader.ts:91-112 | the index loop parses all index entries |
| SstReader.Iterate | libs/storage/sstreader.ts:360-451 | the iterator reads all blocks in order, or throws where the source throws |
| SstReader.ReadEntries | libs/storage/sstreader.ts:385-445 | the inner loop parses the entries of a block |
| SstReader.FindBlock | libs/storage/sstreader.ts:156-170 | the binary-search loop equals the search function and stays within the index |
| SstReader.GetWithRev | libs/storage/sstreader.ts:248-358 | filter, search, checksum, inflation and scan together, error cases included |
| SstReader.Get | libs/storage/sstreader.ts:150-245 | the value of a key; a tombstone and an absent key both give null |
| SstReader.IterateRange | libs/storage/sstreader.ts:456-585 | the range scan, which takes the stored length as it is |
| SstReader.ScanRange | libs/storage/sstreader.ts:500-577 | the inner loop skips entries below the start and stops at the first one at or past the end |
| SstFormat.ParseEntryWritten | libs/storage/sstwriter.ts:101-112 | an entry is read back exactly, wherever it stands |
| SstFormat.ParseBlockWritten | libs/storage/sstwriter.ts:442-446 | a raw block is read back exactly |
| SstFormat.ReadBlockWritten | libs/storage/sstwriter.ts:447-488 | a stored block passes its checksum and is read back, compressed or not |
| SstFormat.ParseIndexWritten | libs/storage/sstwriter.ts:502-516 | the index is read back exactly |
| SstFormat.ParseFooterWritten | libs/storage/sstwriter.ts:573-583 | the footer is read back exactly and passes its checks |
| SstBloom.BloomNeverRejects | libs/storage/sstreader.ts:130-148 | the filter never rejects an added key, for any number of bits and probes |
| SstBloom.BuildBloom | libs/storage/sstwriter.ts:521-557 | the nested bit-setting loops compute the filter |
| SstBloom.AddProbes | libs/storage/sstwriter.ts:544-553 | the inner loop sets the bits of one key |
| SstBloom.AskBloom | libs/storage/sstreader.ts:130-148 | the probe loop answers the membership function, including its short cuts for odd filters |
| SstBloom.SetBitEffect | libs/storage/sstwriter.ts:547-552 | setting a bit sets that bit and leaves all others alone |
| SstBloom.ComputeFnv1a | libs/storage/helper.ts:78-85 | the hash loop with 32-bit wrap-around |
| SstWriter.FinishFlushed | libs/storage/sstwriter.ts:374-425 | the estimate bounds the length of the written file, and equals it without compression |
| SstWriter.EstimateMatches | libs/storage/sstwriter.ts:157-248 | with revision given and one-byte offset and time stamp, the after-add estimate is the real post-add estimate up to the difference in first-key length when a block is flushed |
| SstWriter.EstimateExactIff | libs/storage/sstwriter.ts:157-248 | it is exact if and only if no flush happens or both first keys are equally long |
| SstWriter.AddAllHolds | libs/storage/sstwriter.ts:94-130 | after any calls of add the blocks and the current block hold all entries in order |
| SstWriting.SSTWriter.constructor | libs/storage/sstwriter.ts:75-90 | a new writer is empty |
| SstWriting.SSTWriter.Add | libs/storage/sstwriter.ts:94-130 | add flushes on overflow, appends the encoded entry and adds exactly one entry to the contents |
| SstWriting.SSTWriter.FlushCurrentBlock | libs/storage/sstwriter.ts:133-150 | the current block becomes a block with its first key and length |
| SstWriting.SSTWriter.GetEstimatedSize | libs/storage/sstwriter.ts:374-425 | the loops compute the size function |
| SstWriting.SSTWriter.EstimateSizeAfterAdd | libs/storage/sstwriter.ts:157-248 | this estimator computes the projected size |
| SstWriting.SSTWriter.SimulatedSizeAfterAdd | libs/storage/sstwriter.ts:278-371 | this estimator computes the same projected size in every state |
| SstWriting.SSTWriter.Finish | libs/storage/sstwriter.ts:427-588 | finish flushes and writes the file image of all blocks, index, filter and footer |
| SstWriting.StoreAll | libs/storage/sstwriter.ts:441-488 | every block is stored raw or compressed by the rule |
| WalTiling.ScanAfterRun | libs/wal/wall.ts:757-950 | after any history of unbatched appends, rotations at the end offset and collections up to m, in any listing order: the end offset is the size of everything appended, and a scan from m yields exactly the records ending after m, in order and with contiguous true offsets |
| WalTiling.CollectionIsInvisible | libs/storage/engine.ts:1805-1836 | deleting every segment named at most m leaves the scan from any k of at least m unchanged |
| WalTiling.ScanIsTheLog | libs/wal/wall.ts:757-950 | in every reachable state a full scan is all uncollected records at their true offsets |
| WalTiling.RunKeepsInv | libs/wal/wall.ts:493-641 | every run keeps the tiling of the log by segments |
| WalTiling.RotateKeepsInv | libs/wal/wall.ts:567-641 | the end offset is the size of everything appended, and a rotation there keeps the tiling |
| WalTiling.RotateTilesIff | libs/wal/wall.ts:567-641 | for the offset that a flush took before its awaits, whatever it is: the rotation keeps the tiling if and only if it is still the end of the log |
| WalTiling.StaleRotationLosesIff | libs/storage/engine.ts:1805-1836 | after a rotation at a stale offset a collection up to m deletes a segment with a record behind m if and only if m lies between that offset and the true end |
| WalTiling.SortRestoresOrder | libs/wal/wall.ts:757-775 | whatever order the directory lists the segments in, sorting by time stamp restores the log order |
| WalTiling.LayoutIsContiguous | libs/wal/wall.ts:800-850 | each record starts where the one before it ended |
| WalSegments.Wal.Append | libs/wal/wall.ts:491-510 | an unbatched append writes one frame and advances the offsets |
| WalSegments.Wal.NoteAppend | libs/wal/wall_sched_helper.ts:75-86 | the metadata is written at every 64th append |
| WalSegments.Wal.CurrentEndOffset | libs/wal/wall.ts:567-569 | the global position behind the active file, as long as the counters agree with it |
| WalSegments.Wal.TruncateUpTo | libs/wal/wall.ts:572-641 | rotation loses no byte: rotated files and active file together hold what they held, in order |
| WalSegments.Wal.ScanWithOffsets | libs/wal/wall.ts:757-850 | the scan over all files yields the records of every file shifted by its base and filtered |
| WalSegments.Wal.ScanBuffered | libs/wal/wall.ts:856-950 | the buffered scan yields the payloads of the same records |
| WalSegments.Wal.CollectSegments | libs/storage/engine.ts:1820-1830 | segments whose named offset is at most minRef are removed |
| WalFrames.EncodeFrame | libs/wal/wall.ts:441-475 | an append writes header, payload and an equal trailer |
| WalFrames.ReadFrame | libs/wal/wall.ts:907-949 | one turn of the forward scan, with all its checks |
| WalFrames.ScanFile | libs/wal/wall.ts:895-949 | the scan loop of one file |
| WalFrames.ReadFrameBack | libs/wal/wall.ts:1039-1074 | one turn of the backward scan |
| WalFrames.ReverseScanFile | libs/wal/wall.ts:1039-1074 | the backward loop of one file |
| WalFrames.FrameParses | libs/wal/wall.ts:907-949 | a written frame is read back from either end, wherever it stands |
| WalFrames.CutYieldsWholeFrames | libs/wal/wall.ts:907-949 | frames cut at any byte scan to exactly the frames wholly before the cut |
| WalFrames.WholeBeforeIsMaximal | libs/wal/wall.ts:907-949 | these are all frames that end at or before the cut |
| WalFrames.DamageStopsScan | libs/wal/wall.ts:907-949 | one changed payload byte stops the scan right before that frame |
| WalFrames.ScanBackReverses | libs/wal/wall.ts:1039-1074 | on an uncut file the backward scan is the exact reversal |
| WalRecovery.RecoverTail | libs/wal/wall.ts:330-434 | both recovery loops compute the recovered length |
| WalRecovery.RecoveryCutsAtValidEnd | libs/wal/wall.ts:330-434 | whatever the file holds, it is left alone or cut at the end of a checksum-valid frame |
| WalRecovery.RecoveryIsExactIff | libs/wal/wall.ts:330-434 | if only true frame ends validate in the search window: a torn part after whole frames is cut off if and only if there is one frame at least and the part has at most 4096 bytes (or is empty); else all of it stays |
| WalRecovery.FirstAppendTorn | libs/wal/wall.ts:387-391 | a crash after the first byte of the first record: the byte stays, and the next record is never read again |
| WalRecovery.AppendAfterRecovery | libs/wal/wall.ts:330-434 | under that guard an append and a scan yield the old records plus the new one; otherwise the append goes behind the torn bytes |
| WalRecovery.IntactFileKeptIff | libs/wal/wall.ts:375-400 | an intact file is left alone if and only if nothing twelve bytes before its end looks like a frame end |
| WalRecovery.EmbeddedFrameIsLost | libs/wal/wall.ts:375-400 | a payload that ends with a frame makes recovery destroy an intact record |
| WalReopen.Open | libs/wal/wall.ts:167-315 | reopening recovers the tail and takes the offsets from the metadata |
| WalReopen.ReopenIsFaithful | libs/wal/wall.ts:167-315 | after a clean close every scan is as before; the end offset is right if and only if the metadata was fresh; the next append repairs it |
| WalReopen.RotationAfterReopenIff | libs/wal/wall.ts:572-641 | a rotation right after open keeps the tiling if and only if the metadata was fresh |
| WalReopen.CrashInsideAppendIff | libs/wal/wall.ts:330-434 | a crash inside an append reopens to exactly the state before it if and only if nothing was written, or the file had a record and at most 4096 bytes were written; provided only true frame ends validate |
| WalReopen.WalReverseScan | libs/wal/wall.ts:952-1016 | the reverse scan of Wal reads the active file last |
| WalReopen.HandoffReverseScan | libs/wal/handoff_wal.ts:621-684 | the reverse scan of HandoffWal reads the active file first |
| WalReopen.HandoffReverseIsExact | libs/wal/handoff_wal.ts:621-684 | HandoffWal: the exact reversal across all files |
| WalReopen.WalReverseIsExactIff | libs/wal/wall.ts:952-1016 | Wal: the reversal if and only if the active file or all segments are empty, for records that do not occur in both |
| WalReopen.HandoffScanWithOffsets | libs/wal/handoff_wal.ts:433-519 | offsets are counted from the first file that is still there |
| WalReopen.HandoffOffsetsIff | libs/wal/handoff_wal.ts:433-519 | they are the true offsets if and only if no record was collected |
| CrashReplay.ReplayOfWholeFile | libs/storage/engine.ts:1089-1230 | replaying a log file is replaying its records |
| CrashReplay.CrashReplaysWholeRecords | libs/storage/engine.ts:1089-1230 | however many bytes survive, the state is that of the wholly written records, and the rest would complete it |
| CrashReplay.DamageReplaysPrefix | libs/storage/engine.ts:1089-1230 | a damaged payload byte replays exactly the records before it |
| HandoffQueue.WrittenThenQueuedIsPushOrder | libs/wal/handoff_wal.ts:753-860 | without write errors, written, in flight and queued entries concatenate to push order; queueBytes is exact; errors only ever lose whole batches |
| HandoffQueue.ResolvedMeansDurableIff | libs/wal/handoff_wal.ts:900-918 | when flush or close resolves, everything pushed is on disk if and only if no write failed and nothing was queued behind an ended writer |
| HandoffQueue.NoLostWakeUp | libs/wal/handoff_wal.ts:763-780 | while anybody waits and the writer runs, the writer has a step to take |
| HandoffQueue.TakeMakesProgress | libs/wal/handoff_wal.ts:796-812 | a batch taken from a non-empty queue is not empty |
| HandoffQueue.WriterDrains | libs/wal/handoff_wal.ts:782-848 | the writer's own steps empty the queue and release all waiters |
| HandoffQueue.QueueStaysBounded | libs/wal/handoff_wal.ts:753-760 | with at most k concurrent appends the queue never exceeds the limit minus one plus k |
| HandoffQueue.BoundIsReached | libs/wal/handoff_wal.ts:753-772 | that bound is attained for every limit and every k, when the byte limit does not bite first |
| HandoffQueue.NothingIsWrittenAfterStop | libs/wal/handoff_wal.ts:865-905 | once the writer has ended, later appends are never written and a waiting flush never resolves |
| HandoffWal.HandoffWal.constructor | libs/wal/handoff_wal.ts:129-159 | a new queue is empty and its writer idle |
| HandoffWal.HandoffWal.BeginAppend | libs/wal/handoff_wal.ts:865-891 | append up to its wait for space |
| HandoffWal.HandoffWal.FinishAppend | libs/wal/handoff_wal.ts:891-898 | the entry goes behind all others; the byte count stays exact and file, batch and queue stay in push order |
| HandoffWal.HandoffWal.FillBatch | libs/wal/handoff_wal.ts:796-812 | a batch within both limits is taken from the front |
| HandoffWal.HandoffWal.CompleteWrite | libs/wal/handoff_wal.ts:814-828 | the batch is durable, and file, batch and queue together are unchanged |
| HandoffWal.HandoffWal.FailWrite | libs/wal/handoff_wal.ts:829-832 | exactly the batch is lost |
| HandoffWal.HandoffWal.NotifyEnqueue | libs/wal/handoff_wal.ts:763-772 | producers are woken in order while there is space; all of them, as none pushes meanwhile |
| HandoffWal.HandoffWal.NotifyDrainers | libs/wal/handoff_wal.ts:851-860 | flush callers are released when nothing is queued or in flight |
| HandoffWal.HandoffWal.AfterWrite | libs/wal/handoff_wal.ts:834-838 | both notifications after a write |
| HandoffWal.HandoffWal.Flush | libs/wal/handoff_wal.ts:900-905 | flush waits exactly if something is queued or in flight |
| HandoffWal.HandoffWal.Close | libs/wal/handoff_wal.ts:907-911 | close stops the writer and waits for it |
| HandoffWal.HandoffWal.EndWriter | libs/wal/handoff_wal.ts:840-847 | the writer ends with an empty queue |
| MemOrder.PutRefinesMap | libs/storage/memtable.ts:57-90 | put is map update and keeps strict key order |
| MemOrder.DeleteRefinesMap | libs/storage/memtable.ts:106-139 | one delete is right for every lookup: a present key is gone, an absent one gets a tombstone; strict order survives if and only if the node did not have two children |
| MemOrder.RemoveStrictIff | libs/storage/memtable.ts:117-130 | strict order and the size count survive a removal if and only if the node had at most one child |
| MemOrder.RemovePlace | libs/storage/memtable.ts:112-132 | the removal takes out the entry of the key, or with two children replaces it by its successor, which stays where it was |
| MemOrder.DeleteAfterRunIff | libs/storage/memtable.ts:106-139 | after any run of puts and deletes a deletion removes a present key if and only if it stands in the tree once; an absent one gets a tombstone |
| MemOrder.DeleteWorksIff | libs/storage/memtable.ts:106-139 | the same for any weakly ordered AVL tree |
| MemOrder.RemoveClearsIff | libs/storage/memtable.ts:112-132 | the removal leaves no entry of the key if and only if it stood in the tree once at most |
| MemOrder.DeletedKeySurvives | libs/storage/memtable.ts:125-128 | such a run: after a two-child deletion the greatest key stands twice, and its own deletion leaves it visible |
| MemOrder.IntendedPlace | libs/storage/memtable.ts:125-128 | with the successor's own key removed below, exactly the entry of the key disappears |
| MemOrder.IntendedKeepsStrict | libs/storage/memtable.ts:125-128 | that deletion keeps strict order |
| MemOrder.InsertKeepsOrder | libs/storage/memtable.ts:57-90 | put keeps weak order, and strict order where there is one |
| MemOrder.GetFinds | libs/storage/memtable.ts:92-104 | a lookup finds an entry of the key whenever there is one, in every reachable tree |
| MemOrder.EveryRunKeepsOrder | libs/storage/memtable.ts:57-139 | after any puts and deletes: an AVL tree, keys never descending, no lookup misses a key |
| MemTree.BalanceRestores | libs/storage/memtable.ts:41-55 | rebalancing restores the AVL invariant and bounds the height |
| MemTree.BalanceOrder | libs/storage/memtable.ts:41-55 | rebalancing keeps the in-order sequence |
| MemTree.HeightBound | libs/storage/memtable.ts:41-55 | an AVL tree of height h has at least Fib(h + 2) - 1 nodes |
| MemTree.Insert | libs/storage/memtable.ts:65-88 | insertion keeps the AVL invariant and raises the height by at most one |
| MemTree.Remove | libs/storage/memtable.ts:112-132 | literal deletion keeps the AVL invariant and lowers the height by at most one |
| MemNodes.Node.constructor | libs/storage/node.ts:9-12 | a new node is a leaf of height one |
| MemNodes.UpdateHeight | libs/storage/memtable.ts:14-16 | the stored height is one more than the higher child |
| MemNodes.RotateRight | libs/storage/memtable.ts:21-29 | rotating the links in place refines the tree rotation and keeps the same nodes |
| MemNodes.RotateLeft | libs/storage/memtable.ts:31-39 | the mirrored rotation |
| MemNodes.Balance | libs/storage/memtable.ts:41-55 | the four rebalancing cases in place refine the tree function |
| MemIterators.Iterate | libs/storage/memtable.ts:167-192 | the explicit-stack loop yields the in-order sequence |
| MemIterators.IterateRange | libs/storage/memtable.ts:194-241 | the pruned explicit-stack loop yields exactly the range filter of the in-order sequence, for weak order too |
| MemTable.MemTable.constructor | libs/storage/memtable.ts:6-9 | a new memtable is empty |
| MemTable.MemTable.InsertRec | libs/storage/memtable.ts:65-88 | recursive insertion in place refines the tree function and keeps size and bytes |
| MemTable.MemTable.MinNode | libs/storage/memtable.ts:108-111 | the leftmost node |
| MemTable.MemTable.DeleteRec | libs/storage/memtable.ts:112-132 | recursive deletion in place refines the literal tree function and counts what it found |
| MemTable.MemTable.DeleteFromRight | libs/storage/memtable.ts:125-128 | the two-child branch goes on with the outer key |
| MemTable.MemTable.Put | libs/storage/memtable.ts:57-90 | put refines insertion; size and bytes change exactly by what is new |
| MemTable.MemTable.Get | libs/storage/memtable.ts:92-104 | the descent loop is the tree lookup |
| MemTable.MemTable.Delete | libs/storage/memtable.ts:106-139 | delete refines the tree deletion with its tombstone fallback |
| MemTable.MemTable.Iterator | libs/storage/memtable.ts:167-192 | the whole table in order |
| MemTable.MemTable.IteratorRange | libs/storage/memtable.ts:194-241 | the range of the table |
| MemTable.MemTable.Snapshot | libs/storage/memtable.ts:145-158 | the tree is detached, and the memtable is empty |
| MemTable.MemTableSnapshot.Iterator | libs/storage/memtable_snapshot.ts:22-42 | the frozen tree in order |
| MemTable.MemTableSnapshot.IteratorRange | libs/storage/memtable_snapshot.ts:44-85 | the range of the frozen tree |
| MemTable.RunAfterSnapshot | libs/storage/memtable.ts:145-158 | whatever is put or deleted after the detachment, the snapshot keeps its tree and the memtable goes on from empty |
| ReadPath.GetReturnsLastPutIff | libs/storage/engine.ts:1446-1458 | for any history of puts, flushes that detach and publish in order, and restarts or crashes even in the middle of a flush: get returns the last value put if and only if the key is not only in the memtable of a flush in progress, or the files have the same value |
| ReadPath.GetReturnsLastPut | libs/storage/engine.ts:1446-1458 | so get returns the last value put whenever no flush is in progress |
| ReadPath.GetIsLastPut | libs/storage/engine.ts:1446-1458 | exactly what a read returns: the last put, or for a hidden key the last put before the first of the flushes in progress began |
| ReadPath.FlushIsInvisible | libs/storage/engine.ts:1715-1760 | a flush that nothing interrupts, its two steps one after the other, changes no read |
| ReadPath.DetachIsInvisibleIff | libs/storage/engine.ts:1715-1721 | the start of a flush is visible to a read unless the files already have the value |
| ReadPath.EndOrderIsInvisibleIff | libs/storage/engine.ts:1748-1760 | two overlapping flushes that end in the wrong order are visible to a read if and only if both files have different values for the key and the memtable has none |
| ReadPath.OvertakenFlushSurvivesIff | libs/storage/engine.ts:1003-1118 | a flush ends before an earlier one, then a crash: the last put of a key survives if and only if an older file keeps the start of replay before it, or the new file has the key, or a record of it is replayed, or it was never put |
| ReadPath.SstsKnow | libs/storage/engine.ts:1003-1018 | the files alone know the last put of the records they cover |
| ReadPath.ReplayGives | libs/storage/engine.ts:1089-1118 | replay from the smallest recorded offset rebuilds the last put of everything after it |
| ReadPath.DeleteHidesIff | libs/storage/engine.ts:1446-1458 | a deletion hides a key from get if and only if no file holds a value for it |
| ReadPath.DeletedComesBack | libs/storage/engine.ts:1446-1458 | a flushed value comes back after its deletion |
| ReadPath.RestartKeepsCounterIff | libs/storage/engine.ts:1119-1121 | a restart keeps the counter at or above all logged revisions if and only if the log is empty or goes on past the smallest file offset |
| ReadPath.RevisionsStartAgain | libs/storage/engine.ts:1119-1121 | put, put, flush, restart, put: the new version has a lower revision than the stored one |
| ReadPath.InFlightWriteSurvivesIff | libs/storage/engine.ts:1715-1790 | with a flush between append and memtable update, the write survives a crash if and only if an older file keeps the replay start before it, or the key had that value already |
| ReadPath.PartialCompactionKeepsGetIff | libs/storage/engine.ts:1005-1009 | for any group of files and any outputs that give what the group gave: the outputs take over the newest offset and stand last, and get of a key is unchanged if and only if they have no value for it, or the newest file with one was in the group, or the files outside have the same value |
| ReadPath.MergeGivesGroupValueIff | libs/storage/compactor.ts:409-498 | a merge chooses the newest cell; it gives what a read of the group gave if and only if that is not a tombstone above a value |
| ReadPath.OneFileCompactionKeepsGetIff | libs/storage/engine.ts:1005-1009 | the instance of one file: a read is unchanged if and only if no newer file has another value |
| ReadPath.OldValueComesBack | libs/storage/engine.ts:1005-1009 | two files compacted and a newer one left out: the old value is read again |
| ReadPath.Engine.Write | libs/storage/engine.ts:312-505 | a value put is what the next read of its key returns; no other key is affected |
| ReadPath.Engine.Read | libs/storage/engine.ts:1446-1458 | the loop over the readers from the newest is the lookup function |
| ReadPath.Engine.LatestRevision | libs/storage/engine.ts:1404-1424 | the revision lookup of cas: memtable, then the readers from the newest, tombstones included |
| ReadPath.Engine.BeginFlush | libs/storage/engine.ts:1715-1748 | up to the first await the memtable is detached; a read of a key is unchanged if and only if the memtable had no value of it or the files have the same |
| ReadPath.Engine.EndFlush | libs/storage/engine.ts:1748-1760 | the file becomes the newest reader: its values are read from then on, behind those of the memtable |
| ReadPath.Engine.Open | libs/storage/engine.ts:1003-1121 | sorting, smallest offset and replay are the restart step |
| Mvcc.ReadsAgreeIffAtMostFour | libs/storage/engine.ts:1464-1622 | getAtRevision and snapshotAtRevision agree on all sorted sources that name one version a revision if and only if there are at most four sources, the memtable and three files |
| Mvcc.SnapshotAgreesWithGet | libs/storage/engine.ts:1582-1622 | memtable and at most three files: a row for a key exactly if getAtRevision finds a version, with the same value, in key order |
| Mvcc.VersionAtShows | libs/storage/engine.ts:1464-1507 | getAtRevision settles on the highest version at most the revision, over memtable and all files |
| Mvcc.GetAtRevision | libs/storage/engine.ts:1464-1507 | the scans of memtable and files compute that version |
| Mvcc.SnapshotAtRevision | libs/storage/engine.ts:1582-1622 | the loop over the merge computes the rows |
| Mvcc.VisibleOf | libs/storage/engine.ts:1593-1614 | the best visible candidate, or the item itself |
| Varint.VarintEncode | libs/storage/helper.ts:27-36 | the loop computes the unsigned LEB128 encoding |
| Varint.VarintDecode | libs/storage/helper.ts:44-56 | the loop computes the decoding, including that of a truncated number |
| Varint.VarintLen | libs/storage/helper.ts:63-71 | the length of the encoding |
| Varint.DecodeEncoded | libs/storage/helper.ts:27-56 | decoding what was encoded gives the number and its length, whatever follows |
| Varint.EncodePrefixFree | libs/storage/helper.ts:27-36 | no encoding is a prefix of another one |
| Varint.EncodeLengthMonotone | libs/storage/helper.ts:63-71 | the length grows with the number and is one exactly below 128 |
| Bytes.ReadU32Written | libs/storage/helper.ts:6-10 | a written 32-bit integer is read back |
| Bytes.ReadU64Written | libs/storage/helper.ts:16-20 | a written 64-bit integer is read back |
| Bytes.LessTransitive | libs/storage/helper.ts:93-95 | bytewise comparison is transitive |
| Bytes.LessConnected | libs/storage/helper.ts:93-95 | two byte strings are equal or ordered |
| Checksum.ComputeAdler32 | libs/utils/checksum.ts:47-60 | the loop with early reduction computes Adler-32 (section 8.2 of RFC 1950) |
| Checksum.AdlerDetectsByteChange | libs/utils/checksum.ts:47-60 | replacing any one byte changes the checksum |
| Indexing.PrefixEndExclusive | libs/utils/indexing.ts:25-36 | the loop computes the bound function |
| Indexing.ScanCoversPrefix | libs/utils/indexing.ts:19-36 | no key with the prefix is missed |
| Indexing.PrefixScanExactIff | libs/utils/indexing.ts:19-36 | the scan is exactly the prefix if and only if the last byte is below 0xff or all bytes are 0xff |
| Indexing.PrefixScanOvershoots | libs/utils/indexing.ts:25-36 | a concrete key outside the prefix that is scanned |
| Semaphore.RunKeepsInv | libs/locks/semaphore.ts:36-191 | any run of acquires, releasers and cancels conserves value plus outstanding weights, never overdraws, keeps the queue ordered and leaves no head that fits |
| Semaphore.MutualExclusion | libs/locks/semaphore.ts:36-191 | with initial value one at most one request is out |
| Semaphore.GrantsAreFirstComeFirst | libs/locks/semaphore.ts:36-191 | equals are granted in the order of their calls, over the whole run |
| Semaphore.InsertPosition | libs/locks/helper.ts:9-12 | a request is placed behind the last one of at least its priority and in front of all lower ones |
| Semaphore.FindIndexFromEnd | libs/locks/helper.ts:20-30 | the last index whose priority is at least the given one, or -1 |
| Semaphore.InsertSorted | libs/locks/helper.ts:9-12 | splicing computes the insertion function |
| Semaphore.Semaphore.constructor | libs/locks/semaphore.ts:25-28 | a new semaphore is free and its queue empty |
| Semaphore.Semaphore.Acquire | libs/locks/semaphore.ts:36-59 | rejected for non-positive weight, granted at once only in front of the queue, queued otherwise |
| Semaphore.Semaphore.DispatchItem | libs/locks/semaphore.ts:170-175 | a grant conserves free value plus weights on loan |
| Semaphore.Semaphore.DispatchQueue | libs/locks/semaphore.ts:157-164 | heads are granted while they fit |
| Semaphore.Semaphore.Release | libs/locks/semaphore.ts:138-144 | the weight is returned and the queue served; non-positive weights throw |
| Semaphore.Semaphore.CallReleaser | libs/locks/semaphore.ts:182-191 | the first call releases the weight of its ticket, every later one does nothing |
| Semaphore.Semaphore.Cancel | libs/locks/semaphore.ts:149-152 | every waiting request is rejected and the queue emptied |

## Left out

- File system calls, fsync, rename, retries, permissions and process sentinels: files are byte strings, the manifest is a list.
- MessagePack, JSON, UTF-8 decoding of keys, zlib and snappy: parameters, as inverse pairs where a round trip needs it. The reader inflates every flagged block.
- Clocks, timers and random names: increasing counters. Segment time stamps are taken as distinct.
- Leases, watch backends, `Engine.scan`, `range`, marker collection, SST rebuild of corrupt files, CLI, HTTP and metrics.
- SST versions 1 and 2, adaptive Bloom sizing, adaptive compression sampling, `deltaSizeForEntry`.
- The persistence of rotated segment names: the log model keeps its index in memory. In `WriteModel` a `cas` sees the memtable alone; the lookup in the files is in `ReadPath.Engine.LatestRevision` and `WriteFlush`.
- Rotation of the writer's descriptor in `HandoffWal`, and the write-time batching of `Wal` (its `flushBatch` does not update `globalNext`).
- `waitForUnlock` and `setValue` of the semaphore; the mutex built on it.
- WalTiling.ScanAfterRun: batching is off, time stamps are distinct and rotations come at the end offset (RotateTilesIff); the first two are needed, as the code keeps no offsets for batches and sorts by time stamp only.
- WalReopen.WalReverseIsExactIff: stated for logs in which no record of the active file also occurs in a rotated one; with equal records the two orders can coincide by accident.
- WalReopen.ReopenIsFaithful: the persisted index of segments is taken to be complete; rebuilding it from file names is not part of this model.
- WalReopen.Open: neither the index rebuild nor a missing metadata file, where the source starts from the segment names.
- WalRecovery.RecoveryIsExactIff: under the hypothesis that only true frame ends validate; IntactFileKeptIff and EmbeddedFrameIsLost say what happens without it.
- WriteReplay.ReplayRebuildsMemtable: the memtable is a map and no flush is among the steps. What two-child deletion adds is in MemOrder and TreeReplay; WriteFlush.ReplayWithFlushes has the flushes.
- WriteCas.CasHasOneWinner: runs of calls without a flush; so are those of WriteLinear. WriteFlush has the exact condition of every compare when flushes detach and publish memtables in between; files are taken to stay as published, without compaction.
- TreeReplay.ReplayedTreeAnswersLikeLive: unsafe orders whose lookups happen to coincide are not characterised; SafeRunIff says exactly when a run is safe.
- Tombstones.StaysDeletedIffOfFour: more than four files can yield a key more than once, and then what the group itself writes for the key counts too; StaysDeletedIff has that case.
- ReadPath.GetReturnsLastPutIff: put-only, no compaction, and overlapping flushes end in the order in which they began; EndOrderIsInvisibleIff and OvertakenFlushSurvivesIff say what another order does. Memtable and files are maps. The ends of the log records are taken as strictly increasing, which a rotation on stale metadata can break (WalReopen.RotationAfterReopenIff). The other theorems of that module say what happens outside.
- SstBloom.BuildBloom: the numbers of bits per entry and of probes are integer parameters; the source computes them in floating point. The guarantee holds for any numbers.
- SstRoundTrip.WrittenFileReadsBack: lengths, offsets and counts fit their 32-bit and 64-bit fields, and with the filter on its bit count fits 32 bits.
- SstReader.OpenFile: version 3 only. Files of version 1 or 2 are rejected here, and so are sizes from 24 to 27 bytes, where the source asks for its footer at a negative position.
- SstWriting.StoreAll: without adaptive sampling, which only decides whether a block is tried at all.
- SstReader.IterateRange: as in the source the compression flag is not masked, so the exact statement is for files without compressed blocks.
- SstWriter.EstimateMatches: for a given revision and one-byte offset and time stamp, which is what the source assumes in its arithmetic.
- Compactor.Compactor.MergeGroup: file sizes are the writer's estimates, exact without compression; that an output stays below the size limit is not claimed, as the estimator assumes one-byte fields.
- Compactor.Compactor.Compact: throttling, yielding and statistics are left out; the time of a run is one number.
- Selection.OverlapStagePrefersScore: scores are compared as exact fractions, without floating-point rounding.
- Mvcc.SnapshotAtRevision: without a prefix, so no file is skipped by its key range; files without compressed blocks, whose range scan does not throw.
- HandoffQueue.WrittenThenQueuedIsPushOrder: the order in which woken producers push is any order; the source leaves it to the scheduler.
- HandoffWal.HandoffWal.FailWrite: a failed write is taken to leave nothing in the file. A failed fdatasync can leave the whole batch there, and a writev that stops half-way leaves a torn record that hides every later batch from the scan.
- HandoffQueue.QueueStaysBounded: concurrency is counted as producers waiting for space or woken and not yet pushed.
- Semaphore.Semaphore.DispatchQueue: without the waiters of `waitForUnlock`, which are served beside the queue and take nothing from it.
- Semaphore.RunKeepsInv: runs of acquire, releasers and cancel; a bare `release` adds to the value by design.
