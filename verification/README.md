# Verified models of an Ethereum execution node

This project models the hardest stateful parts of a Rust execution node (a reth fork) in Dafny and
proves what they are for. Each module stands for one component. Code that updates fields, maps or
queues step by step is a class or a loop with a specification; code that only computes is a function;
concurrent code is a step system whose every interleaving is considered.

`dafny verify dfyconfig.toml` takes all modules together.

## What is modelled

**Canonical in-memory chain and state overlay** (`Blocks`, `CanonicalState`, `StateOverlay`,
`ChainRuns`, `HashRange`, `HashedOverlay`). Blocks above the database live in two maps, by hash and by
number, with states linked to their parents. Updates remove a reorged tip and append a new segment;
persisted blocks are trimmed and the survivors relinked. Readers search the in-memory blocks of their
block newest first and fall back to a historical provider. The main result joins both: after any
sequence of updates, reorgs, flushes, trims and clears, every reader of every in-memory block sees exactly the
state of all blocks replayed in order, so trimming is invisible. A block hash is an injective identity
that commits to the block's number. The database side of persisting is the write of a block's bundle:
wipes first, zero slots deleted. A reader's history may have absorbed any part of the chain between
its in-memory suffix and its block, so overlap between memory and disk is covered. `HashRange` covers
the seam in ranges of block hashes, `HashedOverlay` the second, hashed view of the same state, with the
explicit zeroing of destroyed accounts.

**Ordered parallel delivery** (`OrderedDelivery`). Producers fill one slot each, a consumer takes the
slots in order, and a panic wakes it through a flag and a loop over all slots. Mutexes, condition
variables and spurious wake-ups are explicit steps.

**External merge sort** (`EtlRecords`, `EtlMerge`, `Etl`). A collector spills sorted runs to
length-prefixed files and merges them with a heap.

**Big blocks** (`BigBlockPlan`, `BigBlock`). Several blocks are executed as one: segments, boundaries,
gas offsets, seeded block hashes and a renumbered access index. The single-block executor is taken by
its contract: a commit appends a receipt with the running gas of its block, finishing returns the
block's totals. The driver bumps the access index after pre-execution and after each commit
(crates/engine/tree/src/tree/payload_validator.rs:1225-1284 and
crates/engine/tree/src/tree/payload_processor/bal/execute.rs:144-168).

**ERA import** (`EraWrites`, `EraOutcomes`, `EraImport`). Files of blocks, overlapping or repeated, extend
header, body and receipt segments up to a target, or repair missing receipts of an executed range. Where
the files lead is a function of the store and the files; the import is proved to compute it, and the
function to be resumable.

**Fork identifiers** (`ForkId`, `HardforkIds`). The checksum is represented by what it is folded from.

**Read cache, slot claiming and download stream** (`CachedReads`, `Broadcast`, `EraStream`).

## Where a promise holds only under a condition

Each of these has a concrete counterexample or a two-way condition over all inputs.

- A trim keeps every value read, but a slot explicitly set to zero reads as present in memory and as
  absent on disk: `StateOverlay.SlotPresenceAfterTrim`, `StateOverlay.TrimmedZeroReadsAbsent`.
- Hash ranges are canonical exactly while history has not advanced past the block being read:
  `HashRange.RangesCanonicalIff`.
- The collector returns what was inserted exactly when the pairs still in memory are not all empty,
  because `iter` flushes on a positive byte count: `Etl.CollectAndRead`, `Etl.EmptyRecordIsLost`.
- A big block equals its blocks executed separately exactly when it is a single block or its first block
  has a transaction, because boundaries are looked for only after a commit: `BigBlock.RunBigBlock`,
  `BigBlock.EmptyFirstBlockIsNeverLeft`.
- `fork_id` skips a time equal to the last activation block, as both loops share one "last applied"
  value: `ForkId.ForkIdIsCanonicalIff`, `ForkId.RepeatedValueIsSwallowed`.
- The identifier of a timestamp fork is the canonical one for its time exactly when the list does not
  start with a merge at a positive block, which the look-ahead never sees, and the first time is not the
  value of the last block, which `fork_id` skips: `HardforkIds.TimestampForkIdIsCanonicalIff`,
  `HardforkIds.LeadingMergeIsNotCleared`. The comment on the look-ahead speaks of a merge in any place.
- The read cache is faithful exactly when absent accounts have no storage:
  `CachedReads.Run`, `CachedReads.AbsentStorageChanges`.
- The download stream ends with everything yielded exactly when at least one download is allowed or
  nothing was handed over: `EraStream.EraStream.PollNext`, `EraStream.NoDownloadsAllowed`.

## Model

| member | source | states |
|---|---|---|
| `Blocks.ChainOfTipState` | crates/chain-state/src/in_memory.rs:690-711 | walking the parent links of a stored state visits exactly the blocks below it, newest first |
| `Blocks.Anchor` | crates/chain-state/src/in_memory.rs:627-633 | the anchor is the number and hash just below the oldest block reached through parent links |
| `Blocks.BlockOnChainFindsHeight` | crates/chain-state/src/in_memory.rs:729-734 | on a linked chain a lookup by number or by hash from block i finds precisely the matching block at or below i, linked to its own ancestors, and nothing above i |
| `Blocks.BlockOnChainFindsNothing` | crates/chain-state/src/in_memory.rs:729-734 | a hash or number that no block at or below the start has is not found |
| `CanonicalState.MapsMirrorEachOther` | crates/chain-state/src/in_memory.rs:267-303 | `blocks` and `numbers` are in bijection; a stored state's parent link is the stored state of its parent hash, or absent when that parent is not in memory |
| `CanonicalState.NumberMapAt` | crates/chain-state/src/in_memory.rs:113-121 | the numbers held are exactly the contiguous heights of the chain, each mapped to the hash at that height |
| `CanonicalState.BlockMapAt` | crates/chain-state/src/in_memory.rs:108-110 | the hashes held are exactly those of the chain, each mapped to its block linked to all blocks below it |
| `CanonicalState.AboveIsSuffix` | crates/chain-state/src/in_memory.rs:354-359 | the blocks that survive a trim are a linked suffix of the chain: those numbered above the limit and no others |
| `CanonicalState.SortedSurvivors` | crates/chain-state/src/in_memory.rs:354-374 | sorting the drained survivors by number restores the surviving chain, in whatever order the hash map yields them |
| `CanonicalState.RemoveRepresents` | crates/chain-state/src/in_memory.rs:276-283 | removing a tip-aligned reorged segment from both maps leaves the maps of the chain without it |
| `CanonicalState.AppendRepresents` | crates/chain-state/src/in_memory.rs:285-295 | inserting a block that extends the chain, linked to the stored state of its parent hash, gives the maps of the longer chain |
| `CanonicalState.TrimKeeps` | crates/chain-state/src/in_memory.rs:349-359 | a trim keeps a block, and a height, exactly when it lies above one of the two limits, or always when the persisted block is not in memory |
| `CanonicalState.UpdateKeeps` | crates/chain-state/src/in_memory.rs:276-295 | an update leaves exactly the new blocks and the old ones that were not reorged |
| `CanonicalState.InMemoryState.constructor` | crates/chain-state/src/in_memory.rs:69-88 | a new state is empty and valid |
| `CanonicalState.InMemoryState.StateByHash` | crates/chain-state/src/in_memory.rs:108-110 | finds a state exactly for the hashes on the chain, linked down to the oldest block |
| `CanonicalState.InMemoryState.StateByNumber` | crates/chain-state/src/in_memory.rs:113-116 | finds a state exactly for the heights on the chain |
| `CanonicalState.InMemoryState.HeadState` | crates/chain-state/src/in_memory.rs:124-127 | the state at the greatest number is the tip, with the whole chain behind it |
| `CanonicalState.InMemoryState.CanonicalChain` | crates/chain-state/src/in_memory.rs:568-570 | all in-memory blocks, newest first |
| `CanonicalState.InMemoryState.InMemoryBlocksFor` | crates/chain-state/src/in_memory.rs:550-562 | the overlay of a block is given that block and everything in memory below it, newest first; none for an unknown hash |
| `CanonicalState.InMemoryState.Clear` | crates/chain-state/src/in_memory.rs:156-168 | empties both maps and the pending block, keeping validity |
| `CanonicalState.InMemoryState.SetPendingBlock` | crates/chain-state/src/in_memory.rs:253-261 | the pending state is linked to the stored state of its parent; the chain is untouched |
| `CanonicalState.InMemoryState.UpdateBlocks` | crates/chain-state/src/in_memory.rs:267-303 | for a tip-aligned reorg and a connecting new segment, the chain holds exactly the new blocks and the old ones not reorged, kept ones first; both maps follow, and pending is cleared |
| `CanonicalState.InMemoryState.RemovePersistedBlocksUntil` | crates/chain-state/src/in_memory.rs:327-384 | when the persisted block is in memory, exactly the blocks numbered above `removeUntil` or above the persisted block stay, each still answered at its number; otherwise maps, chain and pending stay as they were; survivors and the pending block are relinked |
| `StateOverlay.OverlayIsReplay` | crates/chain-state/src/memory_overlay.rs:114-124 | account, code and storage reads through any in-memory suffix over a history that has absorbed any part between the suffix start and the tip equal the state of all blocks replayed in order; what each block contributes is stated by the next eight rows |
| `StateOverlay.CodeOfNewestBlock` | crates/chain-state/src/memory_overlay.rs:253-263 | a code read, in memory and in the replayed state, is the contract entry of the newest block that has one |
| `StateOverlay.CodeOfHistory` | crates/chain-state/src/memory_overlay.rs:253-263 | with no such block it is what history holds |
| `StateOverlay.AccountOfNewestBlock` | crates/chain-state/src/memory_overlay.rs:114-124 | an account read, in memory and in the replayed state, is as the newest block that mentions the account left it, also when deleted |
| `StateOverlay.AccountOfHistory` | crates/chain-state/src/memory_overlay.rs:114-124 | with no such block it is what history holds |
| `StateOverlay.SlotOfNewestBlock` | crates/chain-state/src/memory_overlay.rs:237-251 | a slot read is the value written by the newest block that writes it or knows all of its account's storage, zero if that block does not write it |
| `StateOverlay.SlotOfHistory` | crates/chain-state/src/memory_overlay.rs:237-251 | with no such block it is what history holds |
| `StateOverlay.DiskSlotOfNewestBlock` | crates/storage/provider/src/providers/database/provider.rs:2748-2810 | a slot on disk is what the newest block that writes it or destroys its account wrote, absent if that is zero or nothing |
| `StateOverlay.DiskSlotOfHistory` | crates/storage/provider/src/providers/database/provider.rs:2748-2810 | with no such block the slot on disk is as it was |
| `StateOverlay.OverlaySlot` | crates/chain-state/src/memory_overlay.rs:237-251 | a slot read newest-first, with a known-empty storage answering zero, has the replayed value |
| `StateOverlay.LastWriter` | crates/chain-state/src/memory_overlay.rs:114-124 | a first-match search from the newest block gives the last write, or the historical value, whatever the overlap with history |
| `StateOverlay.SuffixesAgree` | crates/chain-state/src/memory_overlay.rs:237-263 | two readers of one block agree wherever their suffixes begin and however far their histories have advanced |
| `StateOverlay.PersistSlotValue` | crates/storage/provider/src/providers/database/provider.rs:2748-2810 | writing a block's storage changes, wipes first and zeros as deletions, leaves each slot with the block's value or its former one |
| `StateOverlay.SlotPresenceAfterTrim` | crates/chain-state/src/memory_overlay.rs:237-251 | a trim keeps the `Option` shape of a slot read if and only if it was not an explicit zero, or a surviving block still records the slot |
| `StateOverlay.TrimmedZeroReadsAbsent` | crates/chain-state/src/memory_overlay.rs:237-251 | a concrete slot set to zero that reads as present in memory and as absent once its block is on disk |
| `ChainRuns.RunKeepsInv` | crates/chain-state/src/in_memory.rs:267-384 | every sequence of updates, reorgs (also of blocks already on disk), flushes, trims and clears keeps the chain linked and the database equal to the replay of the canonical blocks on it |
| `ChainRuns.UpdateOnChains` | crates/chain-state/src/in_memory.rs:267-303 | an update replaces the reorged end of the canonical chain by the new blocks; the disk keeps exactly what is still canonical |
| `ChainRuns.TrimOnChains` | crates/chain-state/src/in_memory.rs:327-384 | a trim changes neither the canonical chain nor the disk and leaves in memory exactly the blocks above one of its limits |
| `ChainRuns.ClearOnChains` | crates/chain-state/src/in_memory.rs:156-168 | a clear leaves exactly the blocks on disk, and nothing in memory |
| `ChainRuns.ReorgedTrimIsIgnored` | crates/chain-state/src/in_memory.rs:333-342 | a trim asked for after its block was reorged away drops nothing |
| `ChainRuns.EveryRunReadsCanonicalState` | crates/chain-state/src/memory_overlay.rs:114-124 | after any such sequence every in-memory block's overlay reads the canonical state at that block |
| `ChainRuns.TipReadsThroughDisk` | crates/chain-state/src/memory_overlay.rs:237-263 | after any such sequence the tip's overlay over the live database reads the whole canonical state |
| `ChainRuns.TrimIsInvisible` | crates/chain-state/src/in_memory.rs:327-384 | a trim changes no account, code or slot value read through the overlay of a surviving block when its history moves from the old anchor to the new one |
| `HashRange.CanonicalHashesRange` | crates/chain-state/src/memory_overlay.rs:84-111 | the loop over newest-first blocks followed by the historical query is the overlay range |
| `HashRange.RangeIsCanonicalSlice` | crates/chain-state/src/memory_overlay.rs:84-111 | the answer is the ascending canonical hashes of all known blocks in the range, with no gap or duplicate at the seam |
| `HashRange.RangesCanonicalIff` | crates/chain-state/src/memory_overlay.rs:84-111 | all ranges are answered canonically if and only if history stops at or before the block being read |
| `HashRange.BlockHashIsCanonical` | crates/chain-state/src/memory_overlay.rs:74-82 | a lookup of one number gives the canonical hash at that height, from memory or from history |
| `HashedOverlay.ExtendLookup` | crates/trie/common/src/hashed_state.rs:303-328 | extending a hashed state is right-biased, key by key, for accounts and slots |
| `HashedOverlay.MergedReadsNewest` | crates/chain-state/src/memory_overlay.rs:52-63 | aggregating oldest to newest answers like a search from newest to oldest |
| `HashedOverlay.TrieInput` | crates/chain-state/src/memory_overlay.rs:52-63 | the reverse loop builds that aggregate |
| `HashedOverlay.MergedHashedStorage` | crates/chain-state/src/memory_overlay.rs:65-70 | the caller's slots win over the in-memory ones |
| `HashedOverlay.HashedPostStateOf` | crates/chain-state/src/memory_overlay.rs:213-235 | in any iteration order, the explicit zeroing yields a zero for exactly the stale parent slots of destroyed accounts |
| `HashedOverlay.HashedBlockValue` | crates/trie/trie/src/hashed_cursor/mod.rs:86-112 | explicit zeroing means a wipe: own value, zero if destroyed, or the former value |
| `HashedOverlay.HashedViewIsPlainView` | crates/chain-state/src/memory_overlay.rs:52-70 | every slot and account read through the aggregated hashed overlay is the plainly replayed one |
| `OrderedDelivery.StepKeepsInv` | crates/tasks/src/for_each_ordered.rs:81-150 | every action of producers, root job and consumer keeps the protocol invariant |
| `OrderedDelivery.NoLostWakeup` | crates/tasks/src/for_each_ordered.rs:81-101 | a consumer asleep with no notification on its way has an empty slot, and either no panic is flagged or its slot is still to be locked and notified; it is never asleep once the root job has returned |
| `OrderedDelivery.NoDeadlock` | crates/tasks/src/for_each_ordered.rs:108-150 | in every reachable state that is not final some non-spurious step is possible |
| `OrderedDelivery.RunsAreFinite` | crates/tasks/src/for_each_ordered.rs:81-150 | the number of real steps is bounded linearly in the items and the spurious wake-ups |
| `OrderedDelivery.DeliversInOrder` | crates/tasks/src/for_each_ordered.rs:144-149 | at every moment the callback has seen a prefix of the items, in order, each once |
| `OrderedDelivery.OutcomeIsLongestProducedPrefix` | crates/tasks/src/for_each_ordered.rs:89-101 | at the end it has seen exactly the longest produced prefix, whatever the interleaving; all items when nothing panicked |
| `EtlRecords.SameRecordsIsPermutation` | crates/etl/src/lib.rs:133-143 | equal occurrence counts are equality as multisets, both ways |
| `EtlRecords.BytesRoundTrip` | crates/etl/src/lib.rs:242-270 | big-endian lengths decode to what was encoded |
| `EtlRecords.LeadingByteCountsMost` | crates/etl/src/lib.rs:242-270 | the leading byte of a length is its most significant one |
| `EtlRecords.LexByFirstDifference` | crates/etl/src/lib.rs:135 | keys are ordered by the first byte that differs, a prefix first |
| `EtlMerge.IndexOfTop` | crates/etl/src/lib.rs:203-206 | the heap pops the smallest key, among equal keys the smallest value, and among equal pairs the one from the latest file |
| `EtlMerge.PopTakes` | crates/etl/src/lib.rs:203-216 | popping a head and reading on in its file keeps one head per unexhausted run, hands out that record and nothing else, and leaves no smaller key behind |
| `EtlMerge.AllHanded` | crates/etl/src/lib.rs:203-216 | an empty heap means every run has been handed out completely |
| `Etl.EtlFile.constructor` | crates/etl/src/lib.rs:230-252 | the bytes written are the length-prefixed encoding of the records in order |
| `Etl.EtlFile.ReadNext` | crates/etl/src/lib.rs:257-279 | a read gives the first record not yet read, then nothing; a short file is an error |
| `Etl.RoundTrip` | crates/etl/src/lib.rs:230-279 | reading a file to its end gives back the records it was made from, then nothing, with all bytes consumed |
| `Etl.FillHeap` | crates/etl/src/lib.rs:158-166 | the heap starts with the head of every non-empty run |
| `Etl.EtlIter.Next` | crates/etl/src/lib.rs:203-216 | hands out one smallest record and keeps the merge invariant; nothing exactly when the heap is empty |
| `Etl.Drain` | crates/etl/src/lib.rs:203-216 | reading the iterator to its end gives every record of the runs, in key order |
| `Etl.SortBuffer` | crates/etl/src/lib.rs:135 | any sort by key: sorted, same records, no promise among equal keys |
| `Etl.BytesOfIsFileSize` | crates/etl/src/lib.rs:103-114 | the bytes counted for a buffer are the size of its run file less two lengths for each record |
| `Etl.Collector.constructor` | crates/etl/src/lib.rs:70-80 | a new collector holds nothing |
| `Etl.Collector.Clear` | crates/etl/src/lib.rs:93-100 | forgets every record |
| `Etl.Collector.Flush` | crates/etl/src/lib.rs:133-143 | the buffer becomes one more sorted run and nothing is lost |
| `Etl.Collector.Insert` | crates/etl/src/lib.rs:103-114 | adds one record; the byte counter is the buffer's and at most the capacity afterwards; the length counts all records |
| `Etl.Collector.Iter` | crates/etl/src/lib.rs:153-167 | the iterator holds every run; a buffer counted as zero bytes is left behind |
| `Etl.CollectAndRead` | crates/etl/src/lib.rs:103-167 | for any inserts and any capacity the keys come back in order, and the pairs come back as the same multiset if and only if the pairs left in memory are none or not all empty |
| `Etl.NonEmptyKeysAreKept` | crates/etl/src/lib.rs:153-157 | with non-empty keys nothing is ever lost |
| `Etl.EmptyRecordIsLost` | crates/etl/src/lib.rs:153-157 | one pair with empty key and value stays in the buffer at any capacity |
| `BigBlockPlan.SegmentsFor` | bin/reth-bb/src/evm_config.rs:273-286 | the running count starts each segment where the preceding transactions end |
| `BigBlockPlan.SegmentContainsTx` | bin/reth-bb/src/evm.rs:79-81 | the segment index of a transaction is the block that contains it, runs of empty blocks notwithstanding |
| `BigBlockPlan.SeedsFor` | bin/reth-bb/src/evm_config.rs:288-292 | the seed list ascends in block number and holds exactly boundary and prior hashes |
| `BigBlockPlan.SeedIsParentOrPrior` | bin/reth-bb/src/evm.rs:54-63 | the seeds of a payload are exactly the prior ones and, for each block but the first, its parent hash under the number below its own |
| `BigBlockPlan.HashesForBlock` | bin/reth-bb/src/evm.rs:69-76 | the seeds given to a block are exactly those of the 256 numbers below it |
| `BigBlockPlan.SeedsCoverEarlierBlocks` | bin/reth-bb/src/evm.rs:54-76 | in consecutively numbered blocks the parent hash of each block up to the current one, within 256, is given to it under the number below |
| `BigBlock.Executor.ApplySegmentBoundary` | bin/reth-bb/src/evm.rs:288-386 | finishes the current segment and opens the next: two index bumps, offsets and requests carried over, next environment and seeds installed |
| `BigBlock.Executor.CommitTransaction` | bin/reth-bb/src/evm.rs:428-450 | commits one transaction with its receipt corrected by the offset, then crosses every boundary right behind it, empty segments included |
| `BigBlock.Executor.Finish` | bin/reth-bb/src/evm.rs:452-500 | finishes the last segment and adds the collected offsets and requests |
| `BigBlock.CrossingKeepsBalance` | bin/reth-bb/src/evm.rs:336-386 | crossing a boundary keeps receipts, gas, blob gas and requests equal to the totals of the transactions so far |
| `BigBlock.CommitKeepsBalance` | bin/reth-bb/src/evm.rs:428-440 | a commit keeps every receipt's cumulative gas equal to the gas of all transactions up to it |
| `BigBlock.RunBigBlock` | bin/reth-bb/src/evm.rs:288-500 | the trace is that of the blocks executed one after another if and only if there is one block or the first is not empty; receipts, gas and blob gas are the totals in every case, requests and access indices follow when the trace does |
| `BigBlock.SeparatelyOpensAndFinishes` | bin/reth-bb/src/evm.rs:288-386 | the reference trace opens each block with its own context and its seeds, runs its transactions and finishes it |
| `BigBlock.GasOfOne` | bin/reth-bb/src/evm.rs:428-440 | the totals count each transaction once |
| `BigBlock.RequestsInOrder` | bin/reth-bb/src/evm.rs:452-500 | the merged requests are those of the finished blocks in order |
| `BigBlock.EmptyFirstBlockIsNeverLeft` | bin/reth-bb/src/evm.rs:441-447 | a concrete empty block followed by one transaction: three events where the blocks separately have five |
| `BigBlock.WorkerIndexIsCanonicalPosition` | bin/reth-bb/src/evm.rs:227-246 | a worker's renumbered index i + 1 + 2k is the position of its transaction in the canonical trace |
| `EraImport.Store.TakeBlock` | crates/era-utils/src/history.rs:680-703 | a block is written if and only if the writers stand right before it, or the stored header is its own, and its receipts fit; then exactly its entries are added |
| `EraImport.Store.WriteBlockReceipts` | crates/era-utils/src/history.rs:756-793 | receipts are appended if and only if present, one per transaction, and next in the segment |
| `EraImport.Store.ProcessFile` | crates/era-utils/src/history.rs:465-502 | the result and the store are where the file leads, for every plan; the file is marked exactly when every item in it was consumed |
| `EraImport.Store.ProcessItem` | crates/era-utils/src/history.rs:656-680 | the step is the outcome function's: skip, stop, fail on a gap or an unwritable block, or take the block; the store follows |
| `EraImport.Store.ImportFiles` | crates/era-utils/src/history.rs:374-411 | the result and the store are where the files lead; after every file both checkpoints stand at the height, never below the header tip |
| `EraImport.Store.CheckRepair` | crates/era-utils/src/history.rs:298-358 | a receipt repair starts if and only if receipts are in static files, the Execution checkpoint lies above genesis and height, a given target equals it, and the next block can be verified; it targets that checkpoint |
| `EraImport.Store.Prepare` | crates/era-utils/src/history.rs:280-370 | the plan starts from the header tip found, or with receipts from the lower of both tips, and aims at the requested block, or with receipts at the Execution checkpoint; a missing receipt segment is seeded with the genesis entry; a refused repair writes nothing |
| `EraImport.Store.Import` | crates/era-utils/src/history.rs:238-432 | never past the requested block or the tip found; without receipts, on segments ending at that tip, the result is where the numbers in the files lead from it; a repair succeeds if and only if it may start and the files lead exactly to the Execution checkpoint, and then receipts reach it; a refused repair changes nothing; old entries are kept as a prefix; on success consecutive checked blocks, full marks and checkpoints at the larger of height and tip |
| `EraImport.Store.SaveStageCheckpoints` | crates/era-utils/src/history.rs:438-461 | Headers and Bodies move together |
| `EraWrites.AcceptableReflects` | crates/era-utils/src/history.rs:645-706 | what was written, spelled out: consecutive blocks up to the target, each checked, and exactly their entries in each segment |
| `EraWrites.CheckedIsAcceptable` | crates/era-utils/src/history.rs:645-706 | conversely, consecutive checked blocks that follow what is stored are acceptable |
| `EraWrites.VerifiedReceipts` | crates/era-utils/src/history.rs:713-737 | receipts are accepted if and only if the header bloom has exactly the bits of theirs and, where the root is checked, it commits to them |
| `EraWrites.HeadersAreContiguous` | crates/era-utils/src/history.rs:684-689 | each block above the old tip up to the height has its header and body once, in order; entries at or below the tip are untouched; nothing lies above |
| `EraWrites.ReceiptsAreContiguous` | crates/era-utils/src/history.rs:698-703 | after a repair the receipts reach the height; each block has as many as its stored body has transactions, the header stored for it has its hash, its bloom has exactly their bits, and its root is theirs where it can be checked |
| `EraOutcomes.PlainOutcome` | crates/era-utils/src/history.rs:656-688 | without receipts, on segments that end at the header tip, only the block numbers in the files, unreadable items and failed marks decide the result |
| `EraOutcomes.PlainFileWithTarget` | crates/era-utils/src/history.rs:656-680 | with a target a file leads to the highest block before the first one past it, exactly when that part has no gap and no unreadable item and, if there is no such block, the file can be marked |
| `EraOutcomes.PlainImportWithoutTarget` | crates/era-utils/src/history.rs:374-411 | without a target the files lead to their highest block exactly when all are downloaded and marked and, read as one run, have no gap |
| `EraOutcomes.ImportTakes` | crates/era-utils/src/history.rs:656-704 | a successful import has taken acceptable blocks, all from the files, and they lead to its height and store |
| `EraOutcomes.AcceptableFileIsTaken` | crates/era-utils/src/history.rs:656-704 | conversely, a file that holds acceptable blocks is taken whole |
| `EraOutcomes.ImportKeeps` | crates/era-utils/src/history.rs:680-704 | an import only appends to each segment; headers, bodies and, if wanted, receipts then end at its height |
| `EraOutcomes.ImportGrows` | crates/era-utils/src/history.rs:656-680 | heights only grow, and never past the target |
| `EraOutcomes.ResumedImportIsOne` | crates/era-utils/src/history.rs:284-296 | an import short of the target and then another of more files end, in height and store, like one import of all the files, with or without receipts |
| `EraOutcomes.ReimportTakesNothing` | crates/era-utils/src/history.rs:656-662 | importing the same files once more succeeds and takes nothing |
| `EraOutcomes.NothingPastTarget` | crates/era-utils/src/history.rs:663-667 | once the target is reached nothing more is taken |
| `ForkId.ForkIdOf` | crates/chainspec/src/spec.rs:661-714 | the two early-return loops are one walk over the activation blocks and then the post-genesis activation times |
| `ForkId.LaterHeadExtends` | crates/chainspec/src/spec.rs:661-714 | for any fork list a later head folds in at least the same points in the same order |
| `ForkId.ForkIdIsCanonicalIff` | crates/chainspec/src/spec.rs:661-714 | on ascending forks the walk is the identifier of EIP-2124 and EIP-6122 (all active distinct points, then the next one or 0) if and only if the head has not passed a time equal to the last block |
| `ForkId.CanonicalHasReachedPoints` | crates/chainspec/src/spec.rs:661-714 | that identifier spelled out: the blocks up to the head and the first one above it or, once all are reached, also the times up to the head and the first one above it, or 0 |
| `ForkId.RepeatedValueIsSwallowed` | crates/chainspec/src/spec.rs:699-704 | a concrete block fork and time fork at one value, where the second is missing from the hash |
| `HardforkIds.LastBlockForkBeforeMergeOrTimestamp` | crates/chainspec/src/spec.rs:753-779 | the peeking loop computes the look-ahead function |
| `HardforkIds.LastBlockOfForks` | crates/chainspec/src/spec.rs:753-779 | with a block fork in front it is the merge block or else the last block fork; a merge that comes first is never looked at |
| `HardforkIds.HardforkForkId` | crates/chainspec/src/spec.rs:605-611 | none exactly for a fork that never activates; otherwise the walk for a head satisfying its condition, which the next rows state for each kind of condition |
| `HardforkIds.BlockForkIdIsCanonical` | crates/chainspec/src/spec.rs:721-740 | on ascending forks the identifier of a block fork is that of EIP-2124 and EIP-6122 for a head at its block, which it folds in unless it is 0 |
| `HardforkIds.MergeForkIdIsCanonical` | crates/chainspec/src/spec.rs:721-740 | the identifier of a merge is that for a head at its fork block, or at block 0 when it has none |
| `HardforkIds.TimestampForkId` | crates/chainspec/src/spec.rs:721-740 | for blocks, perhaps a merge, then times: the identifier is that of every head at that time past all blocks if and only if there is a block fork or the merge has no positive block; otherwise it stops before the merge |
| `HardforkIds.TimestampForkIdIsCanonicalIff` | crates/chainspec/src/spec.rs:605-779 | it is the identifier of EIP-2124 and EIP-6122 at that time if and only if, besides, the first time is not the value of the last block |
| `HardforkIds.LeadingMergeIsNotCleared` | crates/chainspec/src/spec.rs:753-779 | a concrete leading merge at block 5 and fork at time 9, whose identifier folds in neither |
| `HardforkIds.Reorder` | crates/chainspec/src/spec.rs:910-922 | no fork stands before one that is earlier in the known order, none with an unknown name before one with a known name, unknown ones keep their relative order, and nothing is lost or repeated |
| `CachedReads.CachedReads.Basic` | crates/revm/src/cached.rs:115-123 | a hit needs no database, a miss is remembered, and a read fails exactly when it misses and the database fails, leaving the cache as it was |
| `CachedReads.CachedReads.CodeByHash` | crates/revm/src/cached.rs:125-131 | likewise for code |
| `CachedReads.CachedReads.Storage` | crates/revm/src/cached.rs:133-154 | the slot's value, except zero for an account first looked up here and found absent; what was read is cached, a hit needs no database, a failure changes nothing |
| `CachedReads.CachedReads.BlockHash` | crates/revm/src/cached.rs:156-162 | likewise for block hashes |
| `CachedReads.CachedReads.Extend` | crates/revm/src/cached.rs:70-74 | a key is cached afterwards exactly if either cache had it, with the other cache's entry where that has one, an account's cached slots replaced as a whole |
| `CachedReads.CachedReads.InsertAccount` | crates/revm/src/cached.rs:63-65 | puts an existing account with its slots in the cache |
| `CachedReads.ExtendAgrees` | crates/revm/src/cached.rs:67-74 | merging two caches of one state gives a cache of that state |
| `CachedReads.Run` | crates/revm/src/cached.rs:115-162 | any interleaving of reads, failures, merges and insertions answers with the state, and with a failure exactly where the key is not cached and the database fails, if absent accounts have no storage |
| `CachedReads.OnceReadNeverRefused` | crates/revm/src/cached.rs:115-162 | an account, a code or a block hash once read is never refused again, whatever the database does |
| `CachedReads.AbsentStorageChanges` | crates/revm/src/cached.rs:133-154 | a fresh cache answers a slot rightly if and only if the account exists or the slot is zero, and rightly the second time in any case |
| `Broadcast.StepKeepsInv` | crates/tasks/src/pool.rs:239-259 | remaining slots plus claimed ones stay constant, and no thread holds a value below the counter |
| `Broadcast.ExactlyTheSlotsRan` | crates/tasks/src/pool.rs:232-260 | in every interleaving with spurious failures exactly min(num_threads, pool size) distinct threads run the closure |
| `Broadcast.NeverStuck` | crates/tasks/src/pool.rs:239-259 | some thread can move until all are done |
| `Broadcast.RunsAreFinite` | crates/tasks/src/pool.rs:241-256 | the number of steps is bounded by the pool size, the slots and the spurious failures |
| `EraStream.EraStream.constructor` | crates/era-downloader/src/stream.rs:81-104 | a new stream has handed over and yielded nothing |
| `EraStream.EraStream.PollStarting` | crates/era-downloader/src/stream.rs:260-332 | phase, index, count and answer are the ones the old state and the answers determine |
| `EraStream.StartedAnswersNext` | crates/era-downloader/src/stream.rs:260-332 | what the starting side gives is an error of a failed listing, or the answer for exactly the next index; the list runs out only at or past its end |
| `EraStream.BookingFillsFolder` | crates/era-downloader/src/stream.rs:298-315 | once the folder is counted, the files held, under download and still to be asked for make up the limit and no more, unless needed to catch up with the last file found; asking keeps that sum |
| `EraStream.EraStream.PollDownloads` | crates/era-downloader/src/stream.rs:202-218 | fills the free places in order; reports the front job exactly when it is done, the end exactly when the list has run out and nothing is in flight; never more outstanding than allowed, so the subtraction cannot underflow |
| `EraStream.EraStream.PollNext` | crates/era-downloader/src/stream.rs:164-180 | jobs come out in the order handed over; state and result are those the answers determine; at the end every file from the start on was handed over, and everything was yielded if and only if some download is allowed or nothing was handed over |
| `EraStream.FollowsInOrder` | crates/era-downloader/src/stream.rs:298-329 | answers given one after another hand over consecutive indices without gap or repeat; past the end of the list only errors follow |
| `EraStream.EveryFileListed` | crates/era-downloader/src/stream.rs:298-329 | once the list has run out every index from the start to its end was handed over once, in order |
| `EraStream.PolledCounts` | crates/era-downloader/src/stream.rs:308-339 | before the list runs out no more downloads are counted than jobs outstanding |
| `EraStream.PromptPollWorks` | crates/era-downloader/src/stream.rs:164-332 | when every request is answered and the folder is not full, each poll ends the stream or leaves less to do |
| `EraStream.PollToEnd` | crates/era-downloader/src/stream.rs:164-332 | from any reachable state such polls end the stream within a stated number, with everything handed over yielded |
| `EraStream.DownloadAll` | crates/era-downloader/src/stream.rs:164-332 | a fresh stream then yields exactly the files from the start to the end of the list, in order, within two polls for each and three more |
| `EraStream.NoDownloadsAllowed` | crates/era-downloader/src/stream.rs:202-218 | a concrete stream of one file with no download allowed ends with that file still scheduled |

## Left out

- Trie nodes, state roots, proofs, witnesses, keccak, CRC32, RLP, SSZ and compression: hashes and roots are injective values or what they commit to, so checksum collisions are not modelled.
- Machine integers: numbers are unbounded, so wrap-around of gas, indices, byte counts and block numbers is not modelled; ETL record lengths are bounded by a machine word.
- CanonicalState.InMemoryState.RemovePersistedBlocksUntil: one atomic step, although the source looks the persisted hash up under a separate read lock before taking the write locks.
- CanonicalState.InMemoryState.UpdateBlocks: takes the documented shape of a new canonical chain (a reorged part that is the current tip, new blocks that connect); other inputs are not modelled.
- ChainRuns.RunKeepsInv: a reorg that undoes blocks on disk unwinds the database in the same step; the time between the two is not modelled.
- Chain information, forkchoice heads, notifications, metrics, transaction lookups and receipts of in-memory blocks: single-field updates and projections.
- OrderedDelivery.NoDeadlock: sequentially consistent steps for at least one item (an empty iterator returns at once); panics of the callback and the pool's scheduling are not modelled.
- BigBlock.RunBigBlock: execution always succeeds, and the initialisation of worker executors is one renumbering per index, not the repeated calls the source allows.
- EVM execution and the single-block executor are represented by their contracts.
- Etl.EtlIter.Next: I/O failures, temporary files and directories are not modelled; a truncated file is an error of the read.
- EraImport.Store.Import: database transactions and static file commits are one store, and what an import that fails inside a file leaves behind is not stated; the channel to the downloader, decoding, transaction numbering inside the segments and the hash index built at the end are not modelled.
- `calculate_td_by_number` and `build_index` of the import: a sum in batches and a cursor loop, easy beside the import.
- `fork_filter`, static chain specifications and the other fields of a specification built from a genesis file.
- CachedReads.Run: the adapters that share the cache by reference add no behaviour of their own.
- Broadcast.RunsAreFinite: relaxed memory ordering is taken as sequential consistency on the one counter; per-thread worker state is not modelled.
- EraStream.EraStream.PollNext: wake-ups of the asynchronous runtime are not modelled, so progress is stated poll by poll; the list of files is fixed, and downloads end with a result.
- HTTP client, checksums and directory scans of the downloader, configuration, command line and process start-up.
