# Tidehunter: a verified model of the cell index protocol

Tidehunter is an embedded key-value store: a write-ahead log (WAL) plus, per cell of keys, a
two-level LSM index. This project models the parts of it whose correctness depends on several
functions and on how threads interleave, and proves what they promise for every run and every
input. Nothing in it executes the original program.

## How the model is laid out

| file | models |
|---|---|
| `Bytes.dfy` | byte strings and the lexicographic key order |
| `IndexTable.dfy` | the per-cell in-memory index as a value: write buffer `data` over compact `flat` |
| `Overlay.dfy` | the same index as stored: ascending position vectors, ordered insert, the unmerge cursor |
| `CellSpec.dfy` | what each row-locked operation does to a cell, as functions |
| `Protocol.dfy`, `CellInvariant.dfy` | one cell under concurrency: 18 kinds of step, the invariant they all keep |
| `LargeTable.dfy` | `LargeTableEntry` as the mutable object, its methods proved to be steps of that protocol |
| `Recovery.dfy` | what a control region records about a cell and what a restart rebuilds from it |
| `Database.dfy`, `DatabaseInvariant.dfy` | the whole store: frontier, guards, latches, cells, overlapping rebuilds, crashes; the promises over runs |
| `Stores.dfy`, `Regression.dfy`, `Overlap.dfy` | when the frontier a control-region store records can go back, exactly |
| `Tracker.dfy` | the WAL allocator's placement and the tracker that computes the frontier |
| `Levels.dfy`, `Blobs.dfy`, `Flusher.dfy`, `Relocation.dfy` | the index flusher in all its output shapes |
| `Gc.dfy`, `Rewind.dfy` | deletion of index files, and the restarted writer that runs into a deleted one |
| `Iteration.dfy` | ordered iteration over overlay, levels and shards |
| `Replay.dfy` | replay buffers |
| `Registry.dfy` | key-space ids across reopens and destroys |
| `Geometry.dfy` | keys to cells and back |
| `Codec.dfy`, `Batch.dfy` | WAL entries, frames, compressed batches, batch preparation |

The reference everything about reads is held to is `IndexTable.AsOf(log, k, b)`: the position of
the highest-offset write of `k` below `b`, or nothing if that write is a removal. The contents
of a cell's levels are an `Image`; `CellSpec.Flushed` is the contract between the cell protocol,
which relies on it, and the flusher, which is proved to meet it (`Flusher.HandleFlush`).

A write is *in flight* from its WAL allocation until it is applied (direct writes) or committed
(batches); until then it holds its WAL guard, and the frontier stays at or below it. Row locks
are modelled per cell, which allows more interleavings than the code does. Clocks, thread
scheduling and disk contents enter only as the order of steps and as parameters.

A rebuild's first pass runs outside the control-region lock, so any number of rebuilds may be in
it at once; each waits at a flusher barrier for the jobs queued by then, and only relocation, walk,
sync and store are exclusive. A store whose assertion fires leaves the stored control region as it
was. All results about reads, checkpoints and recovery hold of every such run.

Three promises turned out to hold only under a condition:

* The stored `replay_from` never goes back exactly in the runs whose every store is *settled*
  (`Regression.StoresNeverRegressIff`): no cell, and no pending flush of a cell, is behind what the
  store records, unless every barrier already called waits for that flush. Runs whose pass-1
  flushes are all requested at or above their cell's own frontier are settled
  (`Stores.AnchoredRequestsNeverRegress`), and so are runs whose rebuilds do not overlap
  (`Stores.SerialNeverRegresses`). Otherwise it fails: a pass-1 flush of a cell whose first write was
  drained after the frontier was read is requested below that write, and once another rebuild is
  past its barrier some continuation always ends in a regressing store
  (`Overlap.UnanchoredRegresses`, and the run in `Overlap.OverlapRegresses`).
* No index position ever points into a deleted file, over every run (`Gc.RunIsSafe`). What can fail
  is that a restarted process gets going: the mapper halts at the first deleted file ahead of the
  rewound writer. It never does exactly in the runs whose every store records a file above all
  deleted ones (`Rewind.NeverMeetsDeletedIff`), which flushes that write a blob or change nothing
  guarantee (`Rewind.SteadyNeverMeetsDeleted`). A flush that leaves only old blobs behind, as a
  sharded promote does when it empties every shard it touches, does not
  (`Rewind.ShrinkingFlushHalts`); dropping cells has the same effect.
* A WAL record decodes to itself exactly when its key fits the two-byte length field
  (`Codec.RoundTrip`).

The comment on `LargeTableEntryState` that a cell is Empty iff it has no levels holds of clean cells
only (`DatabaseInvariant.StateMachine`): between its first write and its first flush a cell is
DirtyLoaded without levels (`CellInvariant.FirstWriteHasNoLevels`). The model follows the code.

The masks that compute a byte's cluster are written as `x - x % w` with `w` a power of two.

## Model

| member | source | states |
|---|---|---|
| `Overlay.PartitionPoint` | tidehunter/src/index/index_table/mod.rs:1752-1757 | the binary search splits an ascending vector exactly at the frontier |
| `Overlay.LatestProcessed` | tidehunter/src/index/index_table/mod.rs:1771-1781 | the last processed vector entry is the newest write of the history below the bound |
| `Overlay.InsertOrdered` | tidehunter/src/index/index_table/mod.rs:245-283 | a write lands in its slot whatever order writers arrive in; Stale is reported exactly when a newer write was there |
| `Overlay.DropFlushed` | tidehunter/src/index/index_table/mod.rs:540-571 | the cursor walk keeps exactly the live positions the snapshot does not hold and finds the newest snapshot position gone from the buffer |
| `Overlay.DropFlushedMeans` | tidehunter/src/index/index_table/mod.rs:506-571 | against the histories behind the vectors, the walk removes the flushed writes and nothing else |
| `Overlay.UnmergeData` | tidehunter/src/index/index_table/mod.rs:510-571 | the same for all keys of the snapshot |
| `Overlay.DataOverlay.CheckedInsert` | tidehunter/src/index/index_table/mod.rs:221-283 | the table afterwards is the table before plus the write |
| `Overlay.DataOverlay.GetAt` | tidehunter/src/index/index_table/mod.rs:715-721 | positions at or above the bound are invisible, `flat` answers when the buffer has nothing below it |
| `Overlay.DataOverlay.UnmergeFlushed` | tidehunter/src/index/index_table/mod.rs:506-616 | refines the value-level unmerge, `flat` matches included |
| `LargeTable.LargeTableEntry.Record` | tidehunter/src/large_table.rs:1957-2007 | an insert or remove, direct or promoted, in whatever order writers arrive: the object follows the history, which now has the write applied; the cell is dirty and no more or less loaded than before |
| `LargeTable.LargeTableEntry.PromotePending` | tidehunter/src/large_table.rs:2073-2107 | applies every committed operation, in any order; live reads then return the newest applied write |
| `LargeTable.LargeTableEntry.MaybeLoad` | tidehunter/src/large_table.rs:2303-2337 | loads L0 under the overlay, without dirtying or cleaning the cell, exactly when no flush is in flight; no live read changes |
| `LargeTable.LargeTableEntry.Lookup` | tidehunter/src/large_table.rs:600-634 | every short cut of the point read returns the newest applied write below the bound |
| `LargeTable.LargeTableEntry.Get` | tidehunter/src/large_table.rs:575-634 | a read promotes the committed operations first and returns the newest acknowledged write below its bound |
| `LargeTable.LargeTableEntry.RequestFlushIfBehind` | tidehunter/src/large_table.rs:2342-2367 | queues a flush exactly for a dirty, idle cell at or behind the threshold; its snapshot answers every key as of the captured frontier |
| `LargeTable.LargeTableEntry.RequestForceRelocate` | tidehunter/src/large_table.rs:2374-2426 | flagged dirty cells get a flush, flagged clean cells a relocation, others nothing; no live read changes |
| `LargeTable.LargeTableEntry.UpdateFlushedIndex` | tidehunter/src/large_table.rs:2612-2708 | completion on the same-snapshot and on the unmerge path, neither panic arm reachable; with the snapshot still shared the cell stays dirty iff a write at or above the committed frontier was applied, and loaded iff it is never unloaded; no live read changes |
| `LargeTable.LargeTableEntry.UpdateRelocatedPosition` | tidehunter/src/large_table.rs:2431-2503 | completion of a relocation in every state, a racing write on a folded L1 included: the cell is dirty iff a write at or above the committed frontier was applied; no live read changes |
| `LargeTable.LargeTableEntry.SyncFlush` | tidehunter/src/large_table.rs:2511-2568 | request, execution and completion of a flush in one section keep the invariant and every live read, and leave the cell unloaded, and dirty iff a write at or above the section's frontier was applied |
| `LargeTable.LargeTableEntry.Clear` | tidehunter/src/large_table.rs:2715-2735 | an idle cleared cell reads as empty and keeps the invariant with the writes still on their way as its history |
| `DatabaseInvariant.StateMachine` | tidehunter/src/large_table.rs:84-97 | in every reachable state: what each label implies about table and levels, a clean cell is Empty iff it has no levels, a pending flush keeps the cell dirty |
| `CellInvariant.FirstWriteHasNoLevels` | tidehunter/src/large_table.rs:84-97 | the documented equivalence of Empty and no levels fails for a dirty cell |
| `CellInvariant.ReadsAsOf` | tidehunter/src/checkpoint.rs:10-38 | any read at or above the frontier returns the newest applied write below its bound |
| `CellInvariant.ApplyInv` | tidehunter/src/large_table.rs:1925-1965 | a write reaching the table late or out of order keeps the invariant |
| `CellInvariant.FlatBeginInv` | tidehunter/src/large_table.rs:835-852 | taking the promotion snapshot with its capped threshold keeps the invariant |
| `CellInvariant.PromotedByPosition` | tidehunter/src/index/index_table/mod.rs:1700-1715 | key by key, by offsets alone: a key keeps its buffered positions, all of them, iff one is at or above the threshold, and otherwise moves to `flat` at its newest position |
| `CellInvariant.FlatEndInv` | tidehunter/src/large_table.rs:854-883 | the optimistic write-back keeps the invariant, with or without a flush in flight |
| `CellInvariant.PromotionDrains` | tidehunter/src/large_table.rs:820-891 | an undisturbed promotion leaves a key buffered iff it has a write at or above the frontier read, or that of a flush in flight |
| `CellInvariant.LoadInv` | tidehunter/src/large_table.rs:2303-2337 | loading keeps the invariant |
| `CellInvariant.RequestFlushInv` | tidehunter/src/large_table.rs:2342-2367 | a snapshot taken after draining answers every key as of the captured frontier |
| `CellInvariant.FlushedAnswers` | tidehunter/src/flusher.rs:348-356 | flushed levels answer each key as of one point between request and execution, though filtered at the execution frontier |
| `CellInvariant.CompleteFlushInv` | tidehunter/src/large_table.rs:2677-2708 | flush completion keeps the invariant on every path |
| `CellInvariant.FlushLeavesClean` | tidehunter/src/large_table.rs:2612-2675 | on an undisturbed snapshot a flush cleans the cell iff nothing at or above its frontier was applied, unloads it unless pinned, and strips tombstones and older positions of a pinned cell without deeper levels |
| `CellInvariant.UnloadedHolds` | tidehunter/src/large_table.rs:2612-2708 | whichever path a flush completes on, an unloaded cell buffers exactly the applied writes at or above the frontier |
| `CellInvariant.UnmergedTable` | tidehunter/src/index/index_table/mod.rs:506-616 | after racing writes and promotions, unmerging leaves exactly the writes at or above the flush frontier |
| `CellInvariant.CompleteRelocateInv` | tidehunter/src/large_table.rs:2431-2503 | relocation completion keeps the invariant in every state |
| `CellInvariant.RelocationLeavesClean` | tidehunter/src/large_table.rs:2431-2503 | a relocated cell is dirty iff it was written to meanwhile |
| `CellInvariant.VisitInv` | tidehunter/src/large_table.rs:1136-1152 | advancing a clean cell's frontier during the walk keeps the invariant |
| `CellInvariant.FrontierInv` | tidehunter/src/wal/tracker.rs:478-488 | the frontier may advance over everything but held guards |
| `CellInvariant.StepInv` | tidehunter/src/large_table.rs:1915-2708 | every step of a cell, in every interleaving, keeps the invariant |
| `Recovery.FloorStep` | tidehunter/src/large_table.rs:1938-1965 | once a cell, its pending job and its open section are at or above a frontier, no step takes what it would record below it |
| `Recovery.AnchoredStep` | tidehunter/src/large_table.rs:2342-2426 | pending jobs stay at or above the cell's frontier, except for a flush of a cell found empty |
| `Recovery.VisitRecords` | tidehunter/src/large_table.rs:1123-1162 | what the walk records of a cell accounts for every write below the frontier it read |
| `Recovery.RestartDisk` | tidehunter/src/large_table.rs:1892-1913 | recorded levels answer as of a point at or past the recorded frontier |
| `Recovery.RestartAnswers` | tidehunter/src/large_table.rs:2023-2071 | recorded levels plus the replayed tail give back the history below the WAL cut |
| `Recovery.RestartInv` | tidehunter/src/large_table.rs:1892-1913 | a restarted cell satisfies the protocol invariant, so later runs are covered |
| `Recovery.RestartState` | tidehunter/src/large_table.rs:2023-2071 | a restarted cell is dirty iff replay hands it a write and Empty iff it has neither levels nor history below the cut; with levels it keeps the recorded frontier, without them it is anchored at its earliest write |
| `DatabaseInvariant.EventOk` | tidehunter/src/large_table.rs:1094-1178 | every event of the store, overlapping rebuilds, failed stores and crashes included, keeps the global invariant |
| `DatabaseInvariant.CheckpointStable` | tidehunter/src/checkpoint.rs:10-38 | over any run during which the latch is held, a checkpoint read returns exactly the newest write below the latch as of the grant, once committed batches below the latch are drained |
| `DatabaseInvariant.LiveReads` | tidehunter/src/large_table.rs:575-634 | a live read, which drains committed batches first, returns the newest acknowledged write |
| `CellInvariant.OnlyWritesChangeReads` | tidehunter/src/large_table.rs:2303-2708 | no load, promotion, flush, relocation or walk step changes what a live read returns |
| `DatabaseInvariant.CrashRecovers` | tidehunter/src/large_table.rs:1094-1116 | after a crash at any point of any run, at any cut past the WAL sync of the stored control region, every key reads as the WAL history below the cut |
| `DatabaseInvariant.CrashKeepsLiveMap` | tidehunter/src/large_table.rs:1094-1116 | if the cut keeps exactly the applied writes, the live map survives the crash |
| `DatabaseInvariant.ReachableNeverPanics` | tidehunter/src/large_table.rs:2677-2692 | in no reachable state does a step of a cell hit a panic arm, a pending-flush assertion or a repeated position |
| `Stores.LevelKept` | tidehunter/src/large_table.rs:1660-1717 | only a store can make the next store unsound: no other event, crash included, puts a cell the next walk may find behind the stored frontier |
| `Stores.SettledHolds` | tidehunter/src/control.rs:301-341 | after a store, the next one is sound iff the store was settled |
| `Stores.AnchoredRequestsNeverRegress` | tidehunter/src/large_table.rs:2342-2367 | however rebuilds overlap, every store is settled while pass-1 flushes are requested at or above their cell's frontier |
| `Stores.SerialNeverRegresses` | tidehunter/src/db.rs:1357-1391 | every store is settled while rebuilds do not overlap, whatever their flushes are requested at |
| `Regression.CanRegressIff` | tidehunter/src/control.rs:308-312 | in every reachable state: some continuation has its next store regress iff a cell it has yet to record is behind |
| `Regression.StoresNeverRegressIff` | tidehunter/src/control.rs:301-341 | a run can at no point have its next store regress iff every store in it is settled |
| `Overlap.StoreThenRegress` | tidehunter/src/large_table.rs:2603-2610 | a store ahead of a pending flush is followed, in some continuation, by one that regresses |
| `Overlap.UnanchoredRegresses` | tidehunter/src/large_table.rs:1668-1687 | a flush requested below its cell's frontier and a rebuild that does not wait for it always have a continuation with a regressing store |
| `Overlap.OverlapRegresses` | tidehunter/src/db.rs:1364-1391 | a reachable state of one cell and two overlapping rebuilds whose store regresses |
| `Tracker.PlacedFits` | tidehunter/src/wal/layout.rs:53-68 | a placed block is at or past the tail and inside one fragment, and at the lowest such position |
| `Tracker.WalTracker.Allocate` | tidehunter/src/wal/allocator.rs:32-63 | allocations take the lowest position of one fragment that fits, extend the log without gap or overlap and hold their guard from then on |
| `Tracker.WalTracker.AddProcessed` | tidehunter/src/wal/tracker.rs:529-547 | the frontier moves exactly when the guard at it is dropped, over everything contiguous and done, whatever order guards drop in |
| `Tracker.WalTracker.Process` | tidehunter/src/wal/tracker.rs:400-425 | a dropped guard advances frontier, view and waiting latches together |
| `Tracker.WalTracker.Publish` | tidehunter/src/wal/tracker.rs:478-488 | the visible frontier never passes a latch or the true frontier and never goes back |
| `Tracker.WalTracker.Latch` | tidehunter/src/wal/tracker.rs:426-447 | a latch pins the frontier at or above every earlier one and at or above the end of every allocation done, at the end of a done allocation or the start; it is granted with everything below it done, or its request waits |
| `Tracker.WalTracker.FulfillPendingRequests` | tidehunter/src/wal/tracker.rs:493-517 | answers exactly the deferred latches the frontier has reached, each with everything below it done |
| `Tracker.FrontierIsExact` | tidehunter/src/wal/tracker.rs:478-488 | the visible frontier is exactly the lowest latch, the first allocation still guarded, or the end of the log |
| `Levels.ShardForCovers` | tidehunter/src/index/levels.rs:331-337 | the shard picked for a key is the one covering it, and none is picked only if none covers it |
| `Levels.UnionLookup` | tidehunter/src/large_table.rs:2215-2234 | opening the covering shard alone answers for all shards |
| `Levels.LookupIsImage` | tidehunter/src/large_table.rs:644-684 | walking L0 and then L1 or the covering shard answers as the contents of all levels |
| `Blobs.SplitRecursive` | tidehunter/src/flusher.rs:949-968 | chunks concatenate to the input, are not empty, fit the limit or are single entries; a range that fits is not split, and every chunk is half of a range that does not |
| `Flusher.FlushShardTables` | tidehunter/src/flusher.rs:613-626 | the chunks become ordered, disjoint, tightly bounded shards holding exactly the blob |
| `Flusher.WriteShards` | tidehunter/src/flusher.rs:578-608 | a blob is written as shards holding exactly it, one iff it is small enough or a single entry, each small enough or a single entry, all at fresh positions |
| `Flusher.OwnerTerritory` | tidehunter/src/flusher.rs:652-660 | routing partitions the key space: a key belongs to exactly one shard's territory |
| `Flusher.RewriteShards` | tidehunter/src/flusher.rs:704-780 | rewritten shards stay ordered and tight without collision, fit the split limit or hold one entry; shards not named, or not changed, keep their blobs; every key reads its owner's new content |
| `Flusher.WriteShardedPromote` | tidehunter/src/flusher.rs:631-691 | the new shards answer as the merged L0 laid over the old shards, untouched shards stay in place, new ones fit the split limit or hold one entry, an all-empty result becomes one empty L1 |
| `Flusher.WritePromotedL1` | tidehunter/src/flusher.rs:551-571 | the promoted levels hold exactly the blob, in shards iff it is not empty and exceeds the split limit, every blob fitting the limit or holding one entry; levels are left empty iff an empty blob exceeds the split limit |
| `Flusher.PromotedL1Answers` | tidehunter/src/flusher.rs:437-448 | merging into L1 and stripping tombstones answers as L0 laid over L1 and leaves no tombstone |
| `Flusher.MergedAnswers` | tidehunter/src/flusher.rs:299-356 | the merged, frontier-filtered L0 answers what the flush owes |
| `Flusher.WeightCounts` | tidehunter/src/index/index_table/mod.rs:849-856 | the size a flush weighs against the L0 limit counts every key the merged L0 answers for, those both compacted and buffered twice |
| `Flusher.WriteL0` | tidehunter/src/flusher.rs:458-484 | a new L0 over unchanged deeper levels, tombstones kept exactly while a deeper level remains |
| `Flusher.HandleFlush` | tidehunter/src/flusher.rs:257-498 | in every output shape the new levels meet the cell protocol's flush contract, keep the deepest level free of tombstones, use only old or fresh blobs and no flagged one; promotion happens iff the merged L0 outweighs the limit, sharding iff the result exceeds the split limit, otherwise the deeper level stays and L0 is left out iff it would be empty over one; what a promotion writes fits the split limit or holds one entry |
| `Flusher.HandleRelocate` | tidehunter/src/flusher.rs:265-347 | a forced relocation keeps every answer; sharded levels keep contents and shape, others collapse into one blob |
| `Flusher.RelocateInLevels` | tidehunter/src/flusher.rs:845-927 | same shape, same contents, no flagged position left, unflagged positions kept |
| `Relocation.Route` | tidehunter/src/flusher.rs:800-815 | each update goes to the table, to the covering shard or nowhere |
| `Relocation.RepointedGet` | tidehunter/src/index/index_table/mod.rs:1534-1584 | an update moves a key's newest position iff it lies below the frontier, and no other key |
| `Relocation.ApplyUpdatesSharded` | tidehunter/src/flusher.rs:792-833 | table and shards answer with exactly the admissible updates applied, each in one place; shards no update moves keep their blobs, and levels no update reaches stay as they are |
| `Gc.DoomedAreDead` | tidehunter/src/db.rs:1393-1424 | files chosen for deletion hold nothing recorded, live or waiting to be installed |
| `Gc.ToDeleteExact` | tidehunter/src/db.rs:1393-1424 | exactly the files without a recorded position, below the position captured first and below a recorded one, are deleted |
| `Gc.RunIsSafe` | tidehunter/src/db.rs:1357-1441 | over any run of flushes, drops, overlapping rebuilds and crashes, nothing stored, live, newly written or about to be read points into a deleted file |
| `Rewind.CrashHaltsIff` | tidehunter/src/wal/mapper.rs:401-421 | a crash leads to a halt of the mapper iff the restarted writer comes back at or before a deleted file |
| `Rewind.NeverMeetsDeletedIff` | tidehunter/src/db.rs:1393-1424 | a run can be crashed at any point without its mapper ever meeting a deleted file iff every store in it records a file above all deleted ones |
| `Rewind.SteadyNeverMeetsDeleted` | tidehunter/src/db.rs:1393-1424 | flushes that write a blob or change nothing keep every store level, whatever crashes and overlaps occur |
| `Rewind.ShrinkingFlushHalts` | tidehunter/src/db.rs:1401-1404 | a run, through a flush that leaves only old blobs, a crash and a rewound writer, that halts at a deleted file |
| `Iteration.MergeStep` | tidehunter/src/index/utils.rs:31-66 | the merge yields the first key past the cursor of all sources, the freshest source winning |
| `Iteration.PickForward` | tidehunter/src/index/levels.rs:351-370 | the picked shard is the first with a key past the cursor |
| `Iteration.PickReverse` | tidehunter/src/index/levels.rs:381-392 | the same backwards |
| `Iteration.OneShardSuffices` | tidehunter/src/large_table.rs:2236-2269 | the picked shard alone yields the same next entry as all shards |
| `Iteration.CellNext` | tidehunter/src/large_table.rs:1347-1404 | skipping tombstones one by one finds the first live entry of the cell past the cursor |
| `Iteration.NextEntry` | tidehunter/src/large_table.rs:1184-1286 | crossing cells up to the exclusive end cell finds the first live entry from the cursor on |
| `Iteration.Scan` | tidehunter/src/large_table.rs:1184-1286 | a full scan yields exactly the live entries, once each, in strict key order, in both directions |
| `Iteration.ScanUniform` | tidehunter/src/key_shape.rs:449-456 | the same with the cell order derived from uniform routing |
| `Iteration.ScanPrefix` | tidehunter/src/key_shape.rs:457-462 | the same with the cell order derived from prefix routing |
| `Iteration.ScanAgreesWithRead` | tidehunter/src/checkpoint.rs:132-188 | a scan sees a key, at a position, exactly when a point read under the same bound does |
| `Replay.ReplayBuffer.DropCellsInRange` | tidehunter/src/replay_buffer.rs:102-120 | clears the buffers of the range and no other |
| `Replay.ReplayBuffer.Collect` | tidehunter/src/replay_buffer.rs:76-120 | each cell's buffer holds its writes since its last drop, in WAL order |
| `Replay.Settle` | tidehunter/src/large_table.rs:2023-2071 | truncate, sort and dedup leave the newest surviving write per key; the anchor is the earliest surviving offset |
| `Replay.ReplayIsFold` | tidehunter/src/replay_buffer.rs:76-120 | buffering equals applying the surviving operations one by one |
| `Replay.ReplayAll` | tidehunter/src/large_table.rs:488-515 | the tables installed for a key space are the sequential fold of its WAL below the cutoff, each cell anchored at its earliest surviving offset |
| `Replay.ReplayIsRestart` | tidehunter/src/large_table.rs:2023-2071 | the installed table is the one the crash theorem is stated with |
| `Registry.Reconcile` | tidehunter/src/key_shape.rs:780-842 | accepted iff matched layouts agree and ids suffice; the registry is extended by exactly the new names, declared names and no others are exposed under their live slot |
| `Registry.RunOk` | tidehunter/src/db.rs:282-299 | over any opens and destroys the registry only grows by appending and keeps one live slot per name |
| `Registry.IdIsStable` | tidehunter/src/key_shape.rs:780-842 | a live name keeps its id |
| `Registry.RedeclaredGetsFreshId` | tidehunter/src/db.rs:656-684 | a name declared again after a destroy gets an id never used before |
| `Registry.TombstoneKeySpace` | tidehunter/src/db.rs:656-684 | destroys the live slot, reports an already destroyed one, refuses declared and unknown names |
| `Geometry.StartingMonotone` | tidehunter/src/math.rs:27-32 | prefix numbers follow key order |
| `Geometry.UniformMonotone` | tidehunter/src/key_shape.rs:449-456 | uniform cells follow key order |
| `Geometry.UniformPrefixRange` | tidehunter/src/key_shape.rs:466-475 | a key's 32-bit prefix lies in its cell's index range and in no other |
| `Geometry.UniformRange` | tidehunter/src/key_shape.rs:551-567 | a fixed-length key is in a cell iff it lies between the cell's first and last key |
| `Geometry.UniformKeyRange` | tidehunter/src/key_shape.rs:600-625 | dropping a cell range drops exactly the keys between its bounds |
| `Geometry.PrefixMonotone` | tidehunter/src/key_shape.rs:457-462 | prefix cells follow key order, cluster bits included |
| `Geometry.PrefixRange` | tidehunter/src/key_shape.rs:568-588 | a key is in a prefix cell iff it lies between the cell's first and last key |
| `Geometry.SameCluster` | tidehunter/src/key_shape.rs:1133-1155 | a byte has a cluster iff it lies in the cluster's byte range |
| `Geometry.PrefixIndexRange` | tidehunter/src/key_shape.rs:1121-1131 | a key's index prefix lies in the range of its prefix cell |
| `Codec.CellRoundTrip` | tidehunter/src/cell.rs:35-51 | a cell id reads back from any buffer and leaves the cursor right behind it |
| `Codec.RoundTrip` | tidehunter/src/db.rs:1956-2054 | every entry decodes to itself, except exactly the records whose key exceeds 65535 bytes |
| `Codec.Encode` | tidehunter/src/db.rs:1999-2054 | the encoding has exactly the announced length |
| `Codec.WireFormat` | tidehunter/src/db.rs:2012-2054 | the bytes of each kind of entry: tag, key space, big-endian lengths and variable parts in order |
| `Codec.NewFrame` | tidehunter/src/crc.rs:17-30 | the patched buffer is length, checksum and payload |
| `Codec.FrameSurvives` | tidehunter/src/crc.rs:51-73 | a frame reads back whole at any offset of any buffer |
| `Codec.ReadIsFrame` | tidehunter/src/crc.rs:51-73 | a read succeeds iff the bytes at the position are the frame of the payload behind them and no skip marker |
| `Codec.MarkerRead` | tidehunter/src/crc.rs:51-73 | a skip marker is read iff all header bytes are ones |
| `Codec.EntrySurvives` | tidehunter/src/crc.rs:17-73 | an entry written in a frame is read back as itself |
| `Codec.ZeroesStop` | tidehunter/src/crc.rs:51-73 | unwritten space never reads as a frame |
| `Batch.EncodeInner` | tidehunter/src/compressed_batch.rs:71-78 | the loop writes the inner layout |
| `Batch.InnerIter.Next` | tidehunter/src/compressed_batch.rs:124-136 | iteration returns the encoded entries in order |
| `Batch.FindRecordBy` | tidehunter/src/compressed_batch.rs:166-183 | returns the first matching record, or nothing iff none matches |
| `Batch.DedupLastWins` | tidehunter/src/db.rs:1726-1751 | keeps both lists in lockstep and in order, one operation per key, its last |
| `Batch.KeepSelects` | tidehunter/src/db.rs:1726-1751 | what is kept stood at exactly the last place of each key, in ascending order, whichever list it is taken from |
| `Batch.KeepUnique` | tidehunter/src/db.rs:1726-1751 | no key is left twice |
| `Batch.DedupKeepsFinal` | tidehunter/src/db.rs:1726-1751 | the collapsed batch ends with the same map as the whole batch |
| `Batch.FindAfterDedup` | tidehunter/src/compressed_batch.rs:148-183 | a scan of the collapsed batch finds exactly the value the batch wrote last |
| `Batch.StableSort` | tidehunter/src/db.rs:764-766 | sorted by lock, each lock's operations in their original order |
| `Batch.GroupRanges` | tidehunter/src/db.rs:768-781 | the ranges are whole groups of different locks and cover all operations |
| `Batch.GroupBatch` | tidehunter/src/db.rs:736-781 | each lock is taken once, for all of its operations in WAL order |

## Left out

- The value LRU, bloom filters and metrics: they only short-cut or report what is modelled.
- Compactors, relocation filters, the relocation cutoff and the WAL floor: user callbacks and reclaimed positions are taken as absent, so no flush drops a live entry.
- Moving WAL values under a running cell protocol: re-pointing is proved on tables and levels (`Relocation.dfy`), not interleaved with checkpoints; with it goes the rebase of an overlay that is never unloaded.
- Dropping cells and destroying key spaces in runs with checkpoints or crashes: the code documents that held checkpoints are not preserved across them; their effect on replay buffers and ids is modelled.
- Atomic visibility of a batch: operations commit one at a time here, which allows more interleavings and promises less than a batch does.
- The mapper's lookahead: taken as keeping at least the writer's own file mapped, so a restart never opens a file not created yet.
- Acknowledged writes above a torn frame: a restart reads the WAL up to the first bad frame, so recovery is stated for the history below that cut.
- Choosing relocation candidates by file occupancy: any set of flagged blobs is allowed instead.
- lz4, CRC-32, bincode and YAML: compression is left out, the checksum is an arbitrary function.
- File, mmap and lock-file handling, threads, configuration, the command-line tools and the orchestrator.
- LargeTable.LargeTableEntry.SyncFlush: only the flush a full cell takes under the sync-flush setting, not the one a relocation forces on a clean cell.
- Flusher.HandleFlush: takes no relocation updates, and requires that an empty blob fits the split limit; `Flusher.WritePromotedL1` says what happens otherwise.
- Geometry.UniformRange: cell counts that divide the 32-bit prefix evenly, which the power-of-two settings guarantee.
- Replay.ReplayAll: no cell drop at or above the cutoff of an incomplete batch.
