# HomeStore: a model of its crash-consistent core, with proofs

HomeStore is a storage engine. This Dafny project models the parts of it where a mistake loses data, and
proves what they promise:

- the index write-back cache: buffers linked by "up" pointers and wait counters, the flush that walks this
  graph, the isolation of a checkpoint (CP) from the next one, the transaction journal that rebuilds the
  graph after a crash, and the relinking around freed buffers;
- the checkpoint manager: reference-counted guards, an RCU pointer swap, one flush at a time, back-to-back
  triggers, crashes; and, run together with it, the deferred frees of the virtual device;
- the journal descriptor: a window over a list of chunks with holes, with append, truncate, offset
  translation and sequential reads;
- the slab cache of free blocks and the variable-size block allocator;
- log groups: layout, growth, footer, CRC, and the reader that takes a record out again;
- the read tracker, which makes frees wait for reads, and the topological sort.

## How it is built

Concurrent protocols are state machines: `Step` lists the atomic steps, `Apply` is one step (a step that is
not enabled does nothing), `Exec` a run of any length. Theorems hold for every run. Code that updates
objects in place is modelled twice: as functions on values, about which the theorems are proved, and as
classes and methods with the loops of the source, whose contracts say that they compute those functions.
Where a method's contract can state the promise outright (the slab cache, the allocator, the sort) it does.

| files | content |
|---|---|
| `FlushGraph`, `FlushFibers` | the flush of a checkpoint, by one fiber and by several |
| `LinkGraph`, `Recovery`, `Replay`, `WbCache` | linking, relinking, journal replay, the buffer objects |
| `Checkpoint`, `DeferredFree`, `CacheIsolation`, `VirtualDev` | checkpoint machine and the two protocols that run with it |
| `TxnJournal` | the transaction journal as bytes |
| `Journal`, `JournalRead`, `JournalTruncate`, `JournalRun`, `JournalScan`, `JournalVdev` | journal descriptor: window, reader, truncation, runs, scans, the object |
| `Blocks`, `SlabCache`, `VarsizeAllocator` | runs of blocks, slab cache, allocator |
| `Bytes`, `Crc32`, `LogLayout`, `LogRead`, `LogGroup` | encodings, CRC, log group |
| `ReadTracker`, `TopologicalSort` | the two remaining components |
| `Options`, `Arithmetic`, `Sequences` | optional values, rounding and division, lists without repetition |

## What turned out not to hold as stated

Each of these has a theorem that says exactly when the promise is met, and an instance in which it is not.

- With several flush fibers a buffer can be written twice. A run writes every buffer at most once if and only
  if no fetch or rescan reaches, with its room, a buffer that a completion has chosen and that is not marked
  yet; such a run keeps the promises of a flush by one fiber (`FlushFibers.FibersRun`, `FibersNeverStall`,
  `FibersProgress`; one scan: `FlushFibers.TakenTwiceIff`; instance `FlushFibers.WrittenTwice`).
- Collecting from smaller slabs can leave the slab array. It does if and only if the request may be split, its
  smallest slab lies above the slab it starts with and the cache holds fewer blocks than it asks for
  (`SlabCache.FreeBlkCacheQueue.TryAllocBlks`, `MergeDown`; instance `SlabCache.LeavesSlabs`).
- A refill session has one requirement per slab if and only if every slab needs a refill
  (`SlabCache.SessionPerSlabIff`); a fill reads past the requirements if and only if there are too few for the
  slab it starts with (`TryFillCache`; instance `SlabCache.MissingRequirement`).
- A contiguous request with a part allowed can come back in several pieces: if and only if the first portion
  with a run of the smallest size splits it (`VarsizeAllocator.VarsizeBlkAllocator.AllocDirect`; instance
  `VarsizeAllocator.SeveralPieces`).
- The blocks freed in a checkpoint that is recorded became free if and only if the checkpoint had a dirty
  buffer or is CP 0; otherwise they end up neither free nor in use (`DeferredFree.FreeListIff`; instance
  `DeferredFree.ListDropped`).
- The replay of a root change gives the new root the ancestor of the run if and only if the link it already has
  leads to the ancestor of the parent passed in (`Replay.RootTxnIff`). A merge and a root collapse in one
  checkpoint break this (`Replay.RootDisplaced`). The theorems about replay cover such runs: everything else
  is restored, and the displaced root ends below the parent passed in.
- Truncating the journal keeps the tail only below the tail and not strictly inside a hole
  (`JournalTruncate.TruncateWindow`; instance `JournalScan.TailMoves`).
- A sequential read that starts exactly at the end of a chunk's data steps over the hole twice and skips bytes
  of the next chunk (`JournalScan.HoleCrossedTwice`; instance `JournalScan.BytesSkipped`). One that starts
  inside a hole returns the bytes of the hole (`JournalVdev.JournalDescriptor.SyncNextRead`).
- Relinking dereferences null exactly when some linked buffer has no unfreed ancestor (`Recovery.RelinkRun`;
  instance `Recovery.OrphanFails`). No replayed journal leads there (`Replay.RecoveredGraph`).
- A transaction record with more than 255 ids can overrun the journal buffer, because the size computation
  takes the number of ids as one byte (`TxnJournal.NeverOverrunsIff` over all buffers;
  `TxnJournal.TxnJournalBuf.AddToTxnJournal` for the buffer at hand).
- Recovery reads a transaction record of more than 256 ids wrongly, because it reads ids by a one-byte index.
  Every record of n ids comes back if and only if n is at most 256 (`TxnJournal.ReadsBackIff`); a single record
  does if and only if the ids behind the first 256 repeat those before (`TxnJournal.RecRoundTrip`), and a whole
  journal if and only if each of its records does (`TxnJournal.ParsesBack`). When the 257th id is that of a freed
  node, the replay marks the first node of the record as freed (`TxnJournal.FirstIsFreed`). Such a record can find room in the journal and be appended
  (instance `TxnJournal.JournaledButMisread`).
- The largest run length, 65535 blocks, has no round-down slab, because the 16-bit computation wraps there and
  only there (`Blocks.RoundDownWraps`).

## Model

| member | source | states |
|---|---|---|
| FlushGraph.ScanSets | src/lib/index/wb_cache.cpp:1040-1056 | the list scan takes exactly the ready buffers it passes and leaves the others |
| FlushGraph.ScanTakes | src/lib/index/wb_cache.cpp:1040-1056 | a scan takes a ready buffer exactly when it lies ahead and fewer ready buffers than the room are listed before it |
| FlushGraph.StepKeeps | src/lib/index/wb_cache.cpp:888-1056 | every fetch, start, completion and every change the next CP makes keeps the flush invariant |
| FlushGraph.RunKeeps | src/lib/index/wb_cache.cpp:888-1056 | the flush invariant holds after every run |
| FlushGraph.FlushRun | src/lib/index/wb_cache.cpp:888-1056 | each buffer is written at most once and only after all buffers linked below it completed; "no more" is reported once, exactly when all have completed |
| FlushGraph.NeverStalls | src/lib/index/wb_cache.cpp:989-1056 | with acyclic links some buffer is in flight until "no more" is reported |
| FlushGraph.Progress | src/lib/index/wb_cache.cpp:888-1056 | every start and completion lowers a measure, so every run ends |
| FlushFibers.TakenTwiceIff | src/lib/index/wb_cache.cpp:1009-1056 | from the state before a fetch: exactly when it takes a buffer that is chosen and not marked yet |
| FlushFibers.StepKeeps | src/lib/index/wb_cache.cpp:873-1056 | a step of any fiber chooses a buffer a second time exactly when its scan reaches a chosen, unmarked one; every other step keeps the invariant |
| FlushFibers.RunKeeps | src/lib/index/wb_cache.cpp:873-1056 | the same for every run |
| FlushFibers.FibersRun | src/lib/index/wb_cache.cpp:873-1056 | in any interleaving of any number of fibers no buffer is written or still to be written twice exactly when no scan came into that window; then order, single write and single report hold as for one fiber |
| FlushFibers.FibersNeverStall | src/lib/index/wb_cache.cpp:989-1056 | outside that window, with acyclic links, some buffer can be marked or some write can complete until "no more" is reported |
| FlushFibers.FibersProgress | src/lib/index/wb_cache.cpp:888-1056 | outside that window every mark and completion lowers a measure, so every run ends |
| FlushFibers.WrittenTwice | src/lib/index/wb_cache.cpp:944-1056 | a flush of two buffers in which the second is written twice |
| LinkGraph.MoveCounts | src/lib/index/wb_cache.cpp:405-443 | moving a link keeps every wait count equal to the number of buffers linked to it |
| LinkGraph.LinkKeeps | src/lib/index/wb_cache.cpp:363-443 | one link_buf call keeps counts right, targets old and links acyclic |
| LinkGraph.LinkRun | src/lib/index/wb_cache.cpp:363-443 | the same for every sequence of calls of a CP |
| LinkGraph.LinkedIsFlushable | src/lib/index/wb_cache.cpp:829-886 | a graph built by link_buf, with its linked buffers dirty and listed once, is a valid start of a flush |
| Recovery.AncestorsKept | src/lib/index/index_cp.cpp:253-266 | relinking one buffer changes no buffer's nearest unfreed ancestor |
| Recovery.WalkKeeps | src/lib/index/index_cp.cpp:253-280 | any prefix of the walk, in any order: which buffers are relinked, and when it fails |
| Recovery.RelinkRun | src/lib/index/index_cp.cpp:253-324 | null dereference exactly when some linked buffer has no unfreed ancestor; else every buffer ends at its nearest unfreed ancestor, counts match, freed buffers have count zero |
| Recovery.OrphanFails | src/lib/index/index_cp.cpp:253-266 | a freed buffer without a buffer above makes the walk dereference null |
| Replay.TxnStep | src/lib/index/index_cp.cpp:330-405 | replaying the record of one transaction keeps running graph and replayed graph in agreement outside the buffers that root changes displaced |
| Replay.JournalRebuilds | src/lib/index/index_cp.cpp:330-405 | replaying the records of any transactions fails nowhere and gives every surviving buffer that is not displaced the same nearest unfreed ancestor |
| Replay.RecoveredGraph | src/lib/index/index_cp.cpp:232-328 | replay and relinking in any order restore the ancestors of the lost graph, with right counts; a displaced root ends directly below the parent passed in; what sanityCheck asserts of links and counts holds for every buffer: a link ends at a buffer that is not freed, not created in the CP and waits for somebody |
| Replay.RootTxnIff | src/lib/index/wb_cache.cpp:281-316 | the exact condition under which a replayed root change agrees with the run, and the ancestor it gives otherwise |
| Replay.RootDisplaced | src/include/homestore/btree/detail/btree_remove_impl.ipp:180-240 | a merge and a root collapse in one checkpoint: the lost graph has the new root below the old one, recovery puts it directly below the superblock |
| Replay.NoneDisplaced | src/lib/index/wb_cache.cpp:281-316 | runs whose root changes meet the condition displace nothing |
| WbCache.IndexBuffer.AddDownBuffer | src/lib/index/index_service.cpp:306-315 | one more to wait for, nothing else changes |
| WbCache.IndexBuffer.RemoveDownBuffer | src/lib/index/index_service.cpp:316-333 | one less to wait for, nothing else changes |
| WbCache.LinkBuf | src/lib/index/wb_cache.cpp:363-443 | the method computes the link of the theory on the heap graph |
| WbCache.MoveLink | src/lib/index/wb_cache.cpp:405-443 | old up buffer loses one, link set, new up buffer gains one |
| WbCache.IndexCPContext.AddToDirtyList | src/lib/index/index_cp.cpp:67-71 | list, count and state after adding a buffer |
| WbCache.IndexCPContext.NextDirty | src/lib/index/index_cp.cpp:77-82 | the next listed buffer or none at the end |
| WbCache.IndexCPContext.TakeFromList | src/lib/index/wb_cache.cpp:1040-1056 | the loop over the dirty list is the scan of the theory |
| WbCache.ReleaseUp | src/lib/index/wb_cache.cpp:1018-1039 | the release of the buffer above is that of the theory |
| WbCache.GetNextBufs | src/lib/index/wb_cache.cpp:1018-1056 | release and scan together, with the room that is left |
| WbCache.OnBufFlushDone | src/lib/index/wb_cache.cpp:989-1007 | a completion on the heap is the completion of the theory, with the buffer to write next |
| WbCache.LinkNewBufs | src/lib/index/wb_cache.cpp:281-316 | new nodes are linked one after the other |
| WbCache.LinkFreedBuf | src/lib/index/wb_cache.cpp:281-316 | a freed node is linked only if something waits in it, and marked freed |
| WbCache.LinkFreedBufs | src/lib/index/wb_cache.cpp:281-316 | freed nodes one after the other |
| WbCache.TransactBufs | src/lib/index/wb_cache.cpp:281-316 | graph and journal record after a whole transaction are those of the theory |
| WbCache.ModifyBuffer | src/lib/index/index_cp.cpp:253-266 | the walk up the links is the relink of the theory; false where the code dereferences null |
| WbCache.RelinkBuffers | src/lib/index/index_cp.cpp:278-280 | the loop over the buffer map is the relinking walk |
| Checkpoint.StepKeeps | src/lib/checkpoint/cp_mgr.cpp:159-331 | every step keeps the invariant and touches no CP that is gone |
| Checkpoint.RunKeeps | src/lib/checkpoint/cp_mgr.cpp:159-331 | the invariant holds after every run, crashes included |
| Checkpoint.CheckpointRun | src/lib/checkpoint/cp_mgr.cpp:159-331 | at most one CP in flush phase, ids consecutive and tied to the superblock, flushes start once per CP, in order and for exactly the CPs that are recorded or being flushed, no guard on a flushing CP, futures complete true only after the CP of the call is recorded |
| Checkpoint.FlushStartsUnguarded | src/lib/checkpoint/cp_mgr.cpp:184-190 | when a flush starts nothing holds the CP, nothing is about to enter it, and it was never flushed before |
| Checkpoint.JournalReplayedIff | src/lib/checkpoint/cp_mgr.cpp:112-117 | on restart a persisted journal carries the id of the first CP exactly when its CP was not recorded as flushed |
| Checkpoint.StepIsCycle | src/lib/checkpoint/cp_mgr.cpp:201-331 | the machine refines a simple cycle of phases of the previous CP |
| Checkpoint.GuardHolds | src/lib/checkpoint/cp_mgr.cpp:382-414 | a guard holds the current CP or one being prepared |
| DeferredFree.StepKeeps | src/lib/device/virtual_dev.cpp:343-368 | each block is free, in use or on one free list; unwritten buffers, also those of nodes freed meanwhile, belong to the node that owns their block; a list is applied exactly when the code applies it |
| DeferredFree.RunKeeps | src/lib/device/virtual_dev.cpp:740-769 | the same after every run with the checkpoint machine |
| DeferredFree.FreedBlocksAreSafe | src/lib/index/wb_cache.cpp:95-125 | from any start: a block freed in CP n is overwritten by a new node only after the superblock records CP n; no write of an older buffer hits a block given to another node |
| DeferredFree.FreeListIff | src/lib/index/wb_cache.cpp:840-850 | the blocks freed in a recorded CP were given back exactly when the CP had a dirty buffer, of a node or of a table superblock, or is CP 0; otherwise they are neither free nor in use |
| DeferredFree.ListDropped | src/lib/index/wb_cache.cpp:840-850 | a run in which a freed block is never given back |
| VirtualDevs.VirtualDev.FreeBlk | src/lib/device/virtual_dev.cpp:343-368 | pieces are appended to the CP's list in order, or freed at once; never both |
| VirtualDevs.VirtualDev.CpFlush | src/lib/device/virtual_dev.cpp:740-769 | exactly the listed blocks become free |
| CacheIsolation.StepKeeps | src/lib/index/wb_cache.cpp:169-198 | every write, copy, free, load, eviction, pick and completion keeps the isolation invariant |
| CacheIsolation.IsolationRun | src/lib/index/wb_cache.cpp:169-198 | what is flushed for CP n is what was last written under CP n, whatever CP n+1 does; after the flush the disk holds it for every node not freed |
| CacheIsolation.CopiedIsPrevious | src/lib/index/wb_cache.cpp:169-198 | a non-clean buffer of an older CP was dirtied by the CP directly before, and a flushing buffer is never written |
| CacheIsolation.ListedOnce | src/include/homestore/index/index_table.hpp:296-322 | when a flush is prepared the dirty list holds exactly the CP's dirty buffers, each once |
| CacheIsolation.DoneMeans | src/lib/index/wb_cache.cpp:944-978 | once the flush is done every node changed in the CP is on disk as it was left |
| CacheIsolation.LoadsLatest | src/lib/index/wb_cache.cpp:145-167 | a node read from disk, after any writes, flushes and evictions, is the newest version any CP wrote |
| TxnJournal.RecRoundTrip | src/lib/index/index_cp.hpp:36-96 | what the one-byte index reads of a record, whatever follows; it is the record exactly when the ids behind the first 256 repeat those before, so always up to 256 ids |
| TxnJournal.ReadsBackIff | src/lib/index/index_cp.hpp:93-96 | every record of n ids is read back exactly when n is at most 256 |
| TxnJournal.ParsesBack | src/lib/index/index_cp.cpp:232-252 | the journal parses to its CP id and its records as they are read; to exactly the appended records exactly when each of them reads back |
| TxnJournal.NeverOverrunsIff | src/lib/index/index_cp.hpp:62-63 | records of n ids always fit the buffer made for them exactly when n is at most 255 |
| TxnJournal.WriteRec | src/lib/index/index_cp.hpp:64-92 | header and ids written one by one give the encoded record, in bounds |
| TxnJournal.TxnJournalBuf.Create | src/lib/index/index_cp.cpp:34-39 | an empty 512-byte journal of the CP |
| TxnJournal.TxnJournalBuf.Reserve | src/lib/index/index_cp.cpp:41-46 | contents kept, length as computed for the record |
| TxnJournal.TxnJournalBuf.AddToTxnJournal | src/lib/index/index_cp.cpp:28-65 | the writes stay in bounds exactly when the record fits the room made for its one-byte count, so always up to 255 ids; the buffer parses to all records exactly when each of them reads back; its new length |
| TxnJournal.RecoveredFromBytes | src/lib/index/index_cp.cpp:232-328 | from the bytes of a journal of any tables: the records come back exactly when each reads back, and then every surviving buffer ends below its nearest surviving ancestor, a displaced root below the parent passed in |
| TxnJournal.FirstIsFreed | src/lib/index/index_cp.cpp:384-404 | replaying a record without a superblock parent whose 257th id is that of a freed node marks its first node as freed, from any state |
| TxnJournal.JournaledButMisread | src/lib/index/index_cp.cpp:28-65 | after two records of 255 ids one of 257 ids finds room, is appended, and is read as another record |
| Journal.AllocKeeps | src/lib/device/journal_vdev.cpp:256-295 | any allocation keeps the window invariant, returns the tail after a possible new chunk, stays in one chunk, never meets "No space" |
| Journal.AllocGrows | src/lib/device/journal_vdev.cpp:208-254 | a group that does not fit leaves a hole and starts a chunk at the old end |
| Journal.AllocFits | src/lib/device/journal_vdev.cpp:279-295 | a group that fits extends the last chunk |
| JournalRead.AllocAppends | src/lib/device/journal_vdev.cpp:256-295 | an allocation adds its offset and size behind the live groups and moves none |
| JournalRead.ReaderAgrees | src/lib/device/journal_vdev.cpp:500-528 | dev_offset of the bytes of the first i groups is the offset given to group i+1, or the tail |
| JournalTruncate.ChunkIn | src/lib/device/journal_vdev.cpp:725-741 | an offset of the window lies in the chunk and at the place that offset_to_chunk gives |
| JournalTruncate.ReleasedIff | src/lib/device/journal_vdev.cpp:629-649 | the release test holds exactly for chunks whose data ends at or below the offset, and these are a prefix |
| JournalTruncate.TruncateWindow | src/lib/device/journal_vdev.cpp:569-687 | the end never moves; the tail is kept exactly below the tail and outside holes |
| JournalTruncate.TruncateReleases | src/lib/device/journal_vdev.cpp:629-662 | exactly the chunks with data below the offset go; the others keep order and place |
| JournalTruncate.TruncateSizes | src/lib/device/journal_vdev.cpp:530-545 | the size equation that update_data_start_offset asserts |
| JournalTruncate.TruncateList | src/lib/device/journal_vdev.cpp:605-608 | the list on disk equals the list in memory, with one head |
| JournalTruncate.TruncateToGroup | src/lib/device/journal_vdev.cpp:569-687 | truncation to a live group: invariant, later groups keep their offsets, tail and end unmoved |
| JournalTruncate.TruncateToTail | src/lib/device/journal_vdev.cpp:569-687 | truncation to the tail empties the journal at the next chunk |
| JournalTruncate.TruncateToHole | src/lib/device/journal_vdev.cpp:590-604 | truncation to the start of a hole is truncation to the next chunk |
| JournalRun.AppendHolds | src/lib/device/journal_vdev.cpp:311-326 | a group that is reserved and written at once adds its bytes to the live data and disturbs no other |
| JournalRun.ReserveHolds | src/lib/device/journal_vdev.cpp:256-295 | a reservation adds what the device holds at its place and changes no group |
| JournalRun.WriteHolds | src/lib/device/journal_vdev.cpp:311-326 | a write to any reserved group replaces its bytes and no other |
| JournalRun.WriteKeeps | src/lib/device/journal_vdev.cpp:351-371 | reservations may be written in any order: the size never exceeds what is reserved, as pwrite asserts |
| JournalRun.WrittenOnce | src/lib/device/journal_vdev.cpp:351-371 | what is written to a group stays its contents for the rest of the run |
| JournalRun.TruncateKeeps | src/lib/device/journal_vdev.cpp:569-687 | truncation to a group or the tail drops exactly the earlier groups' bytes |
| JournalRun.RunKeeps | src/lib/device/journal_vdev.cpp:208-295 | after every run of reservations, writes and truncations: ranges increasing and disjoint, each in one chunk, live offsets, sizes and bytes as reserved and written |
| JournalScan.ReadStep | src/lib/device/journal_vdev.cpp:395-442 | one read returns the next bytes, makes progress, and leaves the cursor where dev_offset puts it |
| JournalScan.ReadsInOrder | src/lib/device/journal_vdev.cpp:395-442 | reads of any sizes from the data start return all readable bytes in order |
| JournalScan.ReadsReturnWritten | src/lib/device/journal_vdev.cpp:395-442 | after every run such reads return the bytes of the live groups in the order they were appended |
| JournalScan.HoleCrossedTwice | src/lib/device/journal_vdev.cpp:417-440 | the cursor stays clear of the next chunk's bytes exactly when it is before the end mark |
| JournalScan.TailMoves | src/lib/device/journal_vdev.cpp:569-687 | after two reservations, truncating inside the hole moves the tail |
| JournalScan.BytesSkipped | src/lib/device/journal_vdev.cpp:417-440 | in the same journal a read on the end mark returns nothing and skips the next bytes |
| JournalVdev.JournalDescriptor.OffsetToChunk | src/lib/device/journal_vdev.cpp:725-741 | the loop finds chunk and offset, and fails exactly at or after the end |
| JournalVdev.JournalDescriptor.AppendChunk | src/lib/device/journal_vdev.cpp:208-254 | the new state is that of the theory |
| JournalVdev.JournalDescriptor.AllocNextAppendBlk | src/lib/device/journal_vdev.cpp:256-295 | offset and new state are those of the theory, the invariant holds |
| JournalVdev.JournalDescriptor.DevOffset | src/lib/device/journal_vdev.cpp:500-528 | the loop computes the translation of the theory |
| JournalVdev.JournalDescriptor.ReleaseChunks | src/lib/device/journal_vdev.cpp:629-662 | the erase loop leaves the chunks that fail the release test, their private data and size |
| JournalVdev.JournalDescriptor.UpdateDataStartOffset | src/lib/device/journal_vdev.cpp:530-545 | new start and end, with and without chunks |
| JournalVdev.JournalDescriptor.Truncate | src/lib/device/journal_vdev.cpp:569-687 | the new state is that of the theory |
| JournalVdev.JournalDescriptor.SyncNextRead | src/lib/device/journal_vdev.cpp:395-442 | -1 at the end; outside holes the bytes and cursor of the theory; without a buffer the size only; inside a hole bytes of the hole |
| JournalVdev.LoadChunks | src/lib/device/journal_vdev.cpp:98-119 | the walk from the head finds exactly the journal's chunks, in order |
| JournalVdev.FindHeads | src/lib/device/journal_vdev.cpp:83-96 | the newest marked chunk of every journal is the head of its list, also when a crash left two marked |
| JournalVdev.LoadJournals | src/lib/device/journal_vdev.cpp:72-133 | every journal gets exactly its chunks in order, and the orphans are exactly the chunks of no list |
| Blocks.FindSlabIsLeast | src/lib/blkalloc/blk_cache.h:303-308 | the smallest slab that holds n blocks |
| Blocks.RoundDownSlabIsLargest | src/lib/blkalloc/blk_cache.h:310-316 | the largest slab not larger than n, and a smaller rest |
| Blocks.RoundDownWraps | src/lib/blkalloc/blk_cache.h:310-316 | the 16-bit computation agrees with the rule exactly below 65535 |
| SlabCache.FreeBlkCacheQueue.PushSlab | src/lib/blkalloc/blk_cache_queue.cpp:311-325 | the entry is cached in one level, or every level is full and nothing changed |
| SlabCache.FreeBlkCacheQueue.PopSlab | src/lib/blkalloc/blk_cache_queue.cpp:327-342 | one entry of slab size leaves the cache, or the slab is empty |
| SlabCache.FreeBlkCacheQueue.TryFreeBlks | src/lib/blkalloc/blk_cache_queue.cpp:96-122 | every block of the run is cached or excess, once, in slab-sized pieces inside its portion |
| SlabCache.FreeBlkCacheQueue.TryFreeAll | src/lib/blkalloc/blk_cache_queue.cpp:125-134 | the same for a list of runs |
| SlabCache.FreeBlkCacheQueue.FreeResidue | src/lib/blkalloc/blk_cache_queue.cpp:190-211 | blocks beyond the request are cut off the last entry and conserved |
| SlabCache.FreeBlkCacheQueue.PopEntries | src/lib/blkalloc/blk_cache_queue.cpp:213-229 | entries taken until enough or the slab is empty |
| SlabCache.FreeBlkCacheQueue.TryAllocInSlab | src/lib/blkalloc/blk_cache_queue.cpp:182-230 | blocks conserved; Success exactly when the request is filled; contiguous never Partial and in one entry; falls short only on an empty slab |
| SlabCache.FreeBlkCacheQueue.BreakUp | src/lib/blkalloc/blk_cache_queue.cpp:232-249 | the same over all larger slabs |
| SlabCache.FreeBlkCacheQueue.MergeDown | src/lib/blkalloc/blk_cache_queue.cpp:251-262 | the same over the smaller slabs; success exactly when they hold what is missing; leaves the array exactly when it starts below the smallest allowed slab and they do not |
| SlabCache.FreeBlkCacheQueue.TryAllocBlks | src/lib/blkalloc/blk_cache_queue.cpp:57-94 | cached before equals cached after plus given out plus excess, block by block; Success exactly when the usable slabs hold enough, and then exactly the request, contiguous in one entry; otherwise all usable slabs are empty; the exact condition for staying in the slab array |
| SlabCache.LeavesSlabs | src/lib/blkalloc/blk_cache_queue.cpp:251-262 | a request for one block in pieces of four on an empty cache leaves the slab array |
| SlabCache.FreeBlkCacheQueue.FillSlab | src/lib/blkalloc/blk_cache_queue.cpp:147-166 | a prefix of the run moves into the slab |
| SlabCache.FreeBlkCacheQueue.TryFillCache | src/lib/blkalloc/blk_cache_queue.cpp:136-172 | in range exactly when the session has a requirement for the first slab tried; then exactly the first `added` blocks of the run are cached, and the session is over only when every slab is satisfied |
| SlabCache.FreeBlkCacheQueue.CreateSession | src/lib/blkalloc/blk_cache_queue.cpp:264-271 | the loop collects the needs of the slabs that need something |
| SlabCache.SessionPerSlabIff | src/lib/blkalloc/blk_cache_queue.cpp:264-271 | one requirement per slab exactly when every slab needs a refill, and then each at its slab |
| SlabCache.MissingRequirement | src/lib/blkalloc/blk_cache_queue.cpp:136-172 | two slabs, one full: the fill reads a requirement that is not there |
| VarsizeAllocator.VarsizeBlkAllocator.FreeDirect | src/lib/blkalloc/varsize_blk_allocator.cpp:697-725 | the bits, all set, are cleared, and no others |
| VarsizeAllocator.VarsizeBlkAllocator.AllocInPortion | src/lib/blkalloc/varsize_blk_allocator.cpp:594-620 | free runs inside the portion are set and handed out, the first fit first; nothing exactly when the portion has no free run of the smallest size; several pieces exactly when the first fit splits the request |
| VarsizeAllocator.VarsizeBlkAllocator.AllocDirect | src/lib/blkalloc/varsize_blk_allocator.cpp:576-637 | the same over the portions; contiguous starts with the first fit of the first portion that has a run of the smallest size, gives nothing only when none has, and several pieces exactly when that portion splits the request |
| VarsizeAllocator.VarsizeBlkAllocator.FillPortion | src/lib/blkalloc/varsize_blk_allocator.cpp:334-384 | bits set are exactly those of the blocks that went into the cache, also when the session lacks a requirement; in range with one per slab |
| VarsizeAllocator.VarsizeBlkAllocator.FreeToCache | src/lib/blkalloc/varsize_blk_allocator.cpp:670-695 | every block ends in the cache or free in the bitmap |
| VarsizeAllocator.VarsizeBlkAllocator.TrySlab | src/lib/blkalloc/varsize_blk_allocator.cpp:520-559 | one attempt: at most six pieces, the rest given back; leaves the slab array exactly when the smallest slab is above the first and the cache holds too little |
| VarsizeAllocator.VarsizeBlkAllocator.AllocSlab | src/lib/blkalloc/varsize_blk_allocator.cpp:489-574 | attempts with any sweeps between them lose no block; in range for sensible hints and full sessions, and the exact condition for others |
| VarsizeAllocator.VarsizeBlkAllocator.AllocRest | src/lib/blkalloc/varsize_blk_allocator.cpp:426-436 | direct allocation of what is missing; everything freed when a part will not do |
| VarsizeAllocator.VarsizeBlkAllocator.Alloc | src/lib/blkalloc/varsize_blk_allocator.cpp:398-449 | Success gives exactly the blocks asked for, none of them held before, each piece in a portion; a failure changes nothing a caller holds; a contiguous request fails only when no portion has a run of the smallest size; when it is split and when it leaves the slab array |
| VarsizeAllocator.SeveralPieces | src/lib/blkalloc/varsize_blk_allocator.cpp:576-637 | two allocations and a free, after which a contiguous request comes back in two pieces although a free run is long enough |
| VarsizeAllocator.VarsizeBlkAllocator.Free | src/lib/blkalloc/varsize_blk_allocator.cpp:660-668 | exactly the freed blocks are no longer held; the count follows |
| VarsizeAllocator.SmallPieceIsOk | src/lib/blkalloc/varsize_blk_allocator.cpp:495-498 | requests not smaller than their smallest piece keep the slab search in range |
| VarsizeAllocator.AnyRun | src/lib/blkalloc/varsize_blk_allocator.cpp:398-725 | after any allocations, frees and sweeps from a fresh start each block is free, cached or held by one caller, pieces stay in portions, the count is that of the held blocks; the run leaves an array only at an operation with too large a smallest piece or too short a session |
| Crc32.ShiftLow | src/lib/crc.cpp:35-38 | the lower half of the 64-bit remainder shifts like a 32-bit one |
| Crc32.Crc32Ieee | src/lib/crc.cpp:27-41 | the byte and bit loops compute the CRC as defined |
| Crc32.Chained | src/lib/crc.cpp:27-41 | seeding with the CRC of a first part gives the CRC of the whole |
| Crc32.DetectsByte | src/lib/crc.cpp:27-41 | changing one byte changes the CRC |
| LogLayout.SlotRoundTrip | src/lib/logstore/log_dev.hpp:71-91 | a slot is decoded again, offset and inlined bit apart |
| LogLayout.ResetInv | src/lib/logstore/log_group.cpp:45-59 | a reset group satisfies the layout invariant |
| LogLayout.AddKeeps | src/lib/logstore/log_group.cpp:75-114 | a new record is found through its slot and all earlier ones still are, also when the buffer grows |
| LogRead.HeaderRoundTrip | src/lib/logstore/log_dev.hpp:126-152 | the header is decoded again, whatever follows |
| LogRead.ChainIsWhole | src/lib/logstore/log_group.cpp:168-177 | the CRC chained over the pieces is the CRC of the whole group |
| LogRead.PiecesShape | src/lib/logstore/log_group.cpp:120-153 | every piece lies in its buffer, the sizes add up to the group size, the footer lies inside |
| LogRead.ReadsHeader | src/lib/logstore/log_dev.cpp:352-371 | the reader's checks accept every record of a finished group, CRC included |
| LogRead.ReadBack | src/lib/logstore/log_dev.cpp:303-331 | every record of a finished group is read back, whatever follows on the device |
| LogRead.GroupRoundTrip | src/lib/logstore/log_group.cpp:45-177 | from reset to read for any non-empty batch, inline and out of band, with any growth |
| LogRead.DamageDetected | src/lib/logstore/log_dev.cpp:364-370 | one changed byte in a group of the first read's size is not accepted for any index |
| LogGroups.ComputeCrc | src/lib/logstore/log_group.cpp:168-177 | the loop over the pieces computes the CRC of the whole |
| LogGroups.LogGroup.constructor | src/lib/logstore/log_group.cpp:26-59 | start and reset give the reset group |
| LogGroups.LogGroup.CreateOverflowBuf | src/lib/logstore/log_group.cpp:61-73 | a larger buffer with the old contents first |
| LogGroups.LogGroup.Place | src/lib/logstore/log_group.cpp:92-110 | slot and data written in bounds |
| LogGroups.LogGroup.AddRecord | src/lib/logstore/log_group.cpp:75-114 | the new group is that of the theory, or false when full |
| LogGroups.LogGroup.AddFooter | src/lib/logstore/log_group.cpp:155-166 | the footer goes to its own buffer or behind the inline data, as the size test says |
| LogGroups.LogGroup.Finish | src/lib/logstore/log_group.cpp:120-153 | the buffers to write are the finished group of the theory |
| ReadTracker.SharedBlock | src/lib/blkdata_svc/blk_read_tracker.cpp:31-33 | runs that share a block share a record |
| ReadTracker.KeysDistinct | src/lib/blkdata_svc/blk_read_tracker.cpp:37-66 | a run touches each of its records once |
| ReadTracker.StepKeeps | src/lib/blkdata_svc/blk_read_tracker.cpp:27-89 | every record access of every operation keeps the tracker invariant |
| ReadTracker.CountsRun | src/lib/blkdata_svc/blk_read_tracker.cpp:40-57 | in every state a record's count is the number of reads that hold it, and there is no other record |
| ReadTracker.CallbackRun | src/lib/blkdata_svc/blk_read_tracker.hpp:28-90 | for frees of any number of pieces: a callback runs at most once, not before every read under way at its start that shares a block with any of the pieces is over, and has run once no read holds anything |
| ReadTracker.BlkReadTracker.Merge | src/lib/blkdata_svc/blk_read_tracker.cpp:27-73 | the loop applies the operation to every record of the run in order |
| ReadTracker.BlkReadTracker.WaitOn | src/lib/blkdata_svc/blk_read_tracker.cpp:79-89 | one waiter is attached to the records of all pieces in order |
| TopologicalSort.CountDegrees | src/lib/common/homestore_utils.cpp:89-98 | an entry for every vertex with its in-degree, repeated edges counted |
| TopologicalSort.InitialQueue | src/lib/common/homestore_utils.cpp:100-103 | the queue holds exactly the vertices without incoming edges |
| TopologicalSort.TakeEdges | src/lib/common/homestore_utils.cpp:111-114 | queued and processed vertices are exactly those of in-degree zero, edges forward |
| TopologicalSort.Sort | src/lib/common/homestore_utils.cpp:84-118 | true exactly when the graph has a cycle; otherwise every vertex once, all edges forward |
| TopologicalSort.ForwardNoCycle | src/lib/common/homestore_utils.cpp:116-117 | a forward list of all keys rules out cycles |
| TopologicalSort.StuckHasCycle | src/lib/common/homestore_utils.cpp:116-117 | keys left over contain a cycle |

## Left out

- Device I/O, fibers, reactors, futures and timers: only the order of steps they impose is kept.
- B-tree nodes and their repair during recovery: the B-tree code is not part of this model.
- HomeLogStore, the log stream reader and the choice of a log tail during recovery are not part of this model.
- Crash points inside the release of journal chunks and between it and the persistence of log metadata; what init finds after them is covered as far as JournalVdev.LoadJournals says.
- The allocator's recovery counter, the on-disk bitmap, segments and the sweep thread's timing: sweeps come at any time and over any portions.
- AppendBlkAllocator, chunk selectors, the resource manager, metrics, configuration arithmetic and the CP watchdog: easy or configuration claims.
- Replication, meta service, startup and shutdown wiring.
- Integers are unbounded unless a width is part of the claim: record counts, slot and header fields, record ids and the CRC remainder have their widths, counters do not wrap.
- The two slab lookup tables are represented by the rule they tabulate.
- Node memory is modelled as a value per buffer; mutating a node and adding its buffer to the dirty list are one step.
- FlushGraph.FlushRun: one flush fiber, or picking and marking a buffer as one step; FlushFibers.FibersRun is the theorem without that.
- DeferredFree.FreedBlocksAreSafe: runs between crashes, each from the blocks and nodes a restart finds; what recovery does to the allocator depends on node contents and is not modelled. The same holds for DeferredFree.FreeListIff.
- CacheIsolation.IsolationRun: runs without crashes, starting from an empty cache over any disk.
- WbCache.IndexBuffer: the list of down buffers kept for debugging is not modelled, and buffers are identified by numbers in a registry.
- Replay.JournalRebuilds: every transaction names buffers of the checkpoint in the order its B-tree change implies (parents above children, new nodes not announced before, freed nodes not freed before). The free of the old root in a root collapse (src/include/homestore/btree/detail/btree_remove_impl.ipp:231) and the frees of a table that is destroyed (src/include/homestore/btree/detail/btree_common.ipp:92) appear in no record, so the old root counts as surviving here.
- Replay.RecoveredGraph: the two assertions of sanityCheck about table ordinals and superblock buffers, which the graph does not carry.
- TxnJournal.TxnJournalBuf.AddToTxnJournal: a journal below 4 GiB and at most 255 new and 255 freed ids, as the source asserts; where the code would write behind the buffer the model stops. The padding bytes of an id are zero.
- JournalRun.RunKeeps: truncation is to a live group or the tail; other offsets are covered by JournalTruncate.TruncateWindow and JournalTruncate.TruncateReleases. A group is written whole and once.
- JournalVdev.JournalDescriptor.SyncNextRead: sizes below 2^63, so that the wrapped distance inside a hole is always the larger one.
- JournalVdev.LoadJournals: the lists on disk are sound (each journal one list that ends in 0, its newest marked chunk first); giving the orphans back to the pool is not modelled.
- VarsizeAllocator.VarsizeBlkAllocator.Alloc: portion locks are not modelled; after a step outside an array nothing is promised.
- SlabCache.FreeBlkCacheQueue.TryFillCache: the exchange of session ids between two sessions at once is not modelled.
- SlabCache.FreeBlkCacheQueue.TryFreeBlks: runs of any length by the rule of the round-down slab; Blocks.RoundDownWraps says where 16 bits differ.
- SlabCache.FreeBlkCacheQueue.TryAllocBlks: a fresh response object, as the allocator resets it before each attempt.
- LogRead.GroupRoundTrip: groups below 2 GiB, the range of the 31-bit offset; the CRC loop's 32-bit index bounds the piece sizes it is used with.
- LogRead.ReadBack: the first read returns what the chunk holds from the group's offset on.
- ReadTracker.BlkReadTracker.Merge: removing from a missing record, which the code asserts against, leaves the records alone; the waiters' callbacks are counted in the state machine, not in the object.
- TopologicalSort.Sort: the output list is empty at the call, as the promise requires; the order in which equal candidates are taken is arbitrary.
