# Models of the nanoCLR runtime

The nanoCLR is the interpreter core of nanoFramework. This project models its memory system, a mark, sweep and
compact collector over a hand-built block allocator, and the self-contained runtime pieces around it that carry
hard invariants, and proves what each of them promises. `dafny verify dfyconfig.toml` checks everything.

How the parts fit together:

- **Heap.** `HeapModel` describes the payload of a cluster as an array of cells in which blocks lie end to end.
  `HeapCluster` is the allocator: its free list is exactly the free blocks in address order, no two adjacent.
- **Collector.** `Marking` is the marker with its bounded stack that drops work when it cannot grow, the rescan
  that makes up for it, and the root scan with finalizers. `WeakDelegates` says what becomes of the entries of weak
  delegate lists, one after the other, and `Collection` adds weak references, the sweep and a whole collection.
  `OneOfEachKind` follows all of it through one heap.
- **Compactor.** `Relocation`, `CompactionSteps`, `Compaction`, `Settling` and `Compactor` are the relocation table,
  one move, one batch of moves and its flush, when the loop moves anything, and the loop. `Layouts` states what the
  loop makes of a heap seen as a list of free, movable and pinned tiles, and `OpenRegions` when that leaves a region
  that could still be filled; `HeapLayout`, `LayoutSteps` and `LayoutMoves` prove that the loop on the heap does just
  that, and `CompactionResult` says what it means for the heap. `CollectAndCompact` runs event-cache cleanup,
  collection and compaction one after the other on one heap.
- **Caches.** `Rings` (rings of links in a flat array), `LruCache` (what a least-recently-used cache is),
  `TypeSystem` (the slow lookup) and `VirtualMethodTable` (the cache that must agree with it). `EventCache` is
  the pool of event blocks by size class, on the same heap model.
- **Streams.** `Bits` and `BitStream`: bit fields over a chain of fixed-size buffers.
- **Protocols.** `WaitForObject` (events and waits) and `Locks` (recursive monitors with hand-over), as steps over
  whole runs, and as objects updated in place that refine those steps.
- **Conversions.** `SystemTime` (calendar arithmetic), `UnicodeHelper` (UTF-16 and UTF-8), `DelegateLists`
  (multicast delegates).

Code that changes state is a class or a method on arrays, proved against functions and predicates on values; the
theorems are lemmas about those, or the contracts of the outermost methods.

What the proofs show to be false in general, with the exact condition under which it holds:

- A compaction can leave a free region into which the next movable block above it would fit. The four cells free,
  unmovable, movable, movable are an example (`CompactionResult.ExampleStaysOpen`), and one of a family
  (`OpenRegions.PlaceStaysOpen`). It happens if and only if in some turn of the loop, followed on the layout the heap
  has at the start, a hop fills its region exactly and leaves a place that the next movable block touches or fits
  into (`CompactionResult.LeftOpenExactly`; the guard is `OpenRegions.GivesUp`). With no unmovable block above the
  lowest free one it never does: one free block is left, at the upper end (`CompactionResult.CompactsFully`).
- The count of bits written is too large by eight for each attempt to get a buffer that has failed since a bit was
  last written; a write that succeeds makes good (`BitStream.MemoryStream.BitsWrittenIs`,
  `BitStream.MemoryStream.WriteBits32`).
- The owner shortcut of the method cache differs from the slow lookup exactly if an earlier concrete method of the
  class has the signature of the one asked for and the name tried first (`VirtualMethodTable.ShortcutAgrees`,
  `VirtualMethodTable.ShortcutDiffers`). For a class only malformed metadata, with two methods of one name and one
  signature in one type, gets there (`TypeSystem.OwnMethodOfClass`).
- One correction of the year suffices exactly while few enough leap days have piled up: on every day before
  31 December 3112, and not on that day (`SystemTime.OneCorrection`, `SystemTime.SupportedUntil3112`); fields such as
  31 February are accepted but do not come back (`SystemTime.RoundTripExactly`).
- Decoding UTF-8 gives back only texts without surrogates: the base that encoding adds for a pair is not
  subtracted again (`UnicodeHelper.DecodedIsText`, `UnicodeHelper.ThereAndBack`).
- Combining with, or removing, a list all of whose entries have been nulled loses the source
  (`DelegateLists.Combine`, `DelegateLists.Remove`).
- A request for no blocks at all would break the heap (`HeapCluster.CarvingNothing`); requests are for one or more.

Sizes and addresses are natural numbers. The 16-bit block size is a bound on the payload (0xFFFF cells), the 32-bit
wrap of relocation offsets is written out, and so are the 64-bit range of times and the word sizes of bit fields.

## Model

| member | source | states |
|---|---|---|
| HeapModel.EveryCellHasABlock | src/CLR/Core/CLR_RT_HeapCluster.cpp:299-337 | In a tiled payload every cell lies in one and only one block. |
| HeapModel.FreeIsNotLive | src/CLR/Core/CLR_RT_HeapCluster.cpp:299-337 | A cell is free if and only if no live block covers it, so counting free cells counts what allocation can still hand out. |
| HeapCluster.HeapCluster.HeapCluster_Initialize | src/CLR/Core/CLR_RT_HeapCluster.cpp:10-92 | A new cluster satisfies the allocator invariant (tiling; free list = free blocks in address order; no two free blocks adjacent) and all of it is free. |
| HeapCluster.HeapCluster.ExtractBlocks | src/CLR/Core/CLR_RT_HeapCluster.cpp:94-186 | Fails if and only if no free block is large enough, and then changes nothing. Otherwise the block lies at the bottom of the lowest free block with room, or, for events, at the top of the highest one; live blocks are untouched, exactly its cells stop being free, its header and its zeroing are as asked, and the invariant holds again. |
| HeapCluster.HeapCluster.Find | src/CLR/Core/CLR_RT_HeapCluster.cpp:102-129 | First fit from the low end, last fit for events, or "none" exactly if no free block fits. |
| HeapCluster.CarvingNothing | src/CLR/Core/CLR_RT_HeapCluster.cpp:132-171 | Why a request is for at least one block: carving none would write a header of size 0 past the payload or where a block begins, and the payload would not be tiled any more. |
| HeapCluster.HeapCluster.InsertInOrder | src/CLR/Core/CLR_RT_HeapCluster.cpp:258-293 | Giving a block back restores the invariant: it merges with the free neighbours it touches on either side, no live block changes, no cell outside the merged header changes, and the set of free cells is kept. |
| HeapCluster.InsertDone | src/CLR/Core/CLR_RT_HeapCluster.cpp:258-293 | The steps of an insertion, in any combination of merging upward and downward, together restore the allocator invariant and have the whole effect of giving the block back. |
| HeapCluster.HeapCluster.RecoverFromGC | src/CLR/Core/CLR_RT_HeapCluster.cpp:190-256 | A sweep keeps exactly the alive blocks, cell for cell (only the mark is cleared, and not on event blocks), turns each maximal dead run into one free block, and re-establishes the allocator invariant. |
| HeapCluster.SweepDead | src/CLR/Core/CLR_RT_HeapCluster.cpp:207-241 | Coalescing a maximal run of dead blocks into one listed free block keeps the invariant of the sweep. |
| HeapCluster.SweepEnd | src/CLR/Core/CLR_RT_HeapCluster.cpp:190-256 | A sweep that has reached the end of the payload has restored the allocator invariant and kept exactly the survivors. |
| Marking.ClosedHoldsReachable | src/CLR/Core/GarbageCollector_ComputeReachabilityGraph.cpp:39-297 | A set of blocks that holds the roots and is closed under field references holds every reachable block. |
| Marking.EdgeIs | src/CLR/Core/GarbageCollector_ComputeReachabilityGraph.cpp:185-283 | What reachability goes along, kind by kind: a block refers to every block, outside the event heap, that is named by a cell behind the header of a class instance, by an element of an array of references, by the one field of a delegate, or by an entry of a list of delegates that is not weak; and to no other. |
| Marking.Marker.ComputeReachabilityGraphForMultipleBlocks | src/CLR/Core/GarbageCollector_ComputeReachabilityGraph.cpp:39-297 | Whatever the stack refuses: only justified blocks are marked, the given list is served, and unless work was dropped every newly marked block refers to marked blocks only. A call that drops work for the first time has marked at least one new block. |
| Marking.Marker.Turn | src/CLR/Core/GarbageCollector_ComputeReachabilityGraph.cpp:55-291 | One turn of the marker keeps the agenda invariant whether the stack grows or not, and makes progress in a well-founded order. |
| Marking.Marker.MarkCell | src/CLR/Core/GarbageCollector_ComputeReachabilityGraph.cpp:162-290 | Visiting a cell marks just that cell, yields its field list (or the one target of a reference), and puts a weak delegate list on the list of reachable ones once. Which cells a field list holds is what `EdgeIs` and `Mark` say. |
| Marking.Marker.Rescan | src/CLR/Core/GarbageCollector.cpp:268-290 | A pass over the heap that drops nothing closes the marks; a pass that drops work strictly shrinks the set of unmarked blocks. |
| Marking.Marker.MarkSlow | src/CLR/Core/GarbageCollector.cpp:263-292 | Terminates with the overflow flag clear and the marks closed: every marked block is reachable and refers to marked blocks only. |
| Marking.Marker.CheckRoot | src/CLR/Core/GarbageCollector.cpp:344-379 | Marking from one more root keeps the marks justified, serves that root, and keeps the marks closed unless work was dropped. |
| Marking.Marker.Resurrect | src/CLR/Core/GarbageCollector.cpp:406-432 | Finalizable objects that are not reachable become pending and are marked with all they reach; all others stay on the list; none is lost. |
| Marking.Marker.Mark | src/CLR/Core/GarbageCollector.cpp:294-452 | Marks are exact in spite of dropped work: a managed block is marked if and only if it is reachable from the roots or from an object resurrected for its finalizer; exactly the unreachable finalizable objects may become pending; the finalizer lists are a partition of the old one. Whatever a root names is alive, and so is whatever a marked block refers to from a cell behind the header of a class instance, an element of an array of references, the field of a delegate or an entry of a strong list. |
| Marking.MarksExactFrom | src/CLR/Core/GarbageCollector.cpp:294-452 | Justified marks that hold the roots and are closed under references are exactly the reachable blocks. |
| OneOfEachKind.ChainReachable | src/CLR/Core/GarbageCollector_ComputeReachabilityGraph.cpp:185-283 | A heap with one block of each kind, each named by the one before: from its first block and its weak list everything is reachable but the delegate that the weak list holds and the object of that delegate. |
| Collection.GarbageCollector.MarkWeak | src/CLR/Core/GarbageCollector.cpp:454-493 | Keeps on the list just the weak references that are alive, in order; of these exactly those whose target is dead lose it, and no other cell changes. |
| Collection.GarbageCollector.ClearDeadDelegates | src/CLR/Core/GarbageCollector.cpp:507-531 | Entry by entry, in the order of the lists: an entry is nulled exactly if its delegate is bound to an object that is neither marked nor a delegate kept by an entry before it, and otherwise its delegate is alive from then on; nothing else changes. |
| Collection.GarbageCollector.Sweep | src/CLR/Core/GarbageCollector.cpp:497-547 | Deals with all weak entries in that way, then reclaims exactly the blocks that are not alive, and leaves the cluster in order. |
| Collection.NullStep | src/CLR/Core/GarbageCollector.cpp:467-531 | Nulling a weak cell whose keeper is dead keeps the marks closed and every weak cell already dealt with safe. |
| Collection.ReviveStep | src/CLR/Core/GarbageCollector.cpp:512-529 | Keeping a delegate because its object lives keeps the marks closed: the delegate refers to marked blocks only. |
| Collection.AliveInOrder | src/CLR/Core/GarbageCollector.cpp:454-493 | The weak references that stay on the list are those of it that are marked, all of them, in the order of the list. |
| Collection.LinkedSurvive | src/CLR/Core/GarbageCollector.cpp:454-493 | The weak references that stay on the list are exactly those that survive the sweep. |
| WeakDelegates.DecideStep | src/CLR/Core/GarbageCollector.cpp:507-531 | The turn of one entry decides it as its place in the order demands and leaves the entries decided before, and those still to come, as they were. |
| WeakDelegates.EntriesOnce | src/CLR/Core/GarbageCollector.cpp:507-511 | The entries of all reachable weak lists, one list after the other, are different cells. |
| Collection.WeakExactFrom | src/CLR/Core/GarbageCollector.cpp:454-531 | What survives beside reachable and event blocks is exactly the delegates that an entry of a surviving weak list still holds; a weak reference loses its target exactly if that does not stay; an entry is nulled exactly if the object its delegate is bound to neither stays nor is a delegate that an earlier entry has kept. |
| Collection.GarbageCollector.Heap_ComputeAliveVsDeadRatio | src/CLR/Core/GarbageCollector.cpp:802-827 | The sum over the free list is the number of free cells, in bytes. |
| Collection.CollectedFrom | src/CLR/Core/GarbageCollector.cpp:158-162 | Mark, weak processing and sweep together: what is reachable survives, nothing else does but delegates held by reachable weak lists, survivors keep header and data, weak cells are nulled only if their keeper was unreachable, and no pointer, weak ones included, dangles. `WeakExactFrom` adds the converse. |
| Collection.GarbageCollector.ExecuteGarbageCollection | src/CLR/Core/GarbageCollector.cpp:134-259 | The same for one whole collection on the real heap: the heap is collected exactly, weak references and weak lists exactly as `WeakExactFrom` says, finalizable objects all survive and are split into pending and remaining, no marks are left, the weak references kept are those that live, and the bytes returned are those of the free cells. Event blocks and whatever a root names survive; a survivor keeps the references in the cells that `EdgeIs` lists, and they name survivors; the target of a weak reference and the entries of a weak list are null or name survivors. |
| Collection.NothingNamedIsLost | src/CLR/Core/GarbageCollector.cpp:134-259 | In a collected heap event blocks, what the roots name, and what the survivors name in any cell through which they keep others alive, are live. |
| OneOfEachKind.ChainOk | src/CLR/Core/GarbageCollector.cpp:134-259 | The heap with one block of each kind is one that the collector expects. |
| OneOfEachKind.ChainCollected | src/CLR/Core/GarbageCollector.cpp:134-259 | Collected from its first block and its weak list, that heap keeps all blocks of the strong chain and the list, and loses the delegate the weak list held together with its object. |
| Relocation.LookupHit | src/CLR/Core/GarbageCollector_Compaction.cpp:408-449 | In a sound table at most one region covers an address, so whichever region a search finds gives the answer of a linear scan. |
| Relocation.RelocationTable.Search | src/CLR/Core/GarbageCollector_Compaction.cpp:423-446 | The binary search finds the region that covers an address, and misses only if none does. |
| Relocation.RelocationTable.Relocate | src/CLR/Core/GarbageCollector_Compaction.cpp:408-449 | Rewriting a pointer by bounds test, binary search and wrapped offset gives what the linear scan of the table gives. |
| Relocation.RelocationTable.AddBlock | src/CLR/Core/GarbageCollector_Compaction.cpp:300-330 | Insertion puts the region at the one place that keeps the table disjoint and ascending, and reports a full table. |
| Relocation.InsertedLookup | src/CLR/Core/GarbageCollector_Compaction.cpp:300-330 | After an insertion addresses in the new region are shifted by it, and all others are looked up as before. |
| CompactionSteps.CopiedTiles | src/CLR/Core/GarbageCollector_Compaction.cpp:218-229 | After the copy and the new free header the payload is tiled again, whether the run slid or hopped. |
| CompactionSteps.PlacedByInsertion | src/CLR/Core/GarbageCollector_Compaction.cpp:218-234 | The run at its new place with the rest of the free block given back: the allocator invariant holds, the run is there cell for cell, and every other live block is where it was. |
| CompactionSteps.VacatedBy | src/CLR/Core/GarbageCollector_Compaction.cpp:236-245 | Giving back the cells a hop has left behind removes exactly the stale copies. |
| Compaction.BatchStep | src/CLR/Core/GarbageCollector_Compaction.cpp:75-280 | One more move keeps the invariant of a batch: the table stays sound, each live block is where the table sends its old address and unchanged, every live block comes from one, none moves up, unmovable ones stay, movable ones keep their order. |
| Compaction.FlushStep | src/CLR/Core/GarbageCollector_Compaction.cpp:332-449 | Rewriting every reference through the table once turns the moves of a batch into part of the object map, across any number of flushes. |
| Compaction.SameObjectsInjective | src/CLR/Core/GarbageCollector_Info.cpp:187-320 | The map from old to new addresses never sends two live blocks to one place. |
| Compaction.EverythingCarried | src/CLR/Core/GarbageCollector_Compaction.cpp:51-290 | Every cell of a live block is found in its place at the new address, unchanged but for a reference: that names the new address of the block it named. |
| Settling.TaleSkip | src/CLR/Core/GarbageCollector_Compaction.cpp:253-257 | A free region is passed over only if the next movable block neither touches it nor fits into it. |
| Settling.StuckAcross | src/CLR/Core/GarbageCollector_Compaction.cpp:198-252 | A free region that was rightly passed over stays one that nothing can be moved into, whatever is moved later. |
| Settling.TaleMove | src/CLR/Core/GarbageCollector_Compaction.cpp:198-275 | After a move the free regions that the loop will not come to again are stuck, or are places that movable blocks have left; and the first move shows that the heap could be compacted. |
| Settling.TaleTold | src/CLR/Core/GarbageCollector_Compaction.cpp:51-290 | When the loop is done, blocks have moved if and only if in the original heap some free region could take in the next movable block above it. |
| Settling.CanCompactIs | src/CLR/Core/GarbageCollector_Compaction.cpp:99-206 | That a free region could take in the next movable block means, on the headers: it is followed, with only free blocks and blocks that are pinned or event blocks between, by a block that is neither pinned nor an event block and that touches it or is not larger. |
| Layouts.CompactedSlides | src/CLR/Core/GarbageCollector_Compaction.cpp:167-234 | Where nothing pinned lies above the first free tile, following the turns of the loop gives the movable tiles in order and then one free tile with all free space. |
| OpenRegions.OpenNext | src/CLR/Core/GarbageCollector_Compaction.cpp:154-275 | A turn leaves an open region behind exactly if one was open behind it before or it gives up a place that it could fill. |
| OpenRegions.OpenExactly | src/CLR/Core/GarbageCollector_Compaction.cpp:154-275 | A compaction leaves a region that could take in the next movable tile above it if and only if in some turn a hop fills its region exactly and leaves a place that the next movable tile touches or fits into. |
| OpenRegions.PlaceStaysOpen | src/CLR/Core/GarbageCollector_Compaction.cpp:224-245 | A family of layouts in which that happens: a free region below a pinned block, a movable block above that fills it exactly, and another right above. The place of the first stays open to the second. |
| HeapLayout.FitsUnique | src/CLR/Core/CLR_RT_HeapCluster.cpp:299-337 | In an orderly heap only one list of tiles without neighbouring free ones fits. |
| LayoutSteps.StageSkip | src/CLR/Core/GarbageCollector_Compaction.cpp:253-257 | Passing over a free region on the heap is one turn of the specification on tiles. |
| LayoutMoves.MovedLayout | src/CLR/Core/GarbageCollector_Compaction.cpp:198-245 | The layout of the heap after a slide or a hop is the one that the turn on tiles gives. |
| LayoutMoves.MoveIsTurn | src/CLR/Core/GarbageCollector_Compaction.cpp:198-275 | A move on the heap, with the free region that the loop goes on with, is one turn of the specification on tiles. |
| CompactionResult.CompactsFully | src/CLR/Core/GarbageCollector_Compaction.cpp:51-290 | With nothing pinned above the lowest free block, one free block is left, at the upper end of the heap. |
| CompactionResult.OpenIsCanCompact | src/CLR/Core/GarbageCollector_Compaction.cpp:154-196 | A heap has a free region that could take in the next movable block above it exactly if its layout has an open tile. |
| CompactionResult.LeftOpenExactly | src/CLR/Core/GarbageCollector_Compaction.cpp:51-290 | After a compaction some free region could still take in the next movable block above it if and only if, in some turn from the layout at the start, a hop fills its region exactly and leaves a place that the next movable block touches or fits into. |
| CompactionResult.ExampleStaysOpen | src/CLR/Core/GarbageCollector_Compaction.cpp:51-290 | The heap of four cells free, unmovable, movable, movable ends as movable, unmovable, free, movable: its third cell stays open to the fourth. |
| CompactionResult.EventStays | src/CLR/Include/nanoCLR_Runtime__HeapBlock.h:95 | A free cell below an event block that is not pinned: nothing can be moved, and every compaction leaves the event block where it is. |
| Compactor.Compactor.MeasureRun | src/CLR/Core/GarbageCollector_Compaction.cpp:154-196 | The run measured consists of whole movable blocks and either touches the free region or fits into it. |
| Compactor.Compactor.MoveRun | src/CLR/Core/GarbageCollector_Compaction.cpp:198-245 | One move on the real heap: the run is found cell for cell at its new place and nowhere else, every other live block is untouched, and free list and tiling are in order. |
| Compactor.Compactor.HeapRelocate | src/CLR/Core/GarbageCollector_Compaction.cpp:332-365 | A flush looks up every reference in live blocks and every engine root once, changes nothing else, and empties the table. |
| Compactor.Compactor.Turn | src/CLR/Core/GarbageCollector_Compaction.cpp:99-276 | One turn of the loop keeps the whole invariant and either moves on in the heap or moves on in the free list. |
| Compactor.Compactor.HeapCompact | src/CLR/Core/GarbageCollector_Compaction.cpp:51-290 | Terminates, with the same object graph under one map: sizes and data are kept, every pointer in heap and roots is renamed by the map, no block moves up, blocks that are pinned or of the event heap stay, the others keep their order; the allocator invariant holds, no pointer dangles, and the amount of free space is the same. The layout of the result is the one the specification computes from the layout at the start. With no unmovable block above the lowest free one, the result has one free block, and it ends where the heap ends. Blocks move if and only if some free region could take in the next movable block above it; in the result that is still so if and only if some turn gives up a place it could fill. |
| Compactor.MoveKeepsFree | src/CLR/Core/GarbageCollector_Compaction.cpp:198-245 | A move neither makes nor loses free cells. |
| Compactor.NoDangling | src/CLR/Core/GarbageCollector_Info.cpp:187-320 | A heap with the same object graph has no dangling reference if the original had none. |
| Compactor.MoveProgress | src/CLR/Core/GarbageCollector_Compaction.cpp:154-252 | A recorded move keeps the correspondence with the heap before the compaction, the count of free cells included. |
| CollectAndCompact.CollectedPointersOk | src/CLR/Core/Execution.cpp:293-294 | What a collection leaves is what the compactor expects: every reference names a live block. |
| CollectAndCompact.PointersSurvive | src/CLR/Core/Execution.cpp:293-294 | Engine pointers to rooted blocks or event blocks still name live blocks after a collection. |
| CollectAndCompact.Collect | src/CLR/Core/GarbageCollector.cpp:158-162 | Emptying the event cache and collecting, one after the other, on a heap with cached blocks: the cached blocks are reclaimed, the collection is exact, and every pointer of the heap and of the engine names a live block. |
| CollectAndCompact.Run | src/CLR/Core/Execution.cpp:293-294 | A collection, event cache first, followed by a compaction: the collection is exact, the compaction gives what it left the layout that the specification computes, without changing the object graph, and in the end no pointer in heap or engine dangles, and cache and allocator are in order. |
| Rings.UnlinkOk | src/CLR/Core/Cache.cpp:317-348 | Unlinking a slot, from whichever ring it is in or none, leaves next and prev mutual inverses in every ring and the slot in none. |
| Rings.InsertOk | src/CLR/Core/Cache.cpp:317-348 | Inserting an unlinked slot behind a head puts it first in that ring and leaves every ring well formed. |
| LruCache.HoldsMostRecent | src/CLR/Core/Cache.cpp:214-315 | For any run of lookups, a table that evicts its last entry holds, in order, the n keys looked up most recently. |
| TypeSystem.FindVirtualMethodDef | src/CLR/Core/TypeSystem.cpp:4049-4134 | For a method of an interface the answer is the first method, going up the hierarchy, whose name is the full name of the interface, a dot and the name of the method, and which is concrete and has its signature and number of arguments; only if there is none, and for other methods, the first one with the plain name; none exactly if there is none of either. |
| TypeSystem.NearestMatch | src/CLR/Core/TypeSystem.cpp:4049-4134 | It finds the match nearest to the class, and the first one within a type, and fails only if there is no match. |
| TypeSystem.ResolveAnswers | src/CLR/Core/TypeSystem.cpp:4049-4134 | The specification of the slow lookup that the cache is compared with gives just that answer. |
| TypeSystem.ExplicitFirst | src/CLR/Core/TypeSystem.cpp:4060-4075 | Asked for method M of interface I, a class with a method named M and, behind it, one named I.M answers with I.M. |
| TypeSystem.OwnMethod | src/CLR/Core/TypeSystem.cpp:4049-4134 | Asked for a method of its own, a class answers with that method exactly if no earlier concrete method of the same signature has the name that is tried first. |
| TypeSystem.OwnMethodOfClass | src/CLR/Core/TypeSystem.cpp:4049-4134 | A class whose methods differ in name, signature or number of arguments, as metadata must have it, always answers with its own method. |
| TypeSystem.TwinsDiffer | src/CLR/Core/TypeSystem.cpp:4049-4134 | In malformed metadata, a class with two concrete methods of one name and one signature answers with the first when asked for the second. |
| VirtualMethodTable.MoveEntryToTop | src/CLR/Core/Cache.cpp:317-348 | Brings a slot to the front of a ring, from another ring or from none, in place; all rings stay well formed and no other slot changes its order. |
| VirtualMethodTable.HitStep | src/CLR/Core/Cache.cpp:283-314 | A hit keeps the table sound (each slot in the chain its key hashes to, no key twice, answers as the slow lookup gives them) and makes its key the most recent one. |
| VirtualMethodTable.MissStep | src/CLR/Core/Cache.cpp:296-314 | A miss that reuses the least recently used slot, in whatever bucket that was, keeps the table sound and makes the new key the most recent one. |
| VirtualMethodTable.KeysDistinct | src/CLR/Core/Cache.cpp:181-315 | No key is held twice. |
| VirtualMethodTable.VirtualMethodTable.Initialize | src/CLR/Core/Cache.cpp:181-212 | The fresh table is sound and empty, every slot unlinked in the hash array and all slots in the recency ring. |
| VirtualMethodTable.VirtualMethodTable.Find | src/CLR/Core/Cache.cpp:281-309 | The walk of a chain finds the slot with the key, and ends at the head only if no slot of the chain has it. |
| VirtualMethodTable.VirtualMethodTable.GetNewEntry | src/CLR/Include/nanoCLR_Runtime.h:2709 | The slot to reuse is the least recently used one. |
| VirtualMethodTable.VirtualMethodTable.FindVirtualMethod | src/CLR/Core/Cache.cpp:214-315 | A class that declares the method itself answers with it; every other answer is the one of the slow lookup, and is the method that `FindVirtualMethodDef` describes; the keys held, in order of use, are those of a least-recently-used cache. |
| VirtualMethodTable.ShortcutAgrees | src/CLR/Core/Cache.cpp:248-267 | Where the owner shortcut is taken it agrees with the slow lookup if and only if no earlier concrete method of the class has the same signature and the name tried first. |
| VirtualMethodTable.ShortcutDiffers | src/CLR/Core/Cache.cpp:248-267 | On that metadata the shortcut is taken and its answer is not that of the slow lookup. |
| EventCache.EventCache.EventCache_Initialize | src/CLR/Core/Cache.cpp:354-384 | The new cache is empty and consistent with the heap. |
| EventCache.EventCache.AppendNode | src/CLR/Core/Cache.cpp:414-433 | A returned block goes to the back of the list of its size (list 0 from 40 cells on), the other lists stay as they are, and its cells, no others, become cached. |
| EventCache.EventCache.BestFit | src/CLR/Core/Cache.cpp:442-463 | The smallest cached block that is large enough and has at most five quarters of the cells asked for, the first of them; none only if there is none. |
| EventCache.EventCache.TakeCells | src/CLR/Core/Cache.cpp:467-502 | Handing out the first n cells of a cached block requeues the remainder in its own size class and touches no other block. |
| EventCache.TakenOutConserves | src/CLR/Core/Cache.cpp:435-505 | Taking n cells out of the cache leaves exactly n fewer cells cached and no more or fewer free. |
| EventCache.FromHeapConserves | src/CLR/Core/Execution.cpp:1491-1502 | A request the cache cannot serve costs the heap exactly the cells handed out. |
| EventCache.EventCache.ExtractNodeFast | src/CLR/Core/Cache.cpp:507-536 | A small request takes the oldest block of exactly that size, and asks the heap only if that list is empty. |
| EventCache.EventCache.ExtractNodeSlow | src/CLR/Core/Cache.cpp:435-505 | A large request takes the best fitting block, split to size, and asks the heap only if none fits within the limit. |
| EventCache.EventCache.ExtractNode | src/CLR/Core/Cache.cpp:544-553 | If a cached block serves the request (one of exactly that size below 40 cells, one of at most five quarters of it from 40 on) the one that came first, or the one that fits best, is handed out, and its rest goes to the back of the list of its own size, the order of all lists being kept; otherwise the lists stay as they are and the heap is asked. None is given exactly if no cached block serves and no free block is large enough. The block has the size and type asked for and is not cached; cached cells, free cells and the cells handed out add up to what they were. |
| EventCache.SmallServes | src/CLR/Core/Cache.cpp:414-433 | The cached blocks that serve a small request are exactly those in the list of its size. |
| EventCache.LargeServes | src/CLR/Core/Cache.cpp:414-433 | The cached blocks that serve a large request are exactly those in list 0 that fit. |
| EventCache.EventCache.EventCache_Cleanup | src/CLR/Core/Cache.cpp:386-410 | Empties all lists, turns exactly the cached blocks into free ones, and returns their total size. |
| Bits.ThereAndBack | src/CLR/Core/Streams.cpp:177-264 | Writing the lowest n bits of a number and reading them back gives the number modulo 2^n. |
| BitStream.MemoryStream.Create | src/CLR/Core/Streams.cpp:35-51 | A fresh stream holds no bits and has room for as many as its one buffer and the buffers there is memory for can take. |
| BitStream.MemoryStream.Rewind | src/CLR/Core/Streams.cpp:61-67 | The cursor is back at the first bit, and nothing written is lost. |
| BitStream.MemoryStream.NewBuffer | src/CLR/Core/Streams.cpp:112-130 | A new buffer is chained on without changing what has been written. |
| BitStream.MemoryStream.WriteBits32 | src/CLR/Core/Streams.cpp:230-264 | Succeeds if and only if there is room for all bits, and then appends exactly the lowest bits of the value, across bytes and buffers; otherwise it appends as many of them as there is room for, leaves no room, and the excess in the count of bits grows by eight. A bit that is written clears the excess of earlier failures. |
| BitStream.MemoryStream.WriteBits64 | src/CLR/Core/Streams.cpp:218-228 | The same for up to 64 bits, upper word first: all bits if and only if there is room for all, otherwise the first part that fits. |
| BitStream.WriteAll | src/CLR/Core/Streams.cpp:218-264 | A run of writes writes all its bits if there is room for them, and otherwise the first part that fits. |
| BitStream.MemoryStream.ReadBits32 | src/CLR/Core/Streams.cpp:177-216 | Succeeds if and only if that many bits are left, and then gives the bits at the cursor as a number and moves past them; a read that fails leaves the stream behind its last buffer. |
| BitStream.MemoryStream.ReadBits64 | src/CLR/Core/Streams.cpp:162-175 | The same for up to 64 bits, read as two words. |
| BitStream.MemoryStream.BitsWrittenIs | src/CLR/Core/Streams.cpp:148-160 | The reported count is the number of bits written plus eight for each attempt to get a buffer that has failed since a bit was last written, so it is right exactly while there is none. |
| BitStream.MemoryStream.BitsAvailable | src/CLR/Core/Streams.cpp:134-146 | The number of bits in the stream beyond the cursor. |
| BitStream.RoundTrip | src/CLR/Core/Streams.cpp:162-264 | In the concatenation of all fields written, the bits at the i-th field's offset are its value modulo 2 to its width, whatever follows. |
| BitStream.WriteThenRead | src/CLR/Core/Streams.cpp:61-264 | For any run of writes of up to 64 bits on a fresh stream, with memory for any number of further buffers: the run succeeds if and only if the widths add up to no more than the bits of all those buffers; then the count of bits is that sum, and after a rewind the same widths read back every value modulo 2 to its width. If it fails, the count is eight more than the room there was. |
| WaitForObject.TryMeans | src/CLR/Core/CLR_RT_HeapBlock_WaitForObject.cpp:60-124 | A wait ends if and only if it is satisfied. A wait for all then consumes all its auto-reset events, a wait for any only the one (the first signaled) that released it; a wait that goes on consumes none. |
| WaitForObject.NobodyMissed | src/CLR/Core/CLR_RT_HeapBlock_WaitForObject.cpp:126-144 | After a signal has been handed round, no thread is left blocked whose condition holds. |
| WaitForObject.WakeParts | src/CLR/Core/CLR_RT_HeapBlock_WaitForObject.cpp:126-144 | A signal parts the queue into those left and those woken, both in its order; a thread is woken only if the objects its wait ended with were signaled. |
| WaitForObject.NobodyLost | src/CLR/Core/CLR_RT_HeapBlock_WaitForObject.cpp:126-144 | Where a queue parts into threads left and threads woken, each thread is counted as often as before. |
| WaitForObject.LeftInOrder | src/CLR/Core/CLR_RT_HeapBlock_WaitForObject.cpp:126-144 | Those that a signal leaves in the queue keep their order. |
| WaitForObject.AutoResetWakesOne | src/CLR/Core/CLR_RT_HeapBlock_WaitForObject.cpp:126-144 | A signal of an auto-reset event wakes exactly the first thread it frees and is then reset; if it frees none, none is woken and it stays signaled. |
| WaitForObject.ManualResetStays | src/CLR/Core/CLR_RT_HeapBlock_WaitForObject.cpp:60-144 | A manual-reset event stays signaled however many threads it wakes. |
| WaitForObject.ResetBlocks | src/CLR/CorLib/corlib_native_System_Threading_WaitHandle.cpp:46-54 | A reset changes the one event and nothing else, and whoever then waits for it, alone or with all of several, is blocked. |
| WaitForObject.SetLetsGo | src/CLR/Core/CLR_RT_HeapBlock_WaitForObject.cpp:126-175 | A signal that nobody waits for lets the next one go on at once who waits for the event, and stays beyond that exactly if the event is a manual-reset one. |
| WaitForObject.NoLostWakeup | src/CLR/Core/CLR_RT_HeapBlock_WaitForObject.cpp:46-175 | In every state reached by any run of sets, resets and waits, no blocked thread has a satisfied condition. |
| WaitForObject.StepKeepsThreads | src/CLR/Core/CLR_RT_HeapBlock_WaitForObject.cpp:126-175 | A set or a reset leaves the number of times a thread is blocked plus the times it is done as it is; a wait adds one for the thread that waits. |
| WaitForObject.EveryWaitAccounted | src/CLR/Core/CLR_RT_HeapBlock_WaitForObject.cpp:46-175 | Over any run that number grows by the number of waits of the thread: no wait is lost, and none ends twice. |
| WaitForObject.QueueInOrder | src/CLR/Core/CLR_RT_HeapBlock_WaitForObject.cpp:126-175 | After any run the blocked threads stand in the order in which they asked. |
| WaitForObject.OneWaitPerSignal | src/CLR/Core/CLR_RT_HeapBlock_WaitForObject.cpp:46-175 | Over any run, the waits ended by an auto-reset event, plus its pending signal, are at most the times it was set (plus its initial signal). |
| WaitForObject.WaitSystem.TryWaitForSignal | src/CLR/Core/CLR_RT_HeapBlock_WaitForObject.cpp:60-124 | The loop over the objects, and the one that resets them, do what an attempt is specified to do. |
| WaitForObject.WaitSystem.SignalObject | src/CLR/Core/CLR_RT_HeapBlock_WaitForObject.cpp:126-144 | Setting an event is one step of the protocol and keeps "nobody blocked who could go on". The queue parts into those left, in order, and those woken, each for objects that were signaled; the event stays signaled exactly if it is a manual-reset one or nobody was woken; an auto-reset event wakes at most one; another event is reset only if it is an auto-reset one that ended a wait. |
| WaitForObject.WaitSystem.WakeThreads | src/CLR/Core/CLR_RT_HeapBlock_WaitForObject.cpp:131-143 | The walk over the waiting threads stops as soon as the event is no longer signaled. |
| WaitForObject.WaitSystem.ResetObject | src/CLR/CorLib/corlib_native_System_Threading_WaitHandle.cpp:46-54 | Afterwards the event is unsignaled and no other has changed, and this is one step of the protocol. |
| WaitForObject.WaitSystem.WaitForSignal | src/CLR/Core/CLR_RT_HeapBlock_WaitForObject.cpp:146-175 | Too many objects (more than 64) and null references are rejected without effect, in that order; otherwise the wait is one step of the protocol: over at once exactly if it is satisfied, else queued last. |
| Locks.LockKeeps | src/CLR/Core/CLR_RT_HeapBlock_Lock.cpp:143-180 | Acquiring keeps the protocol invariant: owner records belong to the owning thread, one per subthread, recursion at least 1; requests come from other threads; request counts equal queued requests; a thread waits exactly while it has one. |
| Locks.HandOverKeeps | src/CLR/Core/CLR_RT_HeapBlock_Lock.cpp:73-141 | So does handing the lock to the oldest request. |
| Locks.UnlockKeeps | src/CLR/Core/CLR_RT_HeapBlock_Lock.cpp:182-216 | So does releasing, whether or not it was the last release. |
| Locks.DestroyKeeps | src/CLR/Core/CLR_RT_HeapBlock_Lock.cpp:55-71 | So does the end of a subthread that owns the lock. |
| Locks.DropKeeps | src/CLR/Core/Execution.cpp:2292-2303 | So does withdrawing a request, wherever it stands in the queue. |
| Locks.UnlockUndoes | src/CLR/Core/CLR_RT_HeapBlock_Lock.cpp:143-216 | A release undoes the acquisition that was granted, exactly. |
| Locks.WaitsForOther | src/CLR/Core/CLR_RT_HeapBlock_LockRequest.cpp:10-28 | A waiting thread is queued on a lock that another thread owns: nobody waits for a free lock. |
| Locks.StepChanges | src/CLR/Core/CLR_RT_HeapBlock_Lock.cpp:55-216 | A lock leaves its thread exactly when the step takes away the last owner record, and then goes to the oldest request with recursion 1, or away if there is none; no other lock changes. |
| Locks.StepDoes | src/CLR/Core/CLR_RT_HeapBlock_Lock.cpp:55-216 | What each step does to its lock, spelled out on owners and queue. Acquiring takes a free lock, adds one to the record of the subthread or a new record in front, or queues a request at the back; releasing takes one off, and with the last record hands the lock over; a subthread that ends loses its record whatever its count; a withdrawal takes out the one request and keeps the order of the others. No other lock changes. |
| Locks.ReleaseIs | src/CLR/Core/CLR_RT_HeapBlock_Lock.cpp:182-216 | A release by a subthread without a record answers with the synchronization exception and changes nothing; any other succeeds. |
| Locks.ContentionStops | src/CLR/Core/CLR_RT_HeapBlock_LockRequest.cpp:10-28 | Asking for a lock of another thread stops the thread that asks, and no other; asking for any other lock stops nobody. |
| Locks.HandOverWakes | src/CLR/Core/CLR_RT_HeapBlock_Lock.cpp:73-141 | A hand-over lets the thread of the oldest request go on, and no other. |
| Locks.DropWakes | src/CLR/Core/Execution.cpp:2292-2303 | A withdrawal lets the thread of that request go on, and no other. |
| Locks.RunsKeep | src/CLR/Core/CLR_RT_HeapBlock_Lock.cpp:55-216 | The invariant holds in every state reached by any run of acquisitions, releases, ends of subthreads and withdrawals. |
| Locks.LockSystem.ChangeCount | src/CLR/Core/Thread.cpp:79-99 | Changing a request count changes it for the subthread and its thread alike, and the thread waits exactly while its count is not 0. |
| Locks.LockSystem.Lock | src/CLR/Core/Execution.cpp:2579-2595 | Taking a lock for a running thread, making it first if the resource has none, is an acquisition as specified and keeps the invariant: owners and queue change as `StepDoes` says, the answer is "waiting" exactly if another thread holds the lock, and then that thread alone stops. |
| Locks.LockSystem.CreateRequest | src/CLR/Core/CLR_RT_HeapBlock_LockRequest.cpp:10-28 | A request goes to the back of the lock's queue and its thread stops. |
| Locks.LockSystem.IncrementOwnership | src/CLR/Core/CLR_RT_HeapBlock_Lock.cpp:143-180 | The search and update of owner records in place is an acquisition as specified. |
| Locks.LockSystem.DecrementOwnership | src/CLR/Core/CLR_RT_HeapBlock_Lock.cpp:182-216 | The release in place is a release as specified and keeps the invariant: owners and queue change as `StepDoes` says; the answer is the synchronization exception exactly if the subthread has no record, and then nothing has changed. |
| Locks.LockSystem.HandOver | src/CLR/Core/CLR_RT_HeapBlock_Lock.cpp:73-141 | The hand-over in place is the one specified. |
| Locks.LockSystem.DestroyOwnerOf | src/CLR/Core/CLR_RT_HeapBlock_Lock.cpp:55-71 | The loop over the owner records gives back the record of the subthread whatever its count and keeps the others in order; if none is left the lock is handed over to the oldest request. |
| Locks.LockSystem.RemoveRecords | src/CLR/Core/CLR_RT_HeapBlock_Lock.cpp:58-65 | Records are taken out one by one in place; what is left is exactly those of other subthreads, in order. |
| Locks.LockSystem.Withdraw | src/CLR/Core/Execution.cpp:2522-2530 | A request that times out is taken out of the queue, the others keep their order, and its thread alone may go on. |
| SystemTime.DaysFollow | src/HAL/nanoHAL_Time.cpp:12-19 | Day numbers follow the Gregorian calendar: 0 on 1 January 1601, and one more on each next day, across months of 30, 31, 28 or 29 days, years and leap years. |
| SystemTime.ConvertIs | src/HAL/nanoHAL_Time.cpp:35-41 | The conversion counts 864000000000 units to a day, 36000000000 to an hour, 600000000 to a minute, 10000000 to a second and 10000 to a millisecond. |
| SystemTime.WeekdaysFollow | src/HAL/nanoHAL_Time.cpp:58 | 1 January 1601 was a Monday, and from each day to the next the day of the week goes on by one, round and round. |
| SystemTime.ConversionAscends | src/HAL/nanoHAL_Time.cpp:35-41 | One date-time is earlier than another if and only if it converts to a smaller number. |
| SystemTime.Fits63Bits | src/HAL/nanoHAL_Time.cpp:35-41 | Every date up to the year 3000 converts to a number below 2^63. |
| SystemTime.OneCorrection | src/HAL/nanoHAL_Time.cpp:59-65 | The year guessed from the day number and corrected once is right if and only if the leap days so far and the day of the year add up to less than two normal years. |
| SystemTime.SupportedUntil3112 | src/CLR/CorLib/corlib_native_System_DateTime.cpp:26-31 | That holds for every day before 31 December 3112, so for the supported range, and fails on that day. |
| SystemTime.MonthIsRight | src/HAL/nanoHAL_Time.cpp:67-79 | The month guessed from the day of the year and corrected once is right on every day of every year. |
| SystemTime.ToSystemTime | src/HAL/nanoHAL_Time.cpp:43-82 | The fields are a valid date and time that convert back to the time (less the part of a millisecond), with the day of the week that `WeekdaysFollow` describes; it undoes the conversion of any valid date-time. |
| SystemTime.RoundTripExactly | src/HAL/nanoHAL_Time.cpp:35-82 | Fields that the conversion accepts come back unchanged if and only if they are a date of the calendar and a time of day. |
| UnicodeHelper.UnicodeHelper.CountNumberOfBytes | src/CLR/Core/CLR_RT_UnicodeHelper.cpp:76-121 | The length of the UTF-8 encoding (section 3 of RFC 3629) of the text the limit leaves if it is well-formed UTF-16, and -1 if and only if it is not. |
| UnicodeHelper.Utf8Exactly | src/CLR/Core/CLR_RT_UnicodeHelper.cpp:364-467 | The bytes of a character are its encoding by the table in section 3 of RFC 3629 (lead bytes, continuation bytes, shortest form, code points up to 0x10FFFF), and nothing else is. |
| UnicodeHelper.EncodesText | src/CLR/Core/CLR_RT_UnicodeHelper.cpp:364-467 | A text has an encoding, with pairs of surrogates read as one code point, exactly if every high surrogate is followed by a low one and no low one stands elsewhere; and then it is the one the conversion writes. |
| UnicodeHelper.UnicodeHelper.ConvertToUTF8 | src/CLR/Core/CLR_RT_UnicodeHelper.cpp:364-467 | Succeeds if and only if the buffer has room for the encoding and a NUL, and then has written exactly those. |
| UnicodeHelper.UnicodeHelper.CountNumberOfCharacters | src/CLR/Core/CLR_RT_UnicodeHelper.cpp:18-74 | Of any bytes up to a NUL or a limit: the number of UTF-16 words they make, two for a lead byte from 0xF0 on and one for any other character, and -1 if and only if the walk comes to a byte that begins no character or lacks a continuation byte; it reads no byte beyond. |
| UnicodeHelper.UnicodeHelper.CountsWords | src/CLR/Core/CLR_RT_UnicodeHelper.cpp:18-74 | For the encoding of a text, or of its first characters up to a limit, the count is the number of words of the text. |
| UnicodeHelper.UpToNul | src/CLR/Core/CLR_RT_UnicodeHelper.cpp:18-74 | Whatever the bytes in front of a NUL are, the walk ends at the NUL or before it. |
| UnicodeHelper.WalkFails | src/CLR/Core/CLR_RT_UnicodeHelper.cpp:18-74 | The places the walk comes to, one character after the other, and that it fails exactly if the last of them is neither a NUL nor a legal character. |
| UnicodeHelper.UnicodeHelper.ConvertFromUTF8 | src/CLR/Core/CLR_RT_UnicodeHelper.cpp:135-325 | Writes the decoded words, with a byte budget of three per word that never runs out, and reports success exactly if no more words were asked for than there are and they fit with a NUL. |
| UnicodeHelper.DecodedIsText | src/CLR/Core/CLR_RT_UnicodeHelper.cpp:286-287 | What the decoder gives back (`ConvertFromUTF8` writes just that) is the text if and only if the text has no surrogates. |
| UnicodeHelper.DecodedAt | src/CLR/Core/CLR_RT_UnicodeHelper.cpp:260-300 | Decoding a character gives its one word, or a pair whose high surrogate is 64 too large. |
| UnicodeHelper.Decodable | src/CLR/Core/CLR_RT_UnicodeHelper.cpp:135-325 | The first byte of an encoding tells its length, and its bytes put together give back the code point. |
| UnicodeHelper.CreateInstance | src/CLR/Core/CLR_RT_HeapBlock_String.cpp:95-110 | The size counted is the size needed: a buffer one byte longer holds exactly the encoding of the standards and its NUL. |
| UnicodeHelper.Assign | src/CLR/Core/CLR_RT_UnicodeHelper.cpp:545-575 | A buffer one word longer than the count holds exactly the words of the text, high surrogates 64 too large, and a NUL. |
| UnicodeHelper.ThereAndBack | src/CLR/Core/CLR_RT_HeapBlock_String.cpp:95-110 | To UTF-8 and back, a text comes back as it was if and only if it has no surrogates. |
| DelegateLists.DelegateList.CopyAndCompress | src/CLR/Core/CLR_RT_HeapBlock_Delegate_List.cpp:27-48 | Writes the entries that have not been nulled, in order, and shortens the length by just the number of the others. |
| DelegateLists.Rebuilt | src/CLR/Core/CLR_RT_HeapBlock_Delegate_List.cpp:179-201 | A rebuilt list has exactly as many entries as were written, and none of them is null. |
| DelegateLists.CombineOne | src/CLR/Core/CLR_RT_HeapBlock_Delegate_List.cpp:100-202 | Combining with a single delegate appends it to the live ones; the weak flag is set if asked for or if a list of more than one entry had it. Memory can run out only if a list is created, which is so unless the source is empty and weak is not asked for. |
| DelegateLists.RemoveOne | src/CLR/Core/CLR_RT_HeapBlock_Delegate_List.cpp:141-202 | Without an entry of the same method and object the source is returned as it is. Otherwise the first such entry goes, with all nulled ones: of one entry null is left, of two in a list that is not weak the other one or null, else a new list with the weak flag of the old. Memory can run out only in the last case. |
| DelegateLists.LiveWithout | src/CLR/Core/CLR_RT_HeapBlock_Delegate_List.cpp:143-154 | Cutting out the first matching entry deletes the first match among the live delegates, whatever nulled entries stand between. |
| DelegateLists.LiveCut | src/CLR/Core/CLR_RT_HeapBlock_Delegate_List.cpp:143-201 | Cutting the first match out of the entries deletes the first match among the live delegates. |
| DelegateLists.DeleteFirstIs | src/CLR/Core/CLR_RT_HeapBlock_Delegate_List.cpp:143-154 | Deleting the first match takes out the first delegate with the same method and the same object, and nothing if there is none. |
| DelegateLists.LiveIs | src/CLR/Core/CLR_RT_HeapBlock_Delegate_List.cpp:27-48 | The live delegates of a list are the values of the entries that have not been nulled, all of them and in order. |
| DelegateLists.ShortListsTakeNothing | src/CLR/Core/CLR_RT_HeapBlock_Delegate_List.cpp:156-176 | Removing from a delegate, or from a list of at most one entry, never creates a list, so it cannot run out of memory. |
| DelegateLists.DeleteAppended | src/CLR/Core/CLR_RT_HeapBlock_Delegate_List.cpp:207-225 | Removing what was just appended gives the list back if no equal delegate was in it before; otherwise the earlier one goes. |
| DelegateLists.Change | src/CLR/Core/CLR_RT_HeapBlock_Delegate_List.cpp:50-205 | For a target with at least one live delegate: its live delegates are appended, or deleted one after the other; a null target returns the source; a target list with nothing left returns null; wrong types are rejected exactly where the code looks at them. It runs out of memory exactly if there is room for fewer lists than the live delegates of the target take one after the other. |
| DelegateLists.Combine | src/CLR/Core/CLR_RT_HeapBlock_Delegate_List.cpp:207-215 | The result denotes the live delegates of both in order, if and only if the added list is not dead or the source denotes nothing. Memory runs out exactly if there is room for fewer lists than there are live delegates to add (one less for an empty source, unless weak is asked for). The result is a weak list if that is asked for, and is none if neither that nor the source is. |
| DelegateLists.Remove | src/CLR/Core/CLR_RT_HeapBlock_Delegate_List.cpp:217-225 | The result denotes the source without the first match, by method and object, of each removed delegate in turn, under the same condition; memory runs out exactly if there is room for fewer lists than the removals take. A result of two entries or more is a weak list exactly if the source is. |

## Left out

- More than one heap cluster: the allocator, sweep and compaction are proved for one cluster.
- HeapCluster.HeapCluster.HeapCluster_Initialize: leaves out the salvage of serialized weak references that lie in the memory from before a restart.
- Collection.GarbageCollector.MarkWeak: leaves out serialized targets and restored weak references, which the code also keeps alive here.
- The chain of mark-stack segments and the macros that save and load it (GarbageCollector_ComputeReachabilityGraph.cpp:47-48, 99-104 re-reads the old segment): the stack has a capacity of at least one and may or may not be granted more whenever it is full.
- Field offsets inside arrays, delegates and delegate lists: the fields of every block start right after its header.
- Interior pointers, application domains, transparent proxies, reflection and binary blobs as kinds of blocks.
- `RecoverEventsFromGC`, the engine's walk over threads, assemblies and static fields: their pointers are given as roots.
- A weak delegate list that the rescan visits twice is linked twice by the code; here the reachable weak lists hold each once.
- The links of free list, weak-reference list and event-cache lists: these lists are sequences; only the rings of the method cache are modelled link by link.
- The phases of an allocation that fails (collect, then compact, then give up) and memory pressure.
- EventCache.EventCache.ExtractNode: requires at least one block; callers ask for at least the size of a structure, and a request for none would break the heap (`HeapCluster.CarvingNothing`).
- EventCache.EventCache.ExtractNodeSlow: requires at least one block, for the same reason.
- The AVL version of the method cache; the checksum that hashes a key is any function; the 512-byte buffer that truncates long names in the slow lookup.
- `Reset`, `ToArray`, `ReadArray` and `WriteArray` of the memory stream, and reading on after a read has failed without a rewind.
- Timeouts of waits and of lock requests, thread status and the order in which ready threads run; suspended threads, which the code puts at the back of the waiting list while it walks it.
- WaitForObject.OneWaitPerSignal: counts waits ended, not the order in which threads of different priority run again.
- Locks.LockSystem.CreateRequest: leaves out the failure to allocate the request, after which nothing has changed.
- Locks.LockSystem.IncrementOwnership: leaves out the failure to allocate an owner record; a new lock, or one handed over, is then left without any.
- The stack flags of synchronized methods, and the search for a lock by object.
- SystemTime.ToSystemTime: requires a supported day; on one that is not, the first of them 31 December 3112, the code can read past its month table.
- UnicodeHelper.UnicodeHelper.ConvertToUTF8: requires well-formed text and a limit that does not split a pair; moving over the input without writing is not modelled.
- UnicodeHelper.UnicodeHelper.ConvertFromUTF8: says nothing about malformed or overlong UTF-8, nor about an explicit byte limit.
- `MoveBackwardInUTF8` and the conversions for desktop builds.
- DelegateLists.Change: requires a target that is null, a delegate, a list of delegates or no object; an object of another class as target is read as a delegate by the code. Lists inside lists, and a collection in the middle of the operation, are not modelled.
- Profiling, tracing, heap validation builds and the fill patterns of debug builds.
- Native method tables, drivers, storage, networking, the debugger, the interpreter loop and the scheduler.
