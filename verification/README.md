# Verified models of a persistent-heap allocator and three message-passing programs

The repository holds a persistent-heap variant of jemalloc 2.2.5 (`hw5/p3/perm-je-0.9.7`) and
several MPI exercises. This project models the parts with the most intricate state and proves what
they are meant to guarantee. Nothing here runs the original programs; the models follow their code
branch by branch, and where code and comments differ the code decides.

Modules, from the bottom up:

- `RbTreeShape`, `RbTreeSpec`, `RbTreeLinks`, `RbTreeHeap`: the left-leaning 2-3 red-black trees of
  `rb.h`, first as one step of insert and remove on tree values, then as whole operations, then as
  writes to the links of heap nodes along an explicit path.
- `PageTiles`: the page map of a chunk and the tiling into runs that it encodes.
- `ArenaTotals`, `ArenaState`, `ArenaDirty`, `ArenaList`, `ArenaCoalesce`, `ArenaAlloc`, `ArenaPurge`,
  `ArenaTurn`, `ArenaLarge`: what each rewrite of map, trees, lists and
  counters keeps, on state values.
- `ArenaRuns`: class `Arena`, the operations on runs themselves. `Valid()` says that every page map
  encodes a gap-free tiling, that the two trees hold exactly the free runs of the chunks other than
  the spare, that neighbouring free runs with the same dirty flag do not exist, that nactive and
  both levels of ndirty are exact, and that the list of dirty chunks is right.
- `Bitmaps`, `Regind`, `SmallState`, `SmallBins`: the multi-level bitmap, pointer-to-index division,
  and class `Small`, small regions on top of an `Arena`.
- `AvailTree`: the red-black tree of nodes as a tree of free runs.
- `SizeClasses`, `RunLayout`, `AlignedSizes`, over `Division` and `PowersOfTwo`: tables and
  arithmetic that the layers above rely on.
- `ArenaBoot`: boot, from the settings to an empty arena; small allocation, from a size to a block; and
  aligned allocation, from a size to a run.
- `CuckooState`, `Cuckoo`: the cuckoo hash table against a finite map.
- `SwapLayout`, `SwapExtents`: the persistent extent allocator and its two trees over shared nodes.
- `ThreadCache`: the per-thread stack of cached objects and its flushes.
- `Barrier`, `BarrierProgress`: the hand-written barrier as interleaved steps of main and server
  threads; safety, and when the ranks get on.
- `Tficf`: the distributed word statistics and their serial specification.
- `Channels`, `Derivative`: processes over first-in first-out channels, and the parallel derivative
  against the serial one.

The allocator is modelled sequentially: one operation holds its locks from start to end. The
operating system is an oracle that grants a chunk, a table of a given size or a node, or refuses it.

Findings, each stated as a contract or lemma below:

- A failed `ckh_insert` drops an older item and keeps the new one, where there is no memory to grow.
  Without memory it cannot succeed for a key whose buckets are among full ones that no item can leave,
  in particular in a full table (`Cuckoo.Table.Insert`, `Cuckoo.Table.FifthItem`). It fails only where
  memory is refused, and with memory it succeeds at the next size at which no bucket is the first one
  of more than four keys (`Cuckoo.Table.GrowInsert`, `Cuckoo.Table.FifthItemFits`).
- `ipalloc` calls `sa2u` again on its own result; that call fails exactly if the result plus the
  alignment reaches 2^64, and `ipalloc` then goes on with a run size that the call has not set
  (`AlignedSizes.SecondCall`, `AlignedSizes.SecondCallFails`).
- The bound check of `chunk_alloc_swap` wraps around: a request with no free extent to serve it and
  with end + size at or beyond 2^64 is granted, and exactly then the invariant is lost
  (`SwapExtents.Swap.Alloc`, `SwapExtents.Swap.WrappedRequest`).
- A partly successful `arena_tcache_fill_small` leaves objects above the cached part of the stack,
  and stale slots inside; the cache holds what was allocated if and only if the stale slots hold by
  chance the same objects as those above (`ThreadCache.CacheBin.Fill`, `ThreadCache.FillWhole`), which
  for objects that were not there before means: if and only if all or nothing was allocated
  (`ThreadCache.FillFresh`).
- Ranks can wait for ever in the barrier: the message of a rank that enters again before rank 0 has
  reset its slot is lost (`Barrier.WaitsForEver`). For any number of ranks, all can be led through any
  number of barriers if and only if no message has been lost so far (`BarrierProgress.GoOnIff`); two
  steps lose one and no others (`BarrierProgress.LostStep`), and a rank that sends only after rank 0
  has returned from the round before loses none (`BarrierProgress.PatientGetsOn`).
- `bin_info_run_size_calc` tries a length and keeps the one before it, so a run that has grown at all
  misses the overhead target that it was grown for, also where the next length meets it
  (`RunLayout.RunSizeCalc`, `RunLayout.TargetMissed`); `arena.h` promises the smallest run that honours it.
- `arena_bin_lower_run` does not always leave the lowest partly used run current, as its comment says:
  a bin without a current run takes the run at hand although lower ones may be in its tree. That is the
  only way the order is lost (`SmallState.LoweredLowest`, `SmallBins.Small.Dalloc`, `SmallState.OrderLost`).
- `arena_ralloc_large_grow` compares unsigned numbers, so that a `size` below the old size makes it
  fail even where pages behind are free (`ArenaRuns.Arena.RallocLargeGrow`, `ArenaRuns.Arena.StaysShort`).

## Model

| member | source | states |
|---|---|---|
| `RbTreeShape.InsertStepBalances` | hw5/p3/perm-je-0.9.7/include/jemalloc/internal/rb.h:473-514 | One turn of the insert unwind, for every colouring: the subtree it hands up has the black height wanted, and the only fault it may still have is a red link at its top under a red link, which the next turn repairs |
| `RbTreeShape.InsertStepKeepsOrder` | hw5/p3/perm-je-0.9.7/include/jemalloc/internal/rb.h:473-514 | That turn keeps the in-order sequence of nodes |
| `RbTreeShape.RemoveStepBalances` | hw5/p3/perm-je-0.9.7/include/jemalloc/internal/rb.h:620-852 | One turn of the remove unwind, all rebalancing cases: either the missing black level is made good and the loop is done, or it is missing exactly one level further up; the nodes that a case looks at are there |
| `RbTreeShape.RemoveStepKeepsOrder` | hw5/p3/perm-je-0.9.7/include/jemalloc/internal/rb.h:620-852 | All those cases keep the in-order sequence |
| `RbTreeSpec.InsertCorrect` | hw5/p3/perm-je-0.9.7/include/jemalloc/internal/rb.h:452-519 | From a place found by key order, the whole unwind gives a tree that is ordered, left-leaning, without two red links in a row, of equal black height, with a black root, and that holds one node more |
| `RbTreeSpec.RemoveCorrect` | hw5/p3/perm-je-0.9.7/include/jemalloc/internal/rb.h:520-857 | With successor or without, pruning and unwinding gives a tree with the same five invariants, whose sequence is the old one without exactly that node |
| `RbTreeSpec.HeightBound` | hw5/p3/perm-je-0.9.7/include/jemalloc/internal/rb.h:452-477 | Height is at most twice the black height, and 2 to the black height at most the number of nodes plus one; with fewer than 2^64 nodes at most 126, so the path array is long enough |
| `RbTreeHeap.RbTree.Insert` | hw5/p3/perm-je-0.9.7/include/jemalloc/internal/rb.h:452-519 | Works on the links in place, with an explicit path: the heap again represents a valid tree, with exactly the given node added in its place |
| `RbTreeHeap.RbTree.Remove` | hw5/p3/perm-je-0.9.7/include/jemalloc/internal/rb.h:520-857 | Works on the links in place: the heap again represents a valid tree, with exactly the given node taken out; every write of the ten cases and of the successor swap is accounted for |
| `RbTreeHeap.RbTree.Search` | hw5/p3/perm-je-0.9.7/include/jemalloc/internal/rb.h:390-407 | The node with the key, or null only if there is none |
| `RbTreeHeap.RbTree.NSearch` | hw5/p3/perm-je-0.9.7/include/jemalloc/internal/rb.h:408-429 | The least node not below the key, or null only if all are below |
| `RbTreeHeap.RbTree.PSearch` | hw5/p3/perm-je-0.9.7/include/jemalloc/internal/rb.h:430-451 | The greatest node not above the key, or null only if all are above |
| `RbTreeHeap.RbTree.First` | hw5/p3/perm-je-0.9.7/include/jemalloc/internal/rb.h:316-324 | The least node, null exactly for the empty tree |
| `RbTreeHeap.RbTree.Last` | hw5/p3/perm-je-0.9.7/include/jemalloc/internal/rb.h:325-333 | The greatest node, null exactly for the empty tree |
| `RbTreeHeap.RbTree.Next` | hw5/p3/perm-je-0.9.7/include/jemalloc/internal/rb.h:334-361 | The successor of a node, found from the root |
| `RbTreeHeap.RbTree.Prev` | hw5/p3/perm-je-0.9.7/include/jemalloc/internal/rb.h:362-389 | The predecessor of a node, found from the root |
| `PageTiles.Replaced` | hw5/p3/perm-je-0.9.7/include/jemalloc/internal/arena.h:93-175 | Once the entries of some runs are rewritten and all others kept, the page map encodes the new tiling if and only if the rewritten entries do |
| `PageTiles.MarkMergedOk` | hw5/p3/perm-je-0.9.7/src/arena.c:1041-1048 | Rewriting only the outermost two sizes of two free neighbours encodes one run in their place, whatever stale entries lie inside |
| `PageTiles.MarkTrimOk` | hw5/p3/perm-je-0.9.7/src/arena.c:1124-1209 | The four boundary entries written by a trim at the head or at the tail encode two runs in place of one |
| `PageTiles.MarkGrownOk` | hw5/p3/perm-je-0.9.7/src/arena.c:2021-2058 | After growth in place the first and the last entry encode one run over both, with the joint dirty flag |
| `PageTiles.MarkPurging` | hw5/p3/perm-je-0.9.7/src/arena.c:716-750 | The loop that rewrites every entry of a dirty run leaves a clean large run and touches nothing else |
| `ArenaAlloc.AllocsApart` | hw5/p3/perm-je-0.9.7/src/arena.c:311-465 | Two allocated runs of a chunk never overlap, in any sound state |
| `ArenaRuns.NSearch` | hw5/p3/perm-je-0.9.7/src/arena.c:588-603 | Best fit: the smallest run that is large enough, the lowest of those, or none fits |
| `AvailTree.Avail.NSearch` | hw5/p3/perm-je-0.9.7/src/arena.c:218-249 | The same over a red-black tree of linked nodes |
| `AvailTree.Avail.Insert` | hw5/p3/perm-je-0.9.7/src/arena.c:218-249 | One run more in the tree |
| `AvailTree.Avail.Remove` | hw5/p3/perm-je-0.9.7/src/arena.c:218-249 | Exactly that run less in the tree |
| `AvailTree.KeyOrder` | hw5/p3/perm-je-0.9.7/src/arena.c:218-247 | The keys of the nodes order runs as the comparison does: by size, then by address |
| `ArenaRuns.Arena.constructor` | hw5/p3/perm-je-0.9.7/src/arena.c:2214-2311 | A new arena is sound, has no chunks, no active pages and nothing to purge |
| `ArenaRuns.Arena.RunSplit` | hw5/p3/perm-je-0.9.7/src/arena.c:311-465 | Carving a run off a free one keeps map, trees and counters in agreement; the rest stays free with the same dirty flag and goes into its tree |
| `ArenaRuns.Arena.ChunkAlloc` | hw5/p3/perm-je-0.9.7/src/arena.c:468-545 | The spare chunk, or a new one from the system, as one free run in its tree; nothing changes if there is neither |
| `ArenaRuns.Arena.ChunkDealloc` | hw5/p3/perm-je-0.9.7/src/arena.c:548-579 | A wholly free chunk becomes the spare and leaves its tree; the spare before it is given back with its dirty pages uncounted |
| `ArenaRuns.Arena.RunAlloc` | hw5/p3/perm-je-0.9.7/src/arena.c:582-660 | Fails exactly if no dirty run, no clean run, no spare and no new chunk will do, and then changes nothing; otherwise one more allocated run, taken from the lowest of the smallest dirty runs that fit, or else of the clean ones, or else from a whole chunk; its pages are not free any more, all others are as dirty as they were, and all invariants hold |
| `ArenaRuns.Arena.CoalesceForward` | hw5/p3/perm-je-0.9.7/src/arena.c:1019-1049 | The freed run swallows its right neighbour if that is free with the same dirty flag; what follows then does not merge |
| `ArenaRuns.Arena.CoalesceBackward` | hw5/p3/perm-je-0.9.7/src/arena.c:1051-1082 | The same to the left |
| `ArenaRuns.Arena.RunFree` | hw5/p3/perm-je-0.9.7/src/arena.c:954-1114 | Freeing makes exactly one allocated run fewer; free runs are coalesced again, the chunk becomes the spare if it is wholly free, map, trees, dirty list and counters agree |
| `ArenaRuns.Arena.RunDalloc` | hw5/p3/perm-je-0.9.7/src/arena.c:954-1121 | The same with the purge at the end: if dirty pages were freed, chunks are purged exactly as far as the bound asks for; if not, none are |
| `ArenaRuns.Arena.ChunkPurge` | hw5/p3/perm-je-0.9.7/src/arena.c:674-855 | All dirty runs of a chunk are allocated, cleaned and freed again: the allocated runs and nactive are as before, the chunk is still there and has no dirty page, and the list of dirty chunks is shorter |
| `ArenaRuns.Arena.Purge` | hw5/p3/perm-je-0.9.7/src/arena.c:857-943 | Purges the first chunks of the list that have dirty pages, in order and no others: with all but the last one of them the dirty pages would still be more than nactive >> lg_dirty_mult (or than none, when all are purged), and with the last one they are not. Every other chunk is as it was, but the spare may go back to the system. Terminates, changes no allocated run and not nactive, and returns npurgatory to 0 |
| `ArenaRuns.Arena.MaybePurge` | hw5/p3/perm-je-0.9.7/src/arena.c:662-671 | Within the bound nothing is done; beyond it the first chunks of the list are purged until the bound holds, and not one more |
| `ArenaTurn.TurnNext` | hw5/p3/perm-je-0.9.7/src/arena.c:893-942 | One more chunk, the first of the list as it is then: it had all the dirty pages that it had at the start, was not purged before, and in front of it on the first list there is only what has been purged, has no dirty pages, or went back to the system |
| `ArenaPurge.ShiftIs` | hw5/p3/perm-je-0.9.7/src/arena.c:662-671 | nactive >> lg_dirty_mult is the quotient by that power of two, rounded down |
| `ArenaRuns.Arena.PurgeAll` | hw5/p3/perm-je-0.9.7/src/arena.c:945-951 | No dirty page is left |
| `ArenaRuns.Arena.StaysBounded` | hw5/p3/perm-je-0.9.7/src/arena.c:662-671 | The bound cannot be broken by allocation: more active and no more dirty pages keep it |
| `ArenaRuns.Arena.RunTrim` | hw5/p3/perm-je-0.9.7/src/arena.c:1123-1209 | A large run keeps `keep` pages at its tail or head; the others are freed, nactive drops by exactly their number. If they were dirty or are called so, exactly they have become dirty free pages before the purge at the end, which goes as far as the bound asks for; if not, no page has |
| `ArenaRuns.Arena.RallocLargeGrow` | hw5/p3/perm-je-0.9.7/src/arena.c:1992-2066 | Fails exactly if the pages behind are not free or too few (or size is below the old size), and then changes nothing; otherwise the run has all it asked for or all there was, the pages swallowed are not free any more, all other pages are as dirty as before, and no other run changed |
| `ArenaRuns.Arena.RallocLarge` | hw5/p3/perm-je-0.9.7/src/arena.c:2072-2119 | In place or not at all: shrinking and staying always succeed, growing fails exactly if the pages behind are not free or too few (or size is below the old size); the new length is exactly what was asked for at most, or all there was. The pages cut off, and no others, become dirty free pages before the purge at the end; a failure leaves the state as it was |
| `ArenaRuns.Arena.StaysShort` | hw5/p3/perm-je-0.9.7/src/arena.c:2072-2119 | A concrete failure: in a new arena a run of two pages, to keep one at least and have three if possible, stays as it is although pages behind it are free |
| `ArenaRuns.Arena.MallocLarge` | hw5/p3/perm-je-0.9.7/src/arena.c:1466-1506 | One more large run of the size asked for, from the place that best fit chooses, or nothing changed; the dirty bound is kept |
| `ArenaRuns.Arena.DallocLarge` | hw5/p3/perm-je-0.9.7/src/arena.c:1923-1954 | Exactly that run is gone. Before the purge all its pages are dirty free pages and every other page is what it was; then chunks are purged exactly as far as the bound asks for |
| `ArenaRuns.Arena.TrimAround` | hw5/p3/perm-je-0.9.7/src/arena.c:1552-1581 | Head, aligned block and tail exactly partition the run obtained; both trims are within it |
| `ArenaRuns.Arena.Palloc` | hw5/p3/perm-je-0.9.7/src/arena.c:1544-1610 | An aligned run of exactly the pages needed and nothing else more than before: at the first aligned page of the run that best fit chooses for the over-size. No page becomes dirty; all invariants and the dirty bound hold |
| `ArenaRuns.Arena.DallocBinRun` | hw5/p3/perm-je-0.9.7/src/arena.c:1739-1794 | A small run goes back. Before the purge exactly its pages in front of `past` (all of them, if it was dirty) have become dirty free pages and every other page is what it was; the purge goes as far as the bound asks for, and afterwards the pages from `past` on are still clean |
| `ArenaDirty.BehindClean` | hw5/p3/perm-je-0.9.7/src/arena.c:1756-1772 | If of an allocated run only the front became dirty, then the pages behind it are clean after whatever purge |
| `ArenaDirty.TakenAndBack` | hw5/p3/perm-je-0.9.7/src/arena.c:1544-1610 | Taking a run and giving parts of it back, with the dirty flag it had, makes no page dirty |
| `ArenaCoalesce.FreedNotDirtier` | hw5/p3/perm-je-0.9.7/src/arena.c:716-855 | A clean run given back makes no page dirty, wherever it coalesces and whichever chunk goes: so a purge never does |
| `SmallState.NeverTouched` | hw5/p3/perm-je-0.9.7/src/arena.c:1756-1772 | The pages trimmed off as clean begin behind every region ever handed out and behind the header, and are as many as possible |
| `SmallState.WithinRun` | hw5/p3/perm-je-0.9.7/src/arena.c:2494-2495 | Every region lies inside its run, behind its header |
| `SmallState.LiveApart` | hw5/p3/perm-je-0.9.7/src/arena.c:252-272 | Any two different regions, of one run or of two, of one bin or of two, never overlap |
| `SmallState.LowerIs` | hw5/p3/perm-je-0.9.7/src/arena.c:202-211 | The order in which the runs of a bin are taken is that of their addresses |
| `SmallState.PageOfRegion` | hw5/p3/perm-je-0.9.7/src/arena.c:275-290 | The page-map entry under any address of a region leads back to the first page of its run |
| `SmallState.IndexOfRegion` | hw5/p3/perm-je-0.9.7/include/jemalloc/internal/arena.h:518-587 | Index of a region from its address, undone exactly, by the reciprocal |
| `SmallBins.Small.constructor` | hw5/p3/perm-je-0.9.7/src/arena.c:2214-2311 | No live regions, no runs, all bins empty |
| `SmallBins.Small.RegAlloc` | hw5/p3/perm-je-0.9.7/src/arena.c:252-272 | Takes the lowest unset bit, counts it in nfree, and moves nextind with it |
| `SmallBins.Small.NonfullRunGet` | hw5/p3/perm-je-0.9.7/src/arena.c:1211-1301 | The lowest partly used run of the bin, else a new run; no run of the bin with a free region is below it; fails if and only if the bin has none and the arena has no long enough free run, no spare and no new chunk; live regions are unchanged, and on failure the arena too |
| `SmallBins.Small.Malloc` | hw5/p3/perm-je-0.9.7/src/arena.c:1415-1435 | Returns a region that was not live, of the right bin, and adds exactly it to the live ones; it is the lowest free one of its run, and that run is the lowest of the bin with a free region if and only if the current run, where it has one, is below the tree. Fails if and only if every run of the bin is full and the arena can give no run, and then changes nothing but letting go of a full current run; each partly used run stays in exactly one of runcur and the tree |
| `SmallBins.Small.MallocHard` | hw5/p3/perm-je-0.9.7/src/arena.c:1304-1353 | Without a current run that has a free region: always from the lowest run of the bin with one, or a new run |
| `SmallState.LoweredLowest` | hw5/p3/perm-je-0.9.7/src/arena.c:1796-1830 | The rule that runcur is below the tree survives the insertion of a run that was full if and only if the bin has a current run or no lower one in its tree |
| `SmallState.OrderLost` | hw5/p3/perm-je-0.9.7/src/arena.c:1796-1830 | Concrete bins, in order, for which one freed region leaves runcur above a run of the tree, against the comment in the code |
| `SmallBins.Small.FreeRun` | hw5/p3/perm-je-0.9.7/src/arena.c:1712-1794 | Freeing the last region takes the run out of its bin and gives it back to the arena; of a clean run exactly the pages that regions handed out may have reached become dirty free pages, and the others are clean afterwards |
| `SmallBins.Small.Dalloc` | hw5/p3/perm-je-0.9.7/src/arena.c:1832-1870 | Removes exactly that region from the live ones. The arena is as it was, unless it was the last live region of its run: then that run goes back. The current runs stay below their trees if and only if it is not a full run, with more than one region, of a bin that has no current run but a lower one in its tree |
| `SmallBins.Small.Resolve` | hw5/p3/perm-je-0.9.7/src/arena.c:275-290 | From a bare address: page-map lookup and reciprocal division find run and index of the live region that starts there |
| `SmallBins.Small.FreePointer` | hw5/p3/perm-je-0.9.7/include/jemalloc/internal/arena.h:664-744 | Freeing the pointer of a live region frees exactly that region, with the same effect on the arena |
| `SmallState.LargeApart` | hw5/p3/perm-je-0.9.7/src/arena.c:1466-1506 | Whatever changes large runs only leaves the layer of small regions in order |
| `SmallBins.Small.LargeMalloc` | hw5/p3/perm-je-0.9.7/src/arena.c:1466-1506 | Allocating a large run of the same arena, where best fit puts it, keeps the small regions as they are, and fails exactly if the arena has no run |
| `SmallBins.Small.LargeDalloc` | hw5/p3/perm-je-0.9.7/src/arena.c:1923-1954 | So does giving one back: exactly that run is gone, and its pages are dirty free pages before the purge |
| `SmallBins.Small.LargeRalloc` | hw5/p3/perm-je-0.9.7/src/arena.c:2072-2119 | So does changing the length of one in place, with the exact condition of failure and the exact new length; the pages cut off are dirty free pages before the purge |
| `SmallBins.Small.LargePalloc` | hw5/p3/perm-je-0.9.7/src/arena.c:1544-1610 | So does aligned allocation, at the first aligned page of the run chosen |
| `SmallBins.Small.LargePurge` | hw5/p3/perm-je-0.9.7/src/arena.c:945-951 | So does a purge of all dirty pages |
| `Regind.Reciprocal` | hw5/p3/perm-je-0.9.7/include/jemalloc/internal/arena.h:543-570 | For every size in the table and every index below 2^11 the product fits in 32 bits and the shift by 21 gives the index |
| `Regind.IndexExact` | hw5/p3/perm-je-0.9.7/include/jemalloc/internal/arena.h:518-587 | For every region size and index the index is recovered: after the common shift, by table or by division |
| `Bitmaps.Bitmap.constructor` | hw5/p3/perm-je-0.9.7/src/bitmap.c:64-90 | Afterwards the bits 0 to nbits - 1 are unset and no other, padding is zero and every summary bit agrees with the group below |
| `Bitmaps.InfoInit` | hw5/p3/perm-je-0.9.7/src/bitmap.c:19-45 | Each level has one bit for each group below it, the top one a single group, and the offsets are the running totals |
| `Bitmaps.Bitmap.Full` | hw5/p3/perm-je-0.9.7/include/jemalloc/internal/bitmap.h:67-74 | True exactly if all logical bits are set, though only the root group is read |
| `Bitmaps.Bitmap.Get` | hw5/p3/perm-je-0.9.7/include/jemalloc/internal/bitmap.h:76-86 | Whether the bit is set |
| `Bitmaps.Bitmap.Set` | hw5/p3/perm-je-0.9.7/include/jemalloc/internal/bitmap.h:88-119 | Sets exactly that bit; summaries and padding are kept at every level |
| `Bitmaps.Bitmap.Sfu` | hw5/p3/perm-je-0.9.7/include/jemalloc/internal/bitmap.h:121-142 | Returns and sets the lowest unset bit, descending through the summaries |
| `Bitmaps.Bitmap.Unset` | hw5/p3/perm-je-0.9.7/include/jemalloc/internal/bitmap.h:144-179 | Unsets exactly that bit; summaries and padding are kept at every level |
| `Bitmaps.RootZero` | hw5/p3/perm-je-0.9.7/include/jemalloc/internal/bitmap.h:67-74 | A zero root group means that no bit is unset, by the summaries of all levels |
| `Bitmaps.FlipStep` | hw5/p3/perm-je-0.9.7/include/jemalloc/internal/bitmap.h:101-118 | One level up: after a flip the summary of the changed group is wrong exactly if the group went from or to zero, so the loop may stop at the first level where it did not |
| `Cuckoo.Table.constructor` | hw5/p3/perm-je-0.9.7/src/ckh.c:348-404 | Empty map; the least table that the items expected fill to three quarters, and not a smaller one |
| `Cuckoo.Table.ISearch` | hw5/p3/perm-je-0.9.7/src/ckh.c:71-90 | Finds the cell of the key if and only if it is in the map, looking in two buckets only |
| `Cuckoo.Table.TryBucketInsert` | hw5/p3/perm-je-0.9.7/src/ckh.c:93-117 | Puts the item in the first empty cell of the bucket, from a random one on, or changes nothing if it is full |
| `Cuckoo.Table.EvictRelocInsert` | hw5/p3/perm-je-0.9.7/src/ckh.c:125-191 | A chain of evictions, successful or not, conserves the multiset of the table and the item carried, every item stays in one of its two buckets, and the chain ends as the numbers drawn say: with an empty cell, or with an item that would have to go to the bucket where it began |
| `Cuckoo.Table.TryInsert` | hw5/p3/perm-je-0.9.7/src/ckh.c:194-219 | The two buckets and the chain together conserve the same multiset, and end exactly as the table, the item and the numbers drawn say |
| `Cuckoo.Table.Foretold` | hw5/p3/perm-je-0.9.7/src/ckh.c:125-219 | Whatever numbers are drawn: with an empty cell in one of the two buckets the item finds a place, and also if every item of the second bucket has its other bucket elsewhere with an empty cell; if the buckets are among some that are full of items which have nowhere else to go, it never does; in a table of one bucket it does if and only if that is not full |
| `CuckooState.RoomAtHome` | hw5/p3/perm-je-0.9.7/src/ckh.c:194-243 | If no bucket is the first one of more than four keys, and all items so far lie in their first buckets, there is room for the next one in its first bucket |
| `CuckooState.FourAreFew` | hw5/p3/perm-je-0.9.7/src/ckh.c:223-243 | At most four items have room in a table of any size |
| `Cuckoo.Table.Rebuild` | hw5/p3/perm-je-0.9.7/src/ckh.c:223-243 | Into an empty table: all items of the old one, or a failure with the count as before. A failure means that the attempt with one of the items, with some of the others in the table, ended in a cycle. If no bucket of the new table is the first one of more than four keys it succeeds |
| `Cuckoo.Table.Grow` | hw5/p3/perm-je-0.9.7/src/ckh.c:246-298 | A larger table with the same map, or on failure the very table of before, cell for cell. Fails if and only if memory is refused at some size, and at every smaller size tried an item ended in a cycle; success is at the first size where none did. With memory, and at most four items to the first bucket at the next size, it succeeds there |
| `Cuckoo.Table.Shrink` | hw5/p3/perm-je-0.9.7/src/ckh.c:301-345 | Half the table with the same map, or the very table of before. Fails exactly if memory is refused or an item ended in a cycle; with memory and at most four items to the first bucket it succeeds |
| `Cuckoo.Table.GrowInsert` | hw5/p3/perm-je-0.9.7/src/ckh.c:473-481 | Growing as often as it takes until the carried item finds a place. Fails only where memory is refused, and at no smaller size had all items surely room; with memory, and at most four items to the first bucket at the next size, it succeeds there |
| `Cuckoo.Table.Insert` | hw5/p3/perm-je-0.9.7/src/ckh.c:462-484 | On success the map has exactly the new item more; on failure exactly one item of old and new together is missing. If the first attempt finds a place the table stays; if it ends in a cycle the table grows, fails only if memory is refused before there is surely room, and succeeds at the next size if memory is granted and no bucket there is the first one of more than four keys. Without memory to grow a trapped key, in particular any key in a full table, is never stored without loss, and what a failure loses is an older item. In a table of one bucket, without memory, the call fails if and only if the bucket is full |
| `Cuckoo.Table.FullTraps` | hw5/p3/perm-je-0.9.7/src/ckh.c:125-191 | Every key is trapped in a table with no empty cell |
| `Cuckoo.Table.FifthItem` | hw5/p3/perm-je-0.9.7/src/ckh.c:462-484 | A concrete run: the fifth item for a table made for one, without memory. The call fails, the fifth item is in the table and one of the first four is not |
| `Cuckoo.Table.FifthItemFits` | hw5/p3/perm-je-0.9.7/src/ckh.c:462-484 | The same with memory for two buckets: all five are stored, whenever not all five have the same first bucket of the two |
| `Cuckoo.Table.Remove` | hw5/p3/perm-je-0.9.7/src/ckh.c:487-516 | Removes exactly the key; what it returns is what the map had. The table is halved if and only if the items left are fewer than a quarter of the cells, it is larger than at first, memory is granted and the rebuild does not end in a cycle; a failed shrink does no harm |
| `Cuckoo.Table.Search` | hw5/p3/perm-je-0.9.7/src/ckh.c:519-536 | Agrees with the map |
| `Cuckoo.Table.Iter` | hw5/p3/perm-je-0.9.7/src/ckh.c:442-459 | The next occupied cell, whose item is in the map, skipping empty ones only |
| `SwapExtents.Swap.constructor` | hw5/p3/perm-je-0.9.7/src/chunk_swap.c:241-365 | The whole region is unused |
| `SwapExtents.SzRemove` | hw5/p3/perm-je-0.9.7/src/extent.c:7-23 | The order by size and address finds and removes exactly the node |
| `SwapExtents.Swap.Move` | hw5/p3/perm-je-0.9.7/src/chunk_swap.c:117-127 | A node whose address and size are changed while it stays in the address tree leaves that tree in order; the size tree is rebuilt around it; both hold the same nodes |
| `SwapExtents.Swap.TakeFrom` | hw5/p3/perm-je-0.9.7/src/chunk_swap.c:40-58 | From a free extent that is large enough the front comes into use, and nothing else; the rest stays free where it is in the address tree |
| `SwapExtents.Swap.Recycle` | hw5/p3/perm-je-0.9.7/src/chunk_swap.c:27-67 | The front of the smallest, lowest free extent that is large enough, disjoint from all that is in use; none only if none is |
| `SwapExtents.Swap.Bump` | hw5/p3/perm-je-0.9.7/src/chunk_swap.c:81-95 | Memory at the end. A request is granted if and only if it fits or end + size reaches 2^64; in the latter case, and only then, the state is not valid afterwards |
| `SwapExtents.Swap.Alloc` | hw5/p3/perm-je-0.9.7/src/chunk_swap.c:69-98 | Both together: recycled exactly if some free extent is large enough; granted exactly if recycled or the comparison lets it pass; and allocated, free and unused addresses still partition the region if and only if it was recycled or the sum stayed below 2^64 |
| `SwapExtents.Swap.WrappedRequest` | hw5/p3/perm-je-0.9.7/src/chunk_swap.c:69-98 | A concrete request that wraps: it is granted, the end moves to 0, and an address beyond the region counts as in use |
| `SwapExtents.Swap.Record` | hw5/p3/perm-je-0.9.7/src/chunk_swap.c:101-172 | The extent is merged with both neighbours that touch it, or gets a node; fails if and only if no node can be had and none is adjacent behind |
| `SwapExtents.Swap.Dealloc` | hw5/p3/perm-je-0.9.7/src/chunk_swap.c:192-238 | Outside the region nothing happens; inside, exactly these addresses are no longer in use; as long as a node was always to be had nothing is lost, free extents do not touch each other, and none touches the end. Without a node the last addresses still go back to the end, and others are lost |
| `SwapExtents.Swap.ShrinkEnd` | hw5/p3/perm-je-0.9.7/src/chunk_swap.c:214-221 | An extent that reaches the end leaves both trees and the end moves down to its start |
| `SizeClasses.SpaceBoot` | hw5/p3/perm-je-0.9.7/src/arena.c:2617-2660 | For every setting that option parsing lets pass the boundaries of the four spacings are multiples of them and in order |
| `SizeClasses.Size2BinInit` | hw5/p3/perm-je-0.9.7/src/arena.c:2373-2431 | The table has for every eighth size the bin that the spacing in force prescribes |
| `SizeClasses.ClassIs` | hw5/p3/perm-je-0.9.7/src/arena.c:2373-2431 | The class of every size is the size rounded up to the spacing in force |
| `SizeClasses.SmallestClass` | hw5/p3/perm-je-0.9.7/src/arena.c:2373-2431 | For every size and bin: the bin is large enough exactly if it is not below the one of the table |
| `SizeClasses.ClassAligned` | hw5/p3/perm-je-0.9.7/include/jemalloc/internal/jemalloc_internal.h:527-558 | A size that is a multiple of a power of two up to the page has a class that is one too |
| `SizeClasses.RegionAligned` | hw5/p3/perm-je-0.9.7/src/arena.c:2494-2495 | Regions packed against the end of a page-aligned run are all aligned to what divides their size |
| `RunLayout.MapBias` | hw5/p3/perm-je-0.9.7/src/arena.c:2674-2695 | After three rounds the header fits in map_bias pages, and for chunks of up to 2^22 pages one page fewer would not do |
| `RunLayout.FitRegions` | hw5/p3/perm-je-0.9.7/src/arena.c:2469-2496 | As many regions as leave room for the header, and one more would not |
| `RunLayout.RunSizeCalc` | hw5/p3/perm-je-0.9.7/src/arena.c:2445-2562 | Terminates with a run between the least and the greatest size, a whole number of pages, 1 to 2^11 regions and as many as fit, header before the first region, regions up to the very end. The loop goes on past every length tried up to the result and not past the next one; a run longer than the least length misses the overhead target |
| `RunLayout.OneLayout` | hw5/p3/perm-je-0.9.7/src/arena.c:2469-2496 | The length of the run determines the number of regions and the offset of the first |
| `RunLayout.TargetMissed` | hw5/p3/perm-je-0.9.7/src/arena.c:2518-2549 | Concrete: for regions of 3840 bytes a run of 16 pages meets the target, and the one chosen is shorter and does not |
| `RunLayout.BinInfoInit` | hw5/p3/perm-je-0.9.7/src/arena.c:2565-2614 | Every bin gets a layout as the small-region layer needs it, with the region size of its class; run lengths never fall from bin to bin, and wherever they rise the target is missed |
| `ArenaBoot.Boot` | hw5/p3/perm-je-0.9.7/src/arena.c:2617-2704 | For all settings that option parsing lets pass, boot leads to a header that fits, the table of classes, a layout for every bin, an arena, and a layer of small regions in order with nothing allocated |
| `ArenaBoot.MallocSize` | hw5/p3/perm-je-0.9.7/src/arena.c:1415-1463 | From the size in bytes to a block: a region that was free, of the smallest class not below the size; its bytes lie behind the chunk header and are shared with no other live region, and the block is aligned to every power of two up to the page that divides the size. Fails exactly if the bin is full and the arena has no run |
| `ArenaBoot.IpallocRun` | hw5/p3/perm-je-0.9.7/include/jemalloc/internal/jemalloc_internal.h:701-735 | The run path of aligned allocation: with the size that sa2u gave and the run size of the second call, a run of exactly that size at a multiple of the alignment in bytes; it fails exactly if the arena has no run of the over-size, and then changes nothing |
| `RunLayout.GroupsOfInfo` | hw5/p3/perm-je-0.9.7/src/bitmap.c:48-58 | The room reserved for the bitmap is exactly what its level layout takes up |
| `AlignedSizes.Pow2Ceil` | hw5/p3/perm-je-0.9.7/include/jemalloc/internal/jemalloc_internal.h:486-501 | For every word: the least power of two not below it, or zero if there is none |
| `AlignedSizes.Sa2uSmall` | hw5/p3/perm-je-0.9.7/include/jemalloc/internal/jemalloc_internal.h:545-558 | Up to a page: the size rounded up to the alignment, and then to the least region size, or beyond the region sizes to the least multiple of the page; it is aligned and at most arena_maxclass |
| `AlignedSizes.Sa2uOverflows` | hw5/p3/perm-je-0.9.7/include/jemalloc/internal/jemalloc_internal.h:545-558 | A size that rounds up to the alignment beyond 2^64 gives zero |
| `AlignedSizes.Sa2uLarge` | hw5/p3/perm-je-0.9.7/include/jemalloc/internal/jemalloc_internal.h:559-609 | Beyond a page: zero exactly if an intermediate sum overflows, otherwise the over-size run, written out, and the size in pages or chunks |
| `AlignedSizes.RunHasRoom` | hw5/p3/perm-je-0.9.7/include/jemalloc/internal/jemalloc_internal.h:559-609 | If the over-size run fits in a chunk it contains an aligned block of the size, wherever it starts: the premise of the aligned run allocation |
| `AlignedSizes.HugeHasRoom` | hw5/p3/perm-je-0.9.7/include/jemalloc/internal/jemalloc_internal.h:559-609 | Whenever sa2u gives a nonzero size for an alignment beyond the chunk size, that size is a whole number of chunks and leaves room for the alignment below 2^64: the premise of the aligned allocation of chunks |
| `AlignedSizes.SecondCall` | hw5/p3/perm-je-0.9.7/include/jemalloc/internal/jemalloc_internal.h:701-735 | The second call, on the result of the first, gives the same result if and only if result plus alignment is below 2^64; otherwise zero |
| `AlignedSizes.SecondCallFails` | hw5/p3/perm-je-0.9.7/include/jemalloc/internal/jemalloc_internal.h:701-735 | A size and an alignment for which the first call succeeds and the second does not |
| `AlignedSizes.HugeTrim` | hw5/p3/perm-je-0.9.7/src/huge.c:66-130 | The chunks obtained always contain an aligned block of the rounded size; head, block and tail partition them, in whole chunks |
| `AlignedSizes.HugePalloc` | hw5/p3/perm-je-0.9.7/src/huge.c:66-130 | For every size and every alignment beyond the chunk size for which sa2u is not zero: an aligned block of exactly the size sa2u gave, with head and tail in whole chunks |
| `ThreadCache.FlushAll` | hw5/p3/perm-je-0.9.7/src/tcache.c:54-140 | The order in which the passes free objects is a permutation of them: each is freed exactly once |
| `ThreadCache.CacheBin.FlushPass` | hw5/p3/perm-je-0.9.7/src/tcache.c:70-125 | One pass frees all pending objects of the first one's arena, keeps the others in order at the bottom, and is left with fewer |
| `ThreadCache.CacheBin.FlushPasses` | hw5/p3/perm-je-0.9.7/src/tcache.c:54-140 | The passes end, and together free the pending objects in exactly that order |
| `ThreadCache.CacheBin.Flush` | hw5/p3/perm-je-0.9.7/src/tcache.c:54-223 | All but the top `rem` objects are freed, each to its own arena; those stay in order; low_water is the least level since the last collection |
| `ThreadCache.CacheBin.AllocEasy` | hw5/p3/perm-je-0.9.7/include/jemalloc/internal/tcache.h:236-250 | Pops the top. The level becomes one lower, or counts as -1 when the cache is empty, and low_water is the minimum of what it was and that level |
| `ThreadCache.CacheBin.Dalloc` | hw5/p3/perm-je-0.9.7/include/jemalloc/internal/tcache.h:340-386 | Pushes; a full cache is first flushed down to half, each object to its own arena, and low_water follows |
| `ThreadCache.CacheBin.Collect` | hw5/p3/perm-je-0.9.7/include/jemalloc/internal/tcache.h:176-233 | Three quarters of the objects below the low-water mark are flushed. The fill count is halved if some lay below it and at least one object remains to fill, doubled if the cache ran empty, and kept otherwise; the mark starts anew |
| `ThreadCache.CacheBin.Fill` | hw5/p3/perm-je-0.9.7/src/arena.c:1372-1413 | As many objects are asked for as the fill divisor says. All slots of the stack afterwards: the objects allocated at the top of the room, first one highest, and everything else as before; the cached ones are the lowest |
| `ThreadCache.CacheBin.WantedIs` | hw5/p3/perm-je-0.9.7/src/arena.c:1372-1413 | What is asked for is the size of the cache divided by that power of two |
| `ThreadCache.FillWhole` | hw5/p3/perm-je-0.9.7/src/arena.c:1392-1411 | For all inputs: the cache holds exactly the objects allocated if and only if the slots that an incomplete fill leaves unwritten happen to hold the same objects as the ones it puts above the cached part, counted with multiplicity |
| `ThreadCache.FillFresh` | hw5/p3/perm-je-0.9.7/src/arena.c:1392-1411 | So where the objects allocated are not those that lay in the slots before: if and only if all that were wanted were allocated, or none. Otherwise the first one allocated is in no cached slot, and what lay in the lowest slot before is |
| `Barrier.RunInv` | hw2/q1_submit/my_mpi.c:130-262 | The invariants of all links and ranks hold after every interleaving of main and server threads, for any number of ranks and rounds |
| `Barrier.AnswerAwaited` | hw2/q1_submit/my_mpi.c:183-262 | While an answer of rank 0 is on its way or being handled its receiver is waiting, with its flag up, so no answer is dropped or taken for data |
| `Barrier.Safe` | hw2/q1_submit/my_mpi.c:392-448 | No rank returns from its k-th barrier before every rank has entered its k-th |
| `Barrier.WaitsForEver` | hw2/q1_submit/my_mpi.c:392-448 | Not every interleaving goes on: a run of two ranks after which both are in their second barrier and no step, and no further run, changes anything |
| `BarrierProgress.LostStep` | hw2/q1_submit/my_mpi.c:183-262 | The messages of a rank that have got lost never become fewer, and one more is lost exactly when a server thread writes to a slot of rank 0 that is still full, or decides while the flag of rank 0 is down |
| `BarrierProgress.RunExact` | hw2/q1_submit/my_mpi.c:183-262 | In every reachable state the answers of rank 0 balance: sent are those put in the buffer, waiting there, under way or being handled. None is ever lost |
| `BarrierProgress.GetsOn` | hw2/q1_submit/my_mpi.c:392-448 | Where no message has been lost, for any number of ranks, some step changes the state and loses none |
| `BarrierProgress.Stopped` | hw2/q1_submit/my_mpi.c:392-448 | Where a message of rank i has been lost, in every continuation rank i waits, never returns again, and no rank returns from a later barrier than it |
| `BarrierProgress.PatientGetsOn` | hw2/q1_submit/my_mpi.c:392-448 | If no rank sends before rank 0 has returned from the round before, then no message is lost and no reachable state is stuck |
| `BarrierProgress.GoOnIff` | hw2/q1_submit/my_mpi.c:392-448 | From a reachable state all ranks can be led through any number of barriers if and only if no message has been lost |
| `Tficf.ReadDocs` | hw6/p1/TFICF/TFICF.c:122-192 | The two tables hold, for the documents of a rank, one entry for each word of each document with its count, and one element for each word with the number of documents that have it |
| `Tficf.AddToTable` | hw6/p1/TFICF/TFICF.c:147-165 | One more word of a document: its entry counts one more, or there is a new entry with count 1; every other entry is as before |
| `Tficf.AddToList` | hw6/p1/TFICF/TFICF.c:167-187 | The number of documents of a word goes up exactly at its first occurrence in a document |
| `Tficf.OneRank` | hw6/p1/TFICF/TFICF.c:132 | Round robin: each document is read by exactly one worker |
| `Tficf.Merge` | hw6/p1/TFICF/TFICF.c:227-262 | After the merge every word occurs once, with the sum of the counts received for it |
| `Tficf.ReceivedNext` | hw6/p1/TFICF/TFICF.c:204-226 | What ranks 1 to r have sent, together, describes exactly the documents of these ranks |
| `Tficf.AllRanks` | hw6/p1/TFICF/TFICF.c:132 | The shares of all workers together are all documents |
| `Tficf.MakeLines` | hw6/p1/TFICF/TFICF.c:275-297 | Each entry gets its document count from the merged list and becomes its line |
| `Tficf.Sort` | hw6/p1/TFICF/TFICF.c:319 | Some sorted permutation of the lines |
| `Tficf.Serial` | hw6/p1/TFICF/TFICF_serial.c:67-158 | The output is the sorted list of the lines of all entries |
| `Tficf.Distributed` | hw6/p1/TFICF/TFICF.c:122-328 | The same, for every number of processes from two on and every set of documents |
| `Tficf.OneOutput` | hw6/p1/TFICF/TFICF.c:318-326 | There is only one such output, so the two programs agree line for line |
| `Tficf.OutputIs` | hw6/p1/TFICF/TFICF.c:275-328 | An output has one line for each word of each document and no other, with the document, the word and the product of the logarithms of its frequency in the document plus one, and of the ratio of documents in all to documents with it, one added to both |
| `Tficf.LineLeIs` | hw6/p1/TFICF/TFICF.c:319 | The order of lines: a beginning of a line comes before it, else the first difference decides |
| `Channels.NeverStuck` | hw1/p2_mpi.c:140-153 | If the sends and receives of each channel match in order and tags and each send precedes its receive in a common order, then in every reachable state some unfinished process can go on |
| `Channels.AnySchedule` | hw1/p2_mpi.c:140-210 | Under every schedule each process receives what it was meant to, in order |
| `Channels.CanFinish` | hw1/p2_mpi.c:140-210 | From wherever a schedule has led all processes can reach their ends |
| `Derivative.Blocks` | hw1/p2_mpi.c:84-103 | The blocks cover the points 1 to NGRID exactly, and no point is in two |
| `Derivative.TwoEach` | hw1/p2_mpi.c:84-115 | Each rank has the two points from which it takes its step width if and only if NGRID >= 2 * numproc |
| `Derivative.Prepare` | hw1/p2_mpi.c:116-137 | Before any message a rank has the points of its block with one more on each side, the global step width, and the values of its block, with the outermost ones at the ends of the whole grid |
| `Derivative.Finish` | hw1/p2_mpi.c:168-169 | With the neighbours' values in place it has the slopes of its block |
| `Derivative.AllMatch` | hw1/p2_mpi.c:140-210 | For every pair of ranks the sends match the receives one by one, though tag 123 serves the exchange and the collection |
| `Derivative.IsFaithful` | hw1/p2_mpi.c:124-169 | The messages that a rank makes from what it received are the right ones: the slopes at the edges of its block use the true values of its neighbours |
| `Derivative.Message` | hw1/p2_mpi.c:140-210 | Every message a rank makes is read off its own arrays: the value at an edge of its block, its points, its values, or the slopes that it computes once the received values are in place |
| `Derivative.Completes` | hw1/p2_mpi.c:140-210 | The blocking exchange and collection cannot get stuck, for any number of ranks |
| `Derivative.Root` | hw1/p2_mpi.c:191-237 | In every complete run the x, y and dy that rank 0 collects are those of the serial program, for any function and any NGRID >= 2 * numproc: points from 1 to 100 in equal steps, with their values and central differences |
| `Derivative.Serial` | hw1/q2/serial.c:42-79 | The grid goes from 1 to 100 in equal steps; with the values of the function at the points, and at each the quotient of the difference of the function one step ahead and one step behind by two steps |
| `Derivative.NearlyExact` | hw1/q2/serial.c:66-79 | For every polynomial of degree three at most each slope is the derivative at its point plus the leading coefficient times the square of the step |
| `Derivative.ExactForParabolas` | hw1/q2/serial.c:66-79 | So for every line and parabola each slope is exactly the derivative |

## Left out

- Operating-system calls, mutexes, thread-local data, fork handlers, statistics, profiling, option parsing and printing: plumbing. The retries after a dropped lock in `arena_run_alloc` and `arena_bin_nonfull_run_get` are dead in a sequential model.
- Composition of `RbTreeHeap` with its users: the arena keeps its two trees as sets of runs, with the condition that their order is the one they were inserted with; `AvailTree` shows that a red-black tree of nodes does what is asked of these sets, but the arena does not hold one. The bins keep their trees as sets, and the swap extents keep theirs as ordered sequences of shared nodes. A node of `RbTreeHeap` has an integer key that does not change, where the original compares nodes with a macro argument.
- Colour bits packed into the right link, and page-map entries packed into one word: a field and a datatype instead.
- Groups of the bitmap are sets of bit positions, not machine words; `bitmap_sfu` on a word is the least element. `SmallBins` uses the bitmap through its contract, as a set of bits.
- Zero-fill tracking (CHUNK_MAP_UNZEROED) and the contents of memory: large splits overwrite the flag on the first and the last page, so no clean contract holds.
- The `swap_avail` statistic: it adds the coalesced size, so it is not conserved as written.
- Cuckoo.Table.TryInsert: does not model termination of the eviction chain, which depends on the pseudo-random numbers; `fuel` bounds it, and a run that uses it up is a third outcome of which only the cause is told.
- Hash functions and key comparison of `ckh.c` are parameters; keys are compared by content.
- `ckh_delete`, and the statistics counters of `ckh.c`.
- Barrier.Safe: is about safety only. The sleeps in front of each send, on which progress relies, are not timed: `BarrierProgress` says which orders of steps lose a message, and that all others get on.
- Payload transport of `MPI_Send` and `MPI_Recv`, sockets and host files.
- Tficf.Distributed: ranks run one after the other, since they only exchange their results at two fixed points; the arrays are taken to be large enough and words are strings. The logarithm and the formatting of a line are parameters, and the values are real numbers.
- Tficf.Sort: does not model the inner workings of `qsort`; it yields a sorted permutation.
- Derivative.Root: is about blocking point-to-point communication with the manual gather; `MPI_Gatherv` and the non-blocking variants are not modelled. Arithmetic is over the reals, sends are buffered, and channels between two ranks are first-in first-out (non-overtaking, section 3.5 of MPI 3.1).
- `chunk_dss.c` (the same extent algorithm once more), `rtree.h`, `ql.h` and `qr.h`, the huge tree of `huge.c` beyond the trimming, `ctl.c`, `stats.c`, `prof.c`, `zone.c`.
- The remaining exercises: Hadoop, Spark and TensorFlow programs, and the lake simulation.
