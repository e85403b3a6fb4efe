# Verified model of the OpenMP runtime's memory, affinity and atomics code

This project models, in Dafny, the parts of the LLVM/Intel OpenMP runtime library
whose correctness rests on arguments that no single function shows:

* the thread-private heap (a boundary-tag allocator with twenty bins), updated in place:
  `BgetBins`, `BgetLists`, `BgetLayout`, `BgetDrain`, `BgetHeap`, `BgetLife`, `BgetRealloc`;
* what threads do to each other's memory: the per-thread caches of small blocks
  (`FastLists`, `FastBatches`), the deferred release of another thread's buffers
  (`DeferredFree`, `QueueDrain`, `ThreadTotals`), the limited pools of `__kmpc_alloc`
  (`PoolLimit`, `PoolGrants`) and the descriptors it hides in front of blocks (`Descriptors`);
* the machine topology: sorted label tables (`Labels`), counting their nodes (`Topology`,
  `CpuInfo`), child numbers (`ChildNumbers`), dropping levels (`LevelCollapse`), grouping
  processors into masks (`MaskClasses`), and the tree of the hierarchical barrier
  (`TreeLevels`, `HierarchyFit`, `Hierarchy`, `DeriveLevels`);
* balanced placement of threads (`CoreTable`, `Placement`, `UniformPlacement`), and the text forms of
  affinity masks (`MaskPrinter`, `ProcList`, `ListMeaning`);
* the tool that hides symbols of linked-in object files (`ExternalClosure`,
  `SymbolNames`, `HideSymbols`, `LinkTool`);
* the compare-and-store loops of the atomic updates (`CasLoop`).

`Chains`, `Intervals`, `Options` and `Sums` hold the few notions that several of these
share. Code that works in place is modelled by classes and by methods over arrays, with
the loops of the source; what threads do concurrently is modelled as a step system in
which every read-modify-write of shared memory is one step, with any number of threads
and any interleaving.

`dafny verify dfyconfig.toml` checks everything.

## Where the code keeps less than it seems to promise

Each of these is proved for all inputs, with the exact condition:

* `init` has seven levels and does not look whether it needs more. Without a known
  topology it stays within them exactly for up to 4096 threads (`Hierarchy.DefaultFits`).
  For a machine's levels it does so exactly if they are at most seven, and the depth it
  starts from, plus one for each level that is halved while the next one has a single node,
  is so too (`HierarchyFit.FitsExactly`; from the address table, `DeriveLevels.InitMachine`).
  Which levels are halved is told from sums of their logarithms
  (`HierarchyFit.LevelHalved`). `HierarchyFit.SmallButTooDeep` has machines of 128 and 256
  threads that do not fit. `HierarchyInfo.Init` fails at exactly the inputs for which the
  code would write past its arrays.
* The table of processors for balanced placement on uneven cores holds every processor
  exactly if no core has more processors than slots (`CoreTable.TableIsComplete`), which is
  so where the processors of each core are numbered from zero (`CoreTable.ZeroBasedFits`).
  Where the first processor of a core is not in use, two cores are taken for one, and a
  processor is overwritten (`CoreTable.ProcessorLost`) or written behind the table
  (`CoreTable.SlotBehindTable`). Still every core found has a processor, so that a thread
  of a team no larger than the number of cores always gets one (`CoreTable.EveryCoreInhabited`
  with `Placement.PlaceFew`).
* The printed form of a mask parses back to the same processors exactly when no 65538
  consecutive processors are set, because the parser limits a range to 65536 steps
  (`MaskPrinter.RoundTrip`, `MaskPrinter.LongRunFails`); the text for the empty mask never
  parses (`MaskPrinter.EmptyMaskFails`).
* Decoding an encoded name gives the name back, except that the empty name depends on the
  first byte of the string table being zero (`SymbolNames.RoundTrip`); with a table of
  length four it is not (`SymbolNames.EmptyNameLost`).
* Hiding keeps the links between the symbols of all kept object files exactly when none of
  them has an external symbol with the name that another, hidden one gets
  (`LinkTool.LinkingPreserved`, and `LinkTool.Run` for the whole tool);
  `LinkTool.LinkingBreaks` is a pair of files where one has.
* The bin search does not return the tightest bin: seven bins are never used
  (`BgetBins.BinTightness`). Searches are complete all the same.
* `resize` returns early with its flag still set when the tree is already large enough
  (`Hierarchy.HierarchyInfo.Resize`). A caller of `__kmp_get_hierarchy` that is alone never
  asks in that case (`Hierarchy.GetHierarchy`).
* With more threads than processors, balanced placement on uneven cores puts all of the
  further threads on the first processors of the cores: every other processor keeps one
  thread, however many there are (`Placement.Distribute`).
* A direct block that another thread releases stays in its getter's count of allocated
  bytes for good, and is missing from the releaser's (`ThreadTotals.ShareOfBlock`).
* An allocation from a limited pool whose internal allocation fails leaves its bytes
  charged, so that later requests find less room than the live blocks leave
  (`PoolGrants.GrantedIfRoom`).
* A pass of the distribution loop hands out a thread exactly when some core has a
  processor (`Placement.Pass`); otherwise the loop would not end.

## Model

| member | source | states |
|---|---|---|
| BgetBins.GetBin | src/kmp_alloc.cpp:208-225 | the chop stays within the table and finds the bin that the rest of the model calls `Bin` |
| BgetBins.BinMonotone | src/kmp_alloc.cpp:208-225 | a larger size never gets a lower bin, so a search that starts at the request's bin misses nothing |
| BgetBins.BinTightness | src/kmp_alloc.cpp:106-126 | for every size, the bin is the tightest one, or the one below it if that is one of seven bins that are never used |
| BgetLists.AppendKeepsLinks | src/kmp_alloc.cpp:365-384 | the four link writes of the insertion leave all twenty circular lists well formed, with the block at the tail of its own |
| BgetLists.RemoveKeepsLinks | src/kmp_alloc.cpp:386-392 | the two link writes of the removal leave all lists well formed, without that block |
| BgetHeap.Heap.InsertIntoFreelist | src/kmp_alloc.cpp:365-384 | the block joins the list of the bin for its size, at its tail; nothing else about the lists and no link outside them changes |
| BgetHeap.Heap.RemoveFromFreelist | src/kmp_alloc.cpp:386-392 | the block leaves its list; all other blocks stay, in the same order |
| BgetHeap.Heap.constructor | src/kmp_alloc.cpp:227-250 | a new heap has twenty empty lists, no pools, and the heap invariant |
| BgetHeap.Heap.Search | src/kmp_alloc.cpp:458-563 | it fails only if no free block of any bin is large enough; best mode finds the smallest such block of the whole heap, the first in its list among equals, the other modes the first one in their order |
| BgetHeap.Heap.Allocate | src/kmp_alloc.cpp:478-543 | the high end of the block, or all of it, becomes live, at least as large as asked for; totals and lists follow, and the heap invariant is kept |
| BgetHeap.Heap.Bget | src/kmp_alloc.cpp:425-576 | bget up to its call of the system: the queue is drained, exactly one new live block of sufficient size appears, cut from the block that the mode chooses on the lists as the drain leaves them, or there is no free block large enough and the size to ask for is right; the total stays that of the live blocks, the counts of gets and releases are right, and the pool noted for the end is the one that the drain notes; a wholly free pool that is large enough always serves |
| BgetHeap.ServedOneWay | src/kmp_alloc.cpp:425-576 | in every mode, which block bget hands out, how much of it, and which pool is noted afterwards is determined by the heap, the order of its lists, the pool noted and the queue at the call |
| BgetHeap.Heap.Expand | src/kmp_alloc.cpp:570-632 | the rest of bget: with memory from the system it always succeeds, either directly or because the second attempt finds the new pool; the total stays right, and one get is counted; with nothing queued the pools are those before and the new one, and the pool noted stays |
| BgetHeap.Heap.AcquireDirect | src/kmp_alloc.cpp:570-607 | a direct buffer is marked by a zero size, lies apart from all pools and other buffers, and is counted with its whole size |
| BgetHeap.Heap.ReleaseDirect | src/kmp_alloc.cpp:711-733 | exactly that buffer goes, and exactly its size leaves the total |
| BgetHeap.Heap.Brel | src/kmp_alloc.cpp:749-862 | exactly this block stops being live, whatever merging takes place, and its size leaves the total; the invariant is kept; the merged block goes to the tail of its bin and all others keep their order; a pool goes back exactly if it is wholly free, of the common length and not the last, and then no other live block was in it; the last pool, left wholly free, is noted, a noted pool that goes back is forgotten, and else the pool noted stays |
| BgetHeap.Heap.ReturnIfWhole | src/kmp_alloc.cpp:827-862 | memory is returned exactly if the free block is a whole pool of the common length and not the last one; the last one is noted instead, a returned pool is no longer noted, and else the pool noted stays |
| BgetHeap.WholeIsReturned | src/kmp_alloc.cpp:827-862 | a pool that is free as a whole after a release held no live block but the released one |
| BgetHeap.Heap.Enqueue | src/kmp_alloc.cpp:313-362 | the block is linked in front of the queue through its own links, and the heap is untouched |
| BgetHeap.Heap.Dequeue | src/kmp_alloc.cpp:264-310 | exactly the queued blocks stop being live, one after the other, their sizes leave the total and each counts as one release; the lists hold the free blocks that result, wholly free pools stay so unless given back, and the pool noted is the one that these releases note |
| BgetDrain.DrainsOneWay | src/kmp_alloc.cpp:264-310 | the pools, the blocks, the order of all lists and the pool noted after the drain are determined by those before it and the queue |
| BgetHeap.Heap.Bpool | src/kmp_alloc.cpp:877-936 | the new pool is one free block with its end marker, its rounded length joins those of the pools added before, and the pool length kept is what all of them have in common |
| BgetHeap.CommonIs | src/kmp_alloc.cpp:888-892 | the pool length kept is -1 exactly if two of the pools ever added had different lengths, and 0 exactly before the first |
| BgetHeap.Heap.Release | src/kmp_alloc.cpp:701-862 | brel for any outstanding buffer, pooled or direct, told apart by its header alone; lists and noted pool move as the release of the block says, or stay |
| BgetHeap.Heap.Finalize | src/kmp_alloc.cpp:1001-1040 | the pool noted is returned exactly when it is wholly free, and then without any live block in it; otherwise nothing changes |
| BgetLife.ReleaseLast | src/kmp_alloc.cpp:827-859 | the release of the only live buffer of a heap with one pool notes this pool, and the end of the heap right after it returns exactly it and leaves no pool |
| BgetLife.WholeLife | src/kmp_alloc.cpp:425-1031 | a new heap, one request served from the pool that the system gives, its release and the end of the heap: that pool goes back, and none is left |
| BgetHeap.HeldDisjoint | src/kmp_alloc.cpp:425-632 | no two buffers handed out share a byte, in pools or direct |
| BgetLayout.CarvedKeepsLayout | src/kmp_alloc.cpp:478-528 | splitting from the high end keeps tiling, back tags and the absence of free neighbours |
| BgetLayout.TakenKeepsLayout | src/kmp_alloc.cpp:531-557 | so does taking a whole block |
| BgetLayout.ReleasedKeepsLayout | src/kmp_alloc.cpp:755-825 | so does a release with merging on both sides; the live blocks are those before without the released one |
| BgetLayout.AddedKeepsLayout | src/kmp_alloc.cpp:877-936 | so does a new pool, which changes no live block |
| BgetLayout.DroppedKeepsLayout | src/kmp_alloc.cpp:831-861 | so does giving back a pool that is one free block |
| BgetLayout.Covered | src/kmp_alloc.cpp:877-936 | every byte of a pool before its end marker lies in exactly one block |
| BgetLayout.LiveDisjoint | src/kmp_alloc.cpp:425-557 | live blocks never overlap |
| BgetLayout.FreeIsDetermined | src/kmp_alloc.cpp:755-825 | the free blocks depend only on the pools and the live blocks, not on the order of releases: all possible merging has been done |
| BgetRealloc.BuffersApart | src/kmp_alloc.cpp:667-698 | two outstanding buffers share no byte that a caller may use |
| BgetRealloc.OldSize | src/kmp_alloc.cpp:678-688 | the size computed from the header is the room of the buffer, pooled or direct |
| BgetRealloc.Move | src/kmp_alloc.cpp:678-698 | the contents move as far as both buffers reach, no byte of a third buffer changes, the old buffer is released and all others stay |
| BgetRealloc.Bgetr | src/kmp_alloc.cpp:667-698 | reallocation from the heap's own blocks keeps the contents and every other buffer; without a new buffer the old one is unharmed |
| BgetRealloc.BgetrExpand | src/kmp_alloc.cpp:667-698 | with memory from the system reallocation always succeeds, with the same guarantees |
| FastLists.ClassesAgree | src/kmp_alloc.cpp:1828-1846 | the size class chosen when allocating is the one recovered from the block when freeing, the rounded block holds the request, and no smaller class would |
| FastLists.BlockInRegion | src/kmp_alloc.cpp:1878-1892 | the aligned block and its descriptor lie inside the allocated region |
| FastLists.Keeps | src/kmp_alloc.cpp:1816-2003 | every step of every thread (pop, push, take the returned list, build a batch, hand it over, retry) keeps the protocol's invariant; which step a call makes is in `FastBatches` |
| FastLists.RunsKeep | src/kmp_alloc.cpp:1816-2003 | so it holds in every state of every interleaving |
| FastLists.OnePlace | src/kmp_alloc.cpp:1848-1875 | each block is with the program, with one thread that is freeing it, or at one position of one list, never in two places |
| FastLists.ListsOwned | src/kmp_alloc.cpp:1945-2003 | a thread's own two lists hold only blocks it allocated; a batch belongs to one other thread, is counted right in its head, and never exceeds 16 blocks |
| FastLists.PoppedFits | src/kmp_alloc.cpp:1848-1875 | a popped block is large enough for every request of its class and belongs to the thread that gets it |
| FastLists.GivenOnce | src/kmp_alloc.cpp:1816-2003 | a step gives out at most blocks that nobody holds, and takes back only what is held |
| FastLists.Conserved | src/kmp_alloc.cpp:1816-2003 | over every run: from the time it is allocated until it goes back to the heap a block keeps its owner and its size and is in exactly one place |
| FastLists.OnlyBigLeave | src/kmp_alloc.cpp:1922-1938 | over every run: a block leaves the caches for the heap only when its holder frees it and it is larger than the largest class, as the assertion there says |
| FastLists.NeverStuck | src/kmp_alloc.cpp:1848-2003 | no thread ever meets a null or stale link, whatever it is asked to do |
| FastBatches.OneReading | src/kmp_alloc.cpp:1816-2003 | list heads, links and counters can be read as lists in one way only |
| FastBatches.WhereAllocLooks | src/kmp_alloc.cpp:1848-1893 | an allocation takes from the thread's own list exactly if it has a block, from those sent back exactly if only they have one, and from the heap exactly if both lists are empty |
| FastBatches.WhereFreeGoes | src/kmp_alloc.cpp:1940-1968 | a freed block goes onto the owner's own list, onto an empty batch, onto a batch of the same owner with fewer than 16 blocks; the batch is sent back exactly if it has 16 blocks or another owner |
| FastBatches.ListsMove | src/kmp_alloc.cpp:1848-2003 | what each step does to the lists: pops take the first block, pushes put one in front, a taken list becomes the own list without its first block, and a batch goes in its order in front of what its owner has been sent |
| FastBatches.RetryMeansChange | src/kmp_alloc.cpp:1859-1866 | a compare-and-store is tried again exactly if the list has another first block than the one seen |
| FastBatches.PopGoesOn | src/kmp_alloc.cpp:1855-1875 | an allocation that has turned to the blocks sent back goes on until it gets one of them, of its class |
| FastBatches.BatchFills | src/kmp_alloc.cpp:1945-1964 | over every run, whatever other threads do: up to sixteen frees by one thread, of blocks of one other thread and one class, onto an empty batch all stay on it, the last one first, in one step each |
| FastBatches.SeventeenthSends | src/kmp_alloc.cpp:1965-1985 | the next such free begins to send all sixteen back |
| FastBatches.BatchReturns | src/kmp_alloc.cpp:1985-2003 | over every run: the step that ends this puts the whole batch, in its order, in front of what its owner has been sent by then, and the freed block begins a new batch |
| DeferredFree.Keeps | src/kmp_alloc.cpp:264-362 | every step of enqueuers and of the draining owner keeps the invariant of queues, owners and totals |
| DeferredFree.RunsKeep | src/kmp_alloc.cpp:264-362 | so it holds in every interleaving |
| DeferredFree.StepOnItsWay | src/kmp_alloc.cpp:736-747 | a block leaves its holder only by a free of its holder's, and then goes from the pusher to the queue, to the owner's chain and to the owner's release; no step skips, repeats or undoes one |
| DeferredFree.FreedOnce | src/kmp_alloc.cpp:264-362 | over every run: between the step that hands a block out and the state without it there is exactly one release of it, the last step, by its owner unless the block is a direct one, and by the owner's drain of its queue if another thread freed it |
| DeferredFree.TotalsBalance | src/kmp_alloc.cpp:711-758 | the sum of the threads' totals is the size of all outstanding blocks in every reachable state; whose total it is, is in `ThreadTotals` |
| DeferredFree.NoneLeftBehind | src/kmp_alloc.cpp:264-362 | whenever no thread is in the middle of an operation and all queues are empty, the outstanding blocks are exactly those the program holds |
| DeferredFree.NeverStuck | src/kmp_alloc.cpp:264-362 | a retry loop can always go on, a taken queue is not empty, and the owner only releases its own pooled blocks |
| QueueDrain.WhereFreeGoes | src/kmp_alloc.cpp:711-747 | a direct block is released by whoever frees it, a pooled one by its owner, at once if the owner frees it and through the owner's queue otherwise |
| QueueDrain.DequeueFinds | src/kmp_alloc.cpp:264-283 | a dequeue turns to the queue exactly if there is a block on it |
| QueueDrain.RetryMeansChange | src/kmp_alloc.cpp:277-283 | a push or a take tries again exactly if the queue has another first block than the one seen |
| QueueDrain.TakeGoesOn | src/kmp_alloc.cpp:264-283 | a dequeue that has found blocks goes on until it has taken the whole queue in its order and left it empty |
| QueueDrain.DrainsQueue | src/kmp_alloc.cpp:264-310 | over every run: from there to its end it releases exactly the blocks that were queued when it took them, the block queued last first |
| ThreadTotals.OwnHistory | src/kmp_alloc.cpp:715-758 | over every run, for each thread: its total is the size of what its own calls got, less the size of what its own steps gave back, its drains included |
| ThreadTotals.ShareOfBlock | src/kmp_alloc.cpp:715-719 | over its life a block is added to its getter's total and taken off that of the thread that gives it back, the same thread unless the block is a direct one: such a block, released by another thread, stays in its getter's total and is missing from its releaser's |
| ThreadTotals.SharesAddUp | src/kmp_alloc.cpp:715-758 | a total moves by the share of any one block and those of all others, so nothing else makes up for it |
| PoolLimit.Keeps | src/kmp_alloc.cpp:1445-1627 | every step of concurrent allocations and frees keeps the accounts of all limited allocators |
| PoolLimit.WithinLimit | src/kmp_alloc.cpp:1530-1560 | in every reachable state the live blocks of a limited allocator are within its pool size, transient over-charges included; what is granted is in `PoolGrants` |
| PoolLimit.NoUnderflow | src/kmp_alloc.cpp:1615-1621 | the counter is at least the size that a free takes off, as the assertion there says |
| PoolLimit.CallEnds | src/kmp_alloc.cpp:1530-1560 | the chain of fallbacks ends, since each names an allocator created earlier, and no other thread can hold a call up |
| PoolLimit.CallNet | src/kmp_alloc.cpp:1530-1576 | over every run: a whole call leaves charged to each allocator exactly the size of the block it returns, to the allocator recorded in the block, and nothing where a fallback was taken and the charge undone |
| PoolLimit.OwnAccount | src/kmp_alloc.cpp:1579-1627 | over every run: the free of a block lowers the counter of each allocator by exactly what the call that returned the block had added to it, also after fallbacks |
| PoolGrants.GrantedIfRoom | src/kmp_alloc.cpp:1530-1552 | in every reachable state a charge is granted exactly if live blocks, calls on their way, what failed calls have left and the bytes of this request are together within the pool size; else it is undone |
| PoolGrants.WholeCall | src/kmp_alloc.cpp:1440-1576 | the whole call, among any others: an allocator with room or without a limit serves it with a block noted for it, null or an abort; one without room ends it in a block of the default memory, null, an abort, or the same call with the allocator that fb_data names |
| PoolGrants.FirstChoice | src/kmp_alloc.cpp:1530-1576 | the block that a call returns is one of the allocator it named, of the bytes it needs, exactly if there was room at its charge |
| PoolGrants.RoomIsEnough | src/kmp_alloc.cpp:1530-1576 | with room at its charge a call goes on to the internal allocation, and if that succeeds returns a block of the allocator it named |
| PoolGrants.AloneIfFits | src/kmp_alloc.cpp:1530-1576 | a thread that is alone, with nothing left by failed calls, gets its block from the allocator it names exactly if the live blocks leave room for the size asked for, the 32 bytes of the descriptor and the alignment |
| Descriptors.RoomForBoth | src/kmp_alloc.cpp:1566-1568 | the aligned pointer leaves room for the descriptor before it and the caller's bytes behind it, inside what was charged |
| Descriptors.Memory.Hand | src/kmp_alloc.cpp:1566-1574 | a block is handed out aligned, with its own intact descriptor, and no other block's descriptor is harmed |
| Descriptors.Memory.Write | src/kmp_alloc.cpp:1566-1574 | no write of a caller within its block reaches any descriptor |
| Descriptors.Memory.TakeBack | src/kmp_alloc.cpp:1590-1602 | the descriptor read at a free is the one written for this block: region, size and allocator |
| Labels.NodeIsNew | src/kmp_affinity.cpp:1739-1763 | in a sorted table a row brings a new node at a level exactly if it differs from the row before it above that level |
| Labels.OrderedNext | src/kmp_affinity.h:608-621 | the comparison of labels is transitive, so a sorted table grows by comparing with its last row only |
| Topology.CountLevels | src/kmp_affinity.cpp:1720-1775 | the scan rejects exactly the tables with two equal addresses; otherwise the totals are the numbers of distinct prefixes and the maxima the sizes of the largest families |
| Topology.IsUniform | src/kmp_affinity.cpp:1796-1801 | the product test is true exactly if at every level all nodes have the same number of children |
| Topology.ProductBound | src/kmp_affinity.cpp:1796-1801 | a level never has more nodes than the product of the radices above it, and equally many just for uniform trees |
| Topology.ProductHolds | src/kmp_affinity.cpp:1796-1801 | distinct addresses are no more than the product of the radices |
| CpuInfo.Record | src/kmp_affinity.cpp:2413-2490 | one record of the pass over the cpuinfo table: where it first differs, the counters of the levels below it closed, and its thread id |
| CpuInfo.Pass | src/kmp_affinity.cpp:2393-2502 | a pass that ends well has kept all given ids, made all records different and in order, and counted all levels; a pass that numbers gives each record without an id the next number in its core; it rejects only real clashes, and restarts only when it was not numbering and two records are equal |
| CpuInfo.CountRecords | src/kmp_affinity.cpp:2389-2502 | at most one restart; it succeeds exactly if no two records agree in all labels with the same given thread id; the ids stay if all records differ as they are, and else each missing one is the next number in its core |
| CpuInfo.UniformMachine | src/kmp_affinity.cpp:2508-2513 | the product of the packages and the largest families below them is the number of threads exactly if at every level all nodes have the same number of children |
| ChildNumbers.AssignChildNums | src/kmp_affinity.cpp:253-287 | each row gets at each level the number of its node's smaller siblings, and 0 at unused levels |
| ChildNumbers.NumbersAreDense | src/kmp_affinity.cpp:253-287 | under every node with k children the numbers are exactly 0 to k - 1 |
| ChildNumbers.NumbersKeepOrder | src/kmp_affinity.cpp:253-287 | child numbers first differ where the labels do, and order addresses the same way |
| LevelCollapse.Collapse | src/kmp_affinity.cpp:1849-1899 | exactly the levels with a family of more than one and the package level survive, with their labels, and the new package level is right |
| LevelCollapse.CollapseKeepsOrder | src/kmp_affinity.cpp:1849-1899 | dropping levels of only children keeps addresses distinct and in the same order |
| LevelCollapse.LevelsGrow | src/kmp_affinity.cpp:2591-2597 | a level has at least as many nodes as the one above, as the assertion there says, and if it has no more, all its nodes are only children |
| LevelCollapse.InMapDropsOnlyChildren | src/kmp_affinity.cpp:2591-2634 | so the rule of the cpuinfo map also drops only levels of only children |
| MaskClasses.IsClose | src/kmp_affinity.h:562-571 | two addresses are close exactly if they agree on all but the finest levels |
| MaskClasses.CreateMasks | src/kmp_affinity.cpp:2690-2778 | each processor's mask is exactly the set of processors close to it, the first row of each class is its leader, and the result counts the classes |
| MaskClasses.LeadersCount | src/kmp_affinity.cpp:2724-2772 | there are as many leaders as classes |
| MaskClasses.EnoughChosen | src/kmp_affinity.cpp:4608-4647 | with or without duplicates the fill loop has as many rows to take as masks were allocated |
| MaskClasses.ChosenInOrder | src/kmp_affinity.cpp:4631-4646 | the place that a row's mask gets is the number of rows taken before it, in the order of the table |
| MaskClasses.FillMasks | src/kmp_affinity.cpp:4608-4647 | the loop fills exactly the allocated masks, so its closing assertion holds, each with the class of the row it came from |
| Hierarchy.HierarchyInfo.constructor | src/kmp_affinity.h:675-676 | the state before init |
| Hierarchy.HierarchyInfo.Init | src/kmp_affinity.h:686-758 | the tree built has a depth within its arrays, is made of whole nodes at each level, and has room for all threads; for levels of any number, it cannot be built exactly if they do not fit the arrays; in the array it leaves each level is the one that the start levels determine, none below the depth exceeds its limit, levels that all keep to their limits are taken as they are, and without a topology the first level is 4 |
| Hierarchy.HalveLevel | src/kmp_affinity.h:735-749 | halving with rounding up ends, empties no level and never makes the product smaller |
| Hierarchy.SpreadOut | src/kmp_affinity.h:730-749 | so the whole width optimization keeps room for all threads; it stays within the arrays exactly if the levels fit, and then leaves the levels and the depth that halving one level after the other gives |
| Hierarchy.SkipsDivide | src/kmp_affinity.h:751-755 | each entry of the skip table divides the next one |
| Hierarchy.HierarchyInfo.Resize | src/kmp_affinity.h:760-824 | a completed resize leaves a tree for the new number of threads, in its old arrays or in new ones: with the least number of doublings that holds them, the old skip table continued, the levels that come into use doubled and no others changed; the early return changes nothing but leaves the flag set |
| Hierarchy.HierarchyInfo.GrowWithin | src/kmp_affinity.h:775-785 | levels of the old arrays are put to use one by one, keeping the tree well formed, until it is large enough or no level is left; only these are doubled, and the skip table stays |
| Hierarchy.HierarchyInfo.Expand | src/kmp_affinity.h:786-821 | larger arrays hold a tree of the size asked for: the old tables, continued by single nodes and doubled sizes, with no more levels than needed |
| Hierarchy.DefaultFits | src/kmp_affinity.h:717-749 | without a topology the tree fits its seven levels exactly for up to 4096 threads |
| HierarchyFit.FitsExactly | src/kmp_affinity.h:709-749 | levels of any number fit exactly if they are at most seven, and the depth before the optimization, plus one for each level that is halved while the next one has a single node, is so too |
| HierarchyFit.ExcessIs | src/kmp_affinity.h:733-747 | how often a level is halved by itself: the logarithm of its size over the limit, rounded up |
| HierarchyFit.LevelHalved | src/kmp_affinity.h:733-747 | when its turn comes a level is halved exactly if it, or it and some levels just below it, have a positive sum of these logarithms, and as often as the largest such sum says |
| HierarchyFit.HalvedIs | src/kmp_affinity.h:733-747 | halving with rounding up until the limit is met is one division by a power of two, rounded up |
| HierarchyFit.BuiltSo | src/kmp_affinity.h:730-749 | in the end each level is the one it starts from, doubled as often as the levels below it are in excess and divided as often as it is itself, rounded up; none below the depth exceeds its limit, and the depth has grown by one for each level halved into a single node |
| HierarchyFit.TakenAsIs | src/kmp_affinity.h:730-749 | a machine whose levels all keep to their limits is taken as it is |
| HierarchyFit.FourLeaves | src/kmp_affinity.h:717-721 | without a topology there are four threads to a leaf group, whatever their number |
| HierarchyFit.SmallButTooDeep | src/kmp_affinity.h:717-757 | a machine of seven levels of two and one of six levels, without levels of only children, whose trees leave the arrays |
| Hierarchy.GetHierarchy | src/kmp_affinity.cpp:28-45 | the tree handed to a barrier holds all its threads; for a single caller it cannot be had exactly if this is the first call and asks for more than 4096 threads; without a topology a leaf's parent has three other children, in the first call and in all later ones |
| DeriveLevels.Derive | src/kmp_affinity.h:660-673 | the levels derived from the child numbers are the sizes of the largest families, their product is at least the number of addresses, and writing them leaves the array exactly if there are more than it has |
| DeriveLevels.InitMachine | src/kmp_affinity.h:709-758 | for the address table of a machine the tree is built exactly if the sizes of its largest families fit, and then each level is the one that these sizes determine |
| Placement.CountCores | src/kmp_affinity.cpp:5245-5254 | the processors of each core, and how many cores have exactly so many |
| Placement.SumUp | src/kmp_affinity.cpp:5256-5260 | how many cores have at least so many processors |
| Placement.PlaceOn | src/kmp_affinity.cpp:5280-5296 | a core's thread goes to its first slot that may take one, and nowhere else |
| Placement.Round | src/kmp_affinity.cpp:5274-5303 | no thread is lost or made up, and only usable slots get any; in the first pass the cores reached get their next slot in turn; in later passes the first cores, as many as have at least so many processors, get one thread more each on their first processor |
| Placement.Pass | src/kmp_affinity.cpp:5272-5306 | a pass makes progress exactly if some core has a processor; after a first pass with threads left over every usable slot has one; a later pass goes through its whole order or ends within it |
| Placement.Distribute | src/kmp_affinity.cpp:5262-5306 | the loop ends with exactly nthreads threads in usable slots, no slot with two before all have one; fewer threads than slots are spread breadth-first over the cores; of more, each slot keeps one and the rest are on the first processors of the cores, as many on each as its turns in the order of the later passes come to |
| Placement.LevelsOneWay | src/kmp_affinity.cpp:5270-5306 | while there are slots enough, the number of threads determines the table |
| Placement.LaterOneWay | src/kmp_affinity.cpp:5270-5306 | with more threads than slots the number of threads determines it, too |
| Placement.Pick | src/kmp_affinity.cpp:5307-5325 | the running sum finds the slot of a thread id, for every thread id there is |
| Placement.PicksOne | src/kmp_affinity.cpp:5307-5325 | a thread id has one slot |
| Placement.PickedOften | src/kmp_affinity.cpp:5307-5325 | a slot is picked by exactly as many thread ids as it has threads |
| Placement.PlaceMany | src/kmp_affinity.cpp:5230-5327 | the whole branch: the table is one that the distribution above may end with, the thread's slot is the one its id picks, and the mask is that slot's processor, or all processors of the slot's core |
| Placement.PlaceFew | src/kmp_affinity.cpp:5199-5229 | one inhabited core to a thread, in order; the mask is empty exactly if there is none left |
| CoreTable.FindCoreLevel | src/kmp_affinity.cpp:4007-4021 | the level above the deepest one with a label that is not zero |
| CoreTable.ComputeCores | src/kmp_affinity.cpp:4024-4049 | the number of rows whose labels below the core level are all zero, the first row counted in any case |
| CoreTable.Build | src/kmp_affinity.cpp:4566-4602 | the table is given up exactly if it has fewer than two slots or fewer than there are processors; otherwise a slot holds the last processor that belongs there, and a processor belongs outside exactly if the model says so |
| CoreTable.EveryCoreInhabited | src/kmp_affinity.cpp:4587-4602 | the first slot of every core holds a processor, so as many cores are inhabited as there are |
| CoreTable.TableIsComplete | src/kmp_affinity.cpp:4587-4602 | each processor stands in its own slot exactly if no core has more processors than slots |
| CoreTable.ZeroBasedFits | src/kmp_affinity.cpp:4052-4079 | that is so in a sorted table in which each core's processors are numbered from zero |
| CoreTable.ProcessorLost | src/kmp_affinity.cpp:4587-4602 | a table of four processors, one of which is overwritten |
| CoreTable.SlotBehindTable | src/kmp_affinity.cpp:4587-4602 | a table of four processors, one of which belongs behind the four slots |
| CoreTable.PlaceAll | src/kmp_affinity.cpp:5182-5198 | as many threads as processors: a thread gets the processor of its row, or all those whose rows are of the same core |
| Placement.OneCore | src/kmp_affinity.cpp:5199-5229 | the core of a thread is determined |
| UniformPlacement.NoZeroChunk | src/kmp_affinity.cpp:5133-5145 | the division by the chunk is never reached with a zero chunk |
| UniformPlacement.Lands | src/kmp_affinity.cpp:5133-5145 | every thread lands on a core and a context that exist, within its core's range of ids |
| UniformPlacement.IndexInTable | src/kmp_affinity.cpp:5126-5162 | every index into the address table is in range, for both granularities and both ways of counting cores |
| UniformPlacement.CoreRange | src/kmp_affinity.cpp:5133-5145 | a core has exactly the thread ids of its range |
| UniformPlacement.Range | src/kmp_affinity.cpp:5133-5145 | the range is contiguous, and its threads go round the contexts of the core |
| UniformPlacement.CoreLoad | src/kmp_affinity.cpp:5133-5145 | core c gets nthreads / ncores threads, and one more if c < nthreads % ncores |
| UniformPlacement.ContextLoad | src/kmp_affinity.cpp:5139-5145 | how many threads each context of a core gets |
| UniformPlacement.ContextsEven | src/kmp_affinity.cpp:5139-5145 | contexts of a core differ by at most one thread |
| MaskPrinter.Mask.Set | src/kmp_affinity.h:246-248 | setting a bit of the byte array adds that processor and changes no other |
| MaskPrinter.Mask.Clear | src/kmp_affinity.h:252-254 | clearing a bit removes that processor and changes no other |
| MaskPrinter.Mask.Begin | src/kmp_affinity.h:279-284 | the first processor of the mask, or its end |
| MaskPrinter.Mask.Next | src/kmp_affinity.h:286-291 | the next one after a given processor, or the end, with none left out |
| MaskPrinter.StrBufMask | src/kmp_affinity.cpp:163-213 | the text consists of the maximal runs of the mask in ascending order, long runs as ranges |
| MaskPrinter.ParsePrinted | src/kmp_affinity.cpp:2840-3001 | parsing the text of any ascending list of processors gives their masks in order, and fails exactly if a run is too long |
| MaskPrinter.RoundTrip | src/kmp_affinity.cpp:163-213 | printing a mask of known processors and parsing the text gives the masks of exactly its members, in ascending order, unless 65538 of them are consecutive |
| MaskPrinter.EmptyMaskFails | src/kmp_affinity.cpp:172-176 | the text for the empty mask is not a list of processors |
| MaskPrinter.LongRunFails | src/kmp_affinity.cpp:2974-2980 | nor is the text for the processors 0 to 65537 |
| ListMeaning.DashMeansThree | src/kmp_affinity.cpp:192-208 | a range is printed exactly if three consecutive processors are in the mask |
| ListMeaning.StepsAre | src/kmp_affinity.cpp:2982-2996 | the numbers of a range are its start and those a stride apart from there on, up to its end or down to it, and no others |
| ListMeaning.StridedRange | src/kmp_affinity.cpp:2930-3001 | a range with a stride, also a negative one, stands for the masks of its steps; it is rejected exactly if the stride is zero, points away from the end or makes for more than 65536 steps |
| ListMeaning.SetInBraces | src/kmp_affinity.cpp:2840-2902 | a list of numbers in braces is one mask, that of its known processors together, or none without any |
| ProcList.MaskList.Add | src/kmp_affinity.cpp:2787-2804 | storing a mask appends it, also when the array is doubled |
| ProcList.Process | src/kmp_affinity.cpp:2822-3001 | the scanning loops over one text position compute the masks that the grammar of the list assigns to the text, and stop with an error exactly where it assigns none |
| ProcList.ReadNumber | src/kmp_str.cpp:548-560 | digits are read to their end, and a number needs at least one |
| ProcList.OnlyListCharacters | src/kmp_affinity.cpp:2840-3001 | a list with any other character is rejected, in particular one with the unit suffix that the conversion of a number would accept |
| ExternalClosure.IsDisjoint | src/extractExternal.cpp:378-392 | the merge scan over two sorted sets tells exactly whether they share an element |
| ExternalClosure.FindRequiredExternal | src/extractExternal.cpp:394-431 | the worklist ends with the least set of external files closed under what internal or required files need; for each name that a kept file uses, all external files that define it are kept |
| ExternalClosure.RequiredByChain | src/extractExternal.cpp:397-400 | a file is required exactly if a chain of dependencies leads to it from an internal file |
| SymbolNames.RoundTrip | src/extractExternal.cpp:194-230 | encoding and decoding a name gives it back, short or long; the empty name just if the table starts with a zero byte |
| SymbolNames.EmptyNameLost | src/extractExternal.cpp:194-230 | with a table of length four the empty name is decoded to something else |
| SymbolNames.MakeTable | src/extractExternal.cpp:156-189 | every long string of the set is in the table, ended by a zero, at the position that the directory says; it is refused exactly if too long |
| HideSymbols.CollectNames | src/extractExternal.cpp:313-330 | pass one collects exactly the names as they will be, and fails only on a symbol whose name lies outside the string table |
| HideSymbols.Rewrite | src/extractExternal.cpp:346-373 | pass two never meets a name that was not collected; each symbol gets its new name and its auxiliary records stay |
| HideSymbols.Hide | src/extractExternal.cpp:288-376 | the two passes together: after a success every name field decodes to the old name, with the prefix exactly if it is external and hidden |
| LinkTool.ComputeExternal | src/extractExternal.cpp:237-286 | the names that external symbols of the file define, and those that they use; it fails only on an external symbol whose name lies outside the string table |
| LinkTool.LinkKept | src/extractExternal.cpp:320-370 | two external symbols, of one rewritten file or of two, have equal names afterwards exactly if they had before, or one had the name that the other, a hidden one, gets |
| LinkTool.LinkingPreserved | src/extractExternal.cpp:472-481 | for the symbols of all kept files, equal names before are equal names after and the other way round, exactly if no external name is the new name of a hidden one |
| LinkTool.LinkingBreaks | src/extractExternal.cpp:472-481 | two files and their rewritten forms, in which two symbols with different names get the same |
| LinkTool.HiddenNames | src/extractExternal.cpp:460-470 | exactly the names that required external files define are hidden |
| LinkTool.HideAll | src/extractExternal.cpp:472-481 | exactly the required external and the internal files are kept, all rewritten with the same hidden names |
| LinkTool.Run | src/extractExternal.cpp:451-481 | the whole tool: the least closed set of external files is kept, its definitions are hidden, and all links are kept exactly if no name is taken; it stops only on a broken symbol table or a string table that is too long |
| CasLoop.Keeps | src/kmp_atomic.cpp:773-786 | every read, test and compare-and-store of every thread keeps the books of the updates made so far |
| CasLoop.Linearised | src/kmp_atomic.cpp:2197-2217 | the variable is always the fold of the operator over the operands in the order of the successful stores, no call twice, and each capture got the value just before or just after its own update |
| CasLoop.EachOnce | src/kmp_atomic.cpp:773-786 | when no call is under way each call's update has been made, once |
| CasLoop.OrderIsFinal | src/kmp_atomic.cpp:773-786 | updates made before a call begins come before it, and no result ever changes |
| CasLoop.FailureMeansProgress | src/kmp_atomic.cpp:777-785 | a store fails only if another update succeeded since the read |
| CasLoop.EndsAlone | src/kmp_atomic.cpp:773-786 | wherever a thread stands in a call, three steps of its own without others in between make its update and end the call |
| CasLoop.FinalValue | src/kmp_atomic.cpp:773-786 | for operators with which the order does not matter, the final value is that of the calls made one after the other |
| CasLoop.EndsAtExtremum | src/kmp_atomic.cpp:1104-1129 | concurrent max or min updates end at the largest or smallest of the initial value and all operands |

## Left out

- Discovery and I/O: CPUID, affinity system calls, reading /proc/cpuinfo, object file parsing other than the symbol table, tracing and messages; the model starts from collected and sorted tables.
- hwloc, memkind, Windows processor groups and the OMP_PLACES parser.
- Weak memory ordering: each access to a shared word is one step of a sequentially consistent memory; a thread's private actions are merged with its step before them in `FastLists` and `DeferredFree`, and blocks are fresh addresses there.
- Machine integer wrap-around: sizes, counters, ids and totals are unbounded; thread ids of `CpuInfo` are bounded so that the counter does not reach the value that means "not given".
- BgetHeap.Heap.Bget: the call of the system allocator lies between `Bget` and `Expand`, and its answer is a parameter, fresh memory or none; the compaction callback is always null in the library, so the retry loop around the search is left out.
- BgetHeap.Heap.Enqueue: only the sequential effect on the owner's heap; the interleavings of pushing and taking are in `DeferredFree`.
- BgetRealloc.Move: memcpy is one action on a map of bytes that leaves out bytes never written; reallocating a buffer of another thread, which is then enqueued instead of released, is not modelled.
- bgetz, bcheck, bfreed and the calls that only report statistics.
- The field bthr, which names the owner of a buffer and carries a mark in its lowest bit, and __kmp_free_fast_memory, which gives all pools back by that mark; the owner is a parameter of `DeferredFree` and the heap's own thread elsewhere.
- PoolLimit.WithinLimit: an allocation that fails after it was charged stays charged; the model keeps that in a separate term, so the counter is not the sum of the live blocks alone.
- Descriptors.Memory.Hand: the mask arithmetic is modelled as rounding down to a multiple of the alignment, which is the same for the powers of two that allocators accept.
- ___kmp_allocate_align and ___kmp_free, whose descriptor arithmetic is that of the fast lists.
- Placement.Distribute: balance in passes after the first is not stated, because the code does not provide it; the model says where the threads go instead.
- Hierarchy.HierarchyInfo.Resize: concurrent callers; the lock on the flag is not modelled, so the contract is that of one caller at a time. Of two concurrent callers of `__kmp_get_hierarchy` the later one can ask for a resize that is no longer needed, if both have read the smaller size.
- Hierarchy.HierarchyInfo.Init: where the code would write past its arrays the model stops; also left out are waiting for another thread that is initializing or resizing, and the equality of each level's count with the skip table in levels added by `Resize`.
- MaskPrinter.StrBufMask: the older printing function with a bounded buffer is not modelled.
- SymbolNames.MakeTable: reading an existing table and rebuilding its directory; the table is a sequence of bytes.
- SymbolNames.Encode: the copy of a short name is that of strncpy; with strncpy_s on Windows (src/kmp_safe_c_api.h:28) a name of exactly eight bytes does not fit.
- LinkTool.Run: reading and checking the arguments, and removing and writing the files; as for `HideSymbols.Hide`, auxiliary records lie within the symbol table.
- ProcList.ReadNumber: unit suffixes and the saturation of numbers; by `ProcList.OnlyListCharacters` no text that is accepted has a suffix.
- HideSymbols.Hide: auxiliary records are assumed to lie within the symbol table, and the rest of the file is copied unchanged.
- CasLoop.Linearised: the variants that take a lock, the min, max and logical capture variants, and the retry delay; one abstract operator stands for all types, and floating point min and max with unordered values are not covered by the total order.
