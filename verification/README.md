# Verified model of the orange kernel

A Dafny model of the stateful cores of a single-hart RV64 teaching kernel, with proofs of what each core
promises over all inputs, all interleavings and whole runs. `dafny verify dfyconfig.toml` checks everything.

The model keeps the form of the C code. Objects the kernel updates in place are classes; the intrusive lists are
real links (numbered nodes, -1 for null) with a ghost sequence beside them; loops stay loops. Each class is proved
against a value-level specification, and the laws are lemmas about that specification:

* **Page allocator** (`Bits`, `Blocks`, `Links`, `Frames`, `Carving`, `PageCount`, `PageAllocator`, `EarlyMemory`):
  the multi-region buddy allocator with its frame tags and free lists, the greedy carving around reservations, and the
  early bump allocator. Main results: at every API boundary the free blocks are exactly the maximal legal blocks of
  free pages; allocation fails exactly if no aligned run is free; equal sets of allocated blocks mean equal free blocks,
  whatever happened in between; pages are conserved; no reserved page is ever free.
* **Byte allocator** (`SlabLists`, `ByteAllocator`): one-page slabs, three lists per size class, the free chain inside
  the objects, and the per-page owner tag. Main results: `kfree` acts if and only if the pointer is live; a byte belongs
  to at most one live allocation; `kmalloc` of a small size fails exactly if every object of the class is live and no page is
  free, and takes a page only in the first case; its error exits are never taken; once nothing is live the heap holds at
  most one page per size class.
* **Threads** (`Threads`, `ThreadEffects`, `KernelLists`, `Kernel`): run queue, wait registrations on two lists at once, thread lifetime
  and reaping. `Threads` is a state machine whose steps are the interrupt-off sections; its theorems hold for every
  order of steps. `Kernel` is the pointer code, proved to perform those steps, and `ThreadEffects`
  says outright whom each step runs, wakes or buries, and in which order.
* **UART as client** (`RingBuffer`, `Sleepers`, `Uart`, `UartDriver`): readers and writers sleeping on the rings. Main
  result: in every run no wake-up is lost on either side if and only if no step stops a thread whose wake-up is needed.
* **Deferred work and timers** (`DeferredWork`, `Runner`, `Timers`, `TimerQueue`): the non-reentrant bottom-half runner
  under nested traps, the pooled one-shot callbacks, and the sorted deadline queue. The class methods keep a ghost trace,
  which is a run of the machine the theorems are about. What interrupts, handlers and callbacks do is an arbitrary script.
  Main results: the runner adds nothing to what others do, starts every pending type and, unless
  somebody clears the custom type, returns only when every accepted callback has been called, in order; no timer callback runs before the time its
  request asked for, and of two pending requests the earlier is served first; the events due on entry fire first and in order, up to the budget.
* **Binary parsers** (`ByteSeqs`, `FdtTokens`, `Fdt`, `FdtTree`, `FdtLookup`, `FdtMemory`, `Cpio`): the device-tree validator and the unchecked
  walkers behind it, path, property and memory-region lookup against the encoded tree, and the newc archive reader. Main
  results: the validator accepts exactly the blocks that encode a tree, and every lookup in such a block is a lookup in the tree;
  the archive reader accepts exactly the bytes that spell an archive.

Inputs the kernel gets from outside are parameters: device readiness and bytes, the time counter, whether the heap can
serve a request (in thread creation), and what other code does at points where interrupts are on. Physical addresses are
natural numbers below 2^64.

Where the code and the repository's documentation differ, the model follows the code: `README.md` lines 40-44 and
535-537 describe an older priority queue for deferred work and say that threads never block; `bottom_half.c` and
`wait.c` are modelled.

Two properties one might expect are false of the code, and the model says exactly when they hold:

* A wake-up is lost when a thread is stopped after it was woken and before it tried again. `Uart.StopCanLose` is a run
  from boot in which this happens, `Uart.StopExact` the exact condition for one stop, and `Uart.NeverLost` for whole runs.
* Callbacks stay queued although the runner returned when the custom bottom half is cleared while they wait.
  `DeferredWork.SomeLeftBehind` is such a run and `DeferredWork.LeftBehind` says for every run exactly when it happens.

## Model

| member | source | states |
|---|---|---|
| `Bits.MaskTestsAlignment` | kernel/src/memory.c:587 | the bit-mask test `x & (2^o - 1)` is zero exactly for multiples of 2^o |
| `Bits.XorSibling` | kernel/src/memory.c:529-558 | XOR with 2^o toggles between the left and the right half of the enclosing block of order o+1 |
| `Bits.NestedIfOverlap` | kernel/src/memory.c:529-558 | aligned power-of-two blocks that share a page are nested |
| `Bits.AlignDownIs` | kernel/src/memory.c:84-87 | masking rounds down to a multiple of a power of two |
| `Bits.AlignUpLeast` | kernel/src/memory.c:89-92 | without overflow the result is the least multiple that is not smaller |
| `Blocks.HalvesFit` | kernel/src/memory.c:689-713 | both halves of a legal block are legal, have no page in common and together have exactly its pages; each is the buddy of the other |
| `Blocks.SiblingFits` | kernel/src/memory.c:775-793 | a block and its in-region buddy are the two halves of a legal parent block |
| `Blocks.ShrinkOk` | kernel/src/memory.c:689-713 | one split step keeps tiling and the absence of free buddy pairs |
| `Blocks.GrowOk` | kernel/src/memory.c:775-793 | one merge step keeps tiling and the absence of free buddy pairs |
| `Blocks.MergeOk` | kernel/src/memory.c:744-819 | merging upward and releasing keeps the invariant and removes exactly the freed block from the used ones |
| `Blocks.AllocOk` | kernel/src/memory.c:654-742 | taking a free block and splitting it down keeps the invariant and adds exactly the block handed out |
| `Blocks.AllocatedApart` | kernel/src/memory.c:654-742 | what an allocation hands out meets no block in use |
| `Blocks.FreeRunInOneBlock` | kernel/src/memory.c:666-683 | a legal run of free pages lies inside a single free block, which is why looking at list heads is enough |
| `Blocks.Canonical` | kernel/src/memory.c:574-598 | a block is on the free side if and only if it is a maximal legal block of free pages (order at most 20, inside one region) |
| `Blocks.FreeDeterminedByUsed` | kernel/src/memory.c:775-793 | two states with the same pages in use have the same free blocks |
| `Blocks.ApplyOk` | kernel/src/memory.c:654-819 | every allocation and every release keeps the invariant |
| `Blocks.RunOk` | kernel/src/memory.c:654-819 | the invariant holds in every state of every run of allocations and releases |
| `Blocks.AnyOrderRestores` | kernel/src/memory.c:654-819 | in any run, two states with the same allocated blocks are equal; releasing everything in any order restores the initial free blocks |
| `Links.PushLinks` | kernel/src/memory.c:426-448 | pushing in front keeps all lists acyclic, consistent in both directions and pairwise disjoint |
| `Links.RemoveLinks` | kernel/src/memory.c:483-522 | unlinking from the middle removes one node and keeps the order of the rest and every other list |
| `Links.AppendLinks` | kernel/src/wait.c:30-38 | appending behind the tail keeps all lists consistent |
| `Links.MinusAt` | kernel/src/wait.c:66-94 | removing an entry keeps the order of the rest |
| `Links.ChainWithout` | kernel/src/sched.c:69-90 | unlinking from a singly linked list with a tail pointer yields the list without that node and the right tail |
| `Links.ChainInsert` | kernel/src/timer.c:199-204 | linking in through a link pointer inserts at that position |
| `Frames.TagTells` | kernel/src/memory.c:15-25 | the tag of a frame says exactly whether the page heads a free block, lies inside one, heads an allocated block, or is inside an allocated block or reserved |
| `Frames.SplitRepresents` | kernel/src/memory.c:689-713 | lists and tags describe the blocks again after a split |
| `Frames.GrowRepresents` | kernel/src/memory.c:775-793 | lists and tags describe the blocks again after absorbing the buddy |
| `Frames.ReleaseRepresents` | kernel/src/memory.c:794-819 | lists and tags describe the blocks again after the release |
| `Frames.SiblingTag` | kernel/src/memory.c:780-786 | the tag test on the buddy holds exactly if the buddy is a free block of the same order |
| `Frames.NoFreeRun` | kernel/src/memory.c:666-683 | if all lists from the needed order up are empty, no region holds an aligned free run of that size |
| `Frames.FirstListSmallest` | kernel/src/memory.c:666-683 | the first non-empty list gives a block of the smallest sufficient order |
| `Carving.NextMaximal` | kernel/src/memory.c:574-598 | the greedy choice is a maximal aligned block of the run |
| `Carving.NextClean` | kernel/src/memory.c:574-598 | after carving it, no maximal block crosses the new start |
| `Carving.AddOk` | kernel/src/memory.c:574-598 | adding carved blocks keeps the invariant: no two free buddies |
| `PageCount.ListedPagesCount` | kernel/src/memory.c:124-146 | summing list lengths times block sizes gives the number of free pages |
| `PageCount.PagesConserved` | kernel/src/memory.c:137-146 | free, allocated and reserved pages are disjoint and add up to the managed pages |
| `PageAllocator.AddressInjective` | kernel/src/memory.c:333-354 | different page indices have different addresses |
| `PageAllocator.Allocator.constructor` | kernel/src/memory.c:601-621 | all pages tagged reserved, all lists empty |
| `PageAllocator.IsReserved` | kernel/src/memory.c:227-236 | true exactly for addresses inside a recorded range |
| `PageAllocator.Allocator.FindRegionByIndex` | kernel/src/memory.c:306-331 | finds the region of every managed page and nothing else; the single-region shortcut agrees with the scan |
| `PageAllocator.Allocator.IndexToPa` | kernel/src/memory.c:333-354 | the address of a managed page, an error for any other index |
| `PageAllocator.Allocator.PaToIndex` | kernel/src/memory.c:356-394 | inverse of the address map; fails exactly for addresses that are no managed page |
| `PageAllocator.Allocator.FreelistPush` | kernel/src/memory.c:426-448 | the list gains the head, the links stay consistent |
| `PageAllocator.Allocator.FreelistPop` | kernel/src/memory.c:451-476 | the list loses its first element, or nothing changes if it is empty |
| `PageAllocator.Allocator.FreelistRemove` | kernel/src/memory.c:483-522 | succeeds exactly for a head tagged with this order, and then removes it without disturbing the others |
| `PageAllocator.Allocator.BlockMarkFree` | kernel/src/memory.c:402-410 | tags of the block say free, other frames unchanged |
| `PageAllocator.Allocator.BlockMarkAlloc` | kernel/src/memory.c:416-424 | tags of the block say allocated, other frames unchanged |
| `PageAllocator.Allocator.NeedOrder` | kernel/src/memory.c:660-664 | the least order whose block holds the requested pages |
| `PageAllocator.Allocator.FirstNonEmpty` | kernel/src/memory.c:666-683 | the least order from the needed one up with a non-empty list, or 21 |
| `PageAllocator.Allocator.SplitDown` | kernel/src/memory.c:689-713 | the block in hand is cut to the needed order, each right half becomes free |
| `PageAllocator.Allocator.PAlloc` | kernel/src/memory.c:654-742 | null exactly if the allocator is not ready, the count is 0 or too large, or no legal run of that many pages is free, and then nothing changes; otherwise the first block of the smallest sufficient order, cut down to size |
| `PageAllocator.Allocator.BuddyIndex` | kernel/src/memory.c:529-558 | the buddy relative to the region start, refused exactly when it lies beyond the region |
| `PageAllocator.Allocator.MergeOnce` | kernel/src/memory.c:775-793 | absorbs the buddy exactly if it is a free block of the same order in the same region |
| `PageAllocator.Allocator.MergeAndRelease` | kernel/src/memory.c:775-819 | merges as long as possible and puts the result on its list |
| `PageAllocator.Allocator.PFree` | kernel/src/memory.c:744-819 | acts if and only if the address is the head of an allocated block; then the state is the fully merged one, otherwise nothing changes |
| `PageAllocator.Allocator.PageQuery` | kernel/src/memory.c:1060-1071 | index, owner kind and whether the address heads an allocated block; fails exactly for unmanaged addresses |
| `PageAllocator.Allocator.PageSetKind` | kernel/src/memory.c:1073-1081 | changes the kind of an allocated head only |
| `PageAllocator.Allocator.ChooseOrder` | kernel/src/memory.c:574-590 | the largest order that fits the rest of the run and the alignment |
| `PageAllocator.Allocator.AddFreeRun` | kernel/src/memory.c:574-598 | a run becomes its maximal blocks |
| `PageAllocator.Allocator.BuildRegion` | kernel/src/memory.c:623-652 | exactly the unreserved pages of the region become free |
| `PageAllocator.Allocator.BuildInitialState` | kernel/src/memory.c:623-652 | exactly the unreserved pages become free, as maximal blocks |
| `PageAllocator.Allocator.TotalFreePages` | kernel/src/memory.c:137-146 | the number of pages in free blocks |
| `EarlyMemory.Early.Init` | kernel/src/memory.c:238-250 | the cursor never starts below the first page, an overflowing end is clipped, ready exactly if room is left |
| `EarlyMemory.Early.Reserve` | kernel/src/memory.c:174-225 | exactly the pages the range touches become reserved, unless the 64-entry table is full |
| `EarlyMemory.Early.Alloc` | kernel/src/memory.c:255-303 | terminates; null exactly if the request is empty, badly aligned or has no place beside the reservations, and then nothing changes; otherwise the lowest such place, itself recorded |
| `EarlyMemory.DiscoverRegions` | kernel/src/memory.c:927-964 | succeeds exactly if no range starts in the last page of the address space, no two share a page and the page count fits 31 bits; the regions hold exactly the whole pages, numbered consecutively |
| `EarlyMemory.BuildAllocator` | kernel/src/memory.c:1005-1042 | a page is usable exactly if no reservation touches it |
| `EarlyMemory.MemoryInit` | kernel/src/memory.c:895-1058 | a page is usable exactly if neither the first page, the device tree, the kernel, the user image, an initrd, reserve-map or reserved-memory range, nor the frame metadata touches it; fails exactly if the ranges are not acceptable, hold no page or leave no room for the metadata, which lies in the first region apart from all these ranges; at most 38 of the 64 reservation slots are used, so none is dropped |
| `EarlyMemory.RequestsClaim` | kernel/src/memory.c:987-1033 | the list of reservation requests touches a page exactly if one of the named ranges does |
| `SlabLists.Layout` | kernel/src/slab.c:347-381 | the code's layout arithmetic gives the first-object offset and capacity of each class |
| `SlabLists.ObjectPlace` | kernel/src/slab.c:347-381 | objects lie behind the header, inside the page and apart from each other |
| `SlabLists.LiveMeansInUse` | kernel/src/slab.c:600-640 | an object that is not on the free chain is counted as in use |
| `ByteAllocator.Heap.constructor` | kernel/src/slab.c:68-74 | no slabs, all lists empty |
| `ByteAllocator.Heap.CacheAdd` | kernel/src/slab.c:176-222 | the slab goes in front of the list of its new state |
| `ByteAllocator.Heap.CacheRemove` | kernel/src/slab.c:224-251 | the slab leaves the list of its state, the others keep their order |
| `ByteAllocator.Heap.CacheMove` | kernel/src/slab.c:253-281 | the slab changes list and nothing else changes |
| `ByteAllocator.Heap.TakeObject` | kernel/src/slab.c:297-309 | the first free object becomes live, no other object changes |
| `ByteAllocator.Heap.GiveObject` | kernel/src/slab.c:283-295 | a live object goes on the free chain, no other object changes |
| `ByteAllocator.Heap.FreelistContains` | kernel/src/slab.c:311-328 | true exactly for objects on the free chain |
| `ByteAllocator.Heap.SizeToClass` | kernel/src/slab.c:330-345 | the smallest class that fits, or -1 for 0 and for sizes above 2048 |
| `ByteAllocator.Heap.CarveSlots` | kernel/src/slab.c:423-432 | the chain holds every slot of the page once |
| `ByteAllocator.Heap.Refill` | kernel/src/slab.c:383-434 | exactly one page becomes a slab of the class; fails exactly if no page is free, and then changes nothing |
| `ByteAllocator.Heap.EnsurePartial` | kernel/src/slab.c:447-468 | a partial slab is available: an existing one, the kept empty one, or a new one; fails exactly if every object of the class is live and no page is free, and takes a page only if every object is live |
| `ByteAllocator.Heap.NoneListed` | kernel/src/slab.c:453-460 | if a class has neither partial nor empty slabs, every object of it is live |
| `ByteAllocator.Heap.ListedFree` | kernel/src/slab.c:453-460 | conversely a listed partial or empty slab has an object that is not live |
| `ByteAllocator.Heap.PickedSlab` | kernel/src/slab.c:461-490 | the picked slab is partial, has a free object and room in its count: the error exits are never taken |
| `ByteAllocator.Heap.KmallocSmall` | kernel/src/slab.c:442-511 | null exactly if every object of the smallest sufficient class is live and no page is free, and then nothing changes; otherwise a fresh object of it, with a new page only if every object of the class was live |
| `ByteAllocator.Heap.KmallocLarge` | kernel/src/slab.c:512-530 | one block tagged as a large allocation; null exactly if the size is too large or no such run is free, and then nothing changes |
| `ByteAllocator.Heap.Kmalloc` | kernel/src/slab.c:436-530 | null exactly if not ready, for size 0, or if nothing fits: for small sizes if every object of the class is live and no page is free, for large ones if no run is free; otherwise a pointer that was not live becomes the only new live one |
| `ByteAllocator.Heap.PageOwner` | kernel/src/slab.c:553-570 | the owner tag of a page decides which pointers into it can be live |
| `ByteAllocator.Heap.AcceptsObject` | kernel/src/slab.c:571-638 | range, stride, count and free-chain tests accept exactly the live objects of the page |
| `ByteAllocator.Heap.UntagAndFree` | kernel/src/slab.c:669-691 | the tag is cleared and exactly this block goes back to the page allocator |
| `ByteAllocator.Heap.ReturnObject` | kernel/src/slab.c:639-702 | exactly this object dies; the slab moves to the list its new count demands, and no page goes back but its own |
| `ByteAllocator.Heap.RetireSlab` | kernel/src/slab.c:659-691 | the empty slab is kept if its class keeps none yet, otherwise exactly its page goes back |
| `ByteAllocator.Heap.FreeLarge` | kernel/src/slab.c:703-738 | exactly this large allocation dies and exactly its block goes back |
| `ByteAllocator.Heap.Kfree` | kernel/src/slab.c:532-740 | acts if and only if the pointer is live, ends exactly that allocation and gives back exactly its block or the page of its retired slab; interior, misaligned, repeated and foreign pointers change nothing |
| `ByteAllocator.OneOwner` | kernel/src/slab.c:384-740 | a byte belongs to at most one live allocation, slab object or whole block |
| `ByteAllocator.HeapParts` | kernel/src/slab.c:383-740 | every allocated block is a slab page, a live large allocation or somebody else's, and only one of these |
| `ByteAllocator.Heap.NothingLeaks` | kernel/src/slab.c:659-691 | once nothing is live the heap holds at most one page per size class |
| `ByteAllocator.SomeLive` | kernel/src/slab.c:600-640 | a slab that counts an object in use has one that is not on its free chain |
| `ByteAllocator.Heap.ClientPAlloc` | kernel/src/slab.c:553-560 | direct page allocations do not disturb the byte allocator |
| `ByteAllocator.Heap.ClientPFree` | kernel/src/slab.c:553-560 | nor do direct releases of pages it does not own |
| `ByteAllocator.Heap.ClientWriteObject` | kernel/src/slab.c:283-295 | writing any words of a live object keeps the invariant |
| `ByteAllocator.Heap.ClientWritePage` | kernel/src/slab.c:571-600 | writing any words of a page that is no slab, even a copy of a slab header, makes nothing live |
| `Threads.HeadRunnable` | kernel/src/sched.c:146-162 | the head of the run queue is runnable and not current: the skip loop and the same-thread exit of the scheduler never fire |
| `Threads.ScheduleOk` | kernel/src/sched.c:119-176 | a switch keeps the invariant: the queue holds exactly the runnable workers, each once, and the current thread is off it |
| `ThreadEffects.ScheduleEffect` | kernel/src/sched.c:119-176 | the first queued thread runs, or idle if there is none; a worker that was running is queued last, nobody else is, and no other thread changes state |
| `ThreadEffects.IdleRuns` | kernel/src/sched.c:146-156 | in every run, a switch with nobody queued makes idle current, and idle then takes the first zombie for reaping |
| `Threads.PublishOk` | kernel/src/thread.c:106-116 | publishing keeps the invariant and acts on new threads only |
| `Threads.PrepareOk` | kernel/src/wait.c:19-47 | registering keeps the invariant: the entry is in exactly its resource's queue and its owner's list |
| `Threads.UnlinkOk` | kernel/src/wait.c:66-94 | after unlinking, exactly that entry is gone from both lists |
| `Threads.FinishOk` | kernel/src/wait.c:66-100 | finishing keeps the invariant and a second finish changes nothing |
| `Threads.CancelOk` | kernel/src/wait.c:115-122 | afterwards the thread has no registration, and no other thread's registrations changed |
| `ThreadEffects.CancelLists` | kernel/src/wait.c:115-122 | every wait queue keeps exactly the entries of other threads, in their order |
| `Threads.WakeTaskOk` | kernel/src/wait.c:124-142 | any number of wake-ups from any queues queue a sleeper at most once |
| `Threads.FirstWaiterIsFirst` | kernel/src/wait.c:144-154 | the sleeper that registered first is woken: nobody ahead of it in the queue sleeps |
| `Threads.WakeOneOk` | kernel/src/wait.c:144-154 | waking the first sleeper keeps the invariant |
| `Threads.WakeFromOk` | kernel/src/wait.c:156-164 | waking all keeps the invariant |
| `ThreadEffects.AsleepOrder` | kernel/src/wait.c:30-38 | the sleepers of a queue are ordered as they registered: the earlier one has an entry ahead of all entries of the later |
| `ThreadEffects.AsleepFacts` | kernel/src/wait.c:124-164 | they are exactly the waiting threads with an entry in the queue, each once, however many entries it has |
| `ThreadEffects.WakeOneEffect` | kernel/src/wait.c:144-154 | exactly the first sleeper of the queue, if there is one, becomes runnable and is queued last, or simply runs on if it is the current thread |
| `ThreadEffects.WakeAllEffect` | kernel/src/wait.c:156-164 | exactly the sleepers of the queue become runnable and are queued last in the order they registered; the current thread, if among them, simply runs on |
| `ThreadEffects.WakeNext` | kernel/src/wait.c:144-154 | n wake-ups of one thread each wake the first n sleepers, in order |
| `Threads.StopOk` | kernel/src/thread.c:253-302 | killing a thread in any state keeps the invariant |
| `ThreadEffects.BuriedIf` | kernel/src/thread.c:253-302 | a stop makes the thread a zombie at the head of the zombie list, off the run queue and with no registration on any list, and changes nothing else; it does nothing exactly to idle, unpublished and dead threads |
| `Threads.StopEffect` | kernel/src/thread.c:275-302 | stopping changes no other thread's state and not the thread list |
| `Threads.StopGroupEffect` | kernel/src/thread.c:304-319 | every listed thread of the group is a zombie afterwards and no other thread changed state |
| `Threads.ReapUnlinkOk` | kernel/src/thread.c:367 | after leaving the thread list the zombie may be freed |
| `Threads.ReapSafety` | kernel/src/thread.c:347-376 | a thread about to be freed is not current, not idle, in no run queue, wait queue, thread list or zombie list, and no wait entry names it |
| `Threads.NextOk` | kernel/src/thread.c:253-376 | every interrupt-off section of scheduler, wait queues and thread lifetime keeps the invariant |
| `Threads.RunInv` | kernel/src/thread.c:253-376 | the invariant holds in every state of every run, for every interleaving |
| `Threads.DeathIsFinal` | kernel/src/thread.c:347-376 | a dead thread stays dead; it is freed only by the reaper, once |
| `Threads.FreedForever` | kernel/src/thread.c:347-376 | a freed thread stays freed for the rest of the run |
| `Threads.Advance` | kernel/src/sched.c:119-176 | no step but its own stop moves a queued thread backwards, and each schedule moves it forward |
| `Threads.RunsWithin` | kernel/src/sched.c:119-176 | a thread at queue position k that nobody stops is current after at most k+1 schedules |
| `KernelLists.RunQueue.Enqueue` | kernel/src/sched.c:36-46 | append at the tail |
| `KernelLists.RunQueue.Pop` | kernel/src/sched.c:48-63 | remove the head, null if empty |
| `KernelLists.RunQueue.Remove` | kernel/src/sched.c:69-90 | the queue without the thread, in order; no change if it is not queued |
| `KernelLists.ThreadList.Push` | kernel/src/thread.c:38-46 | push in front |
| `KernelLists.ThreadList.Remove` | kernel/src/thread.c:48-70 | the list without the thread, in order |
| `KernelLists.WaitQueues.Append` | kernel/src/wait.c:30-38 | the entry becomes the last of its queue |
| `KernelLists.WaitQueues.Unlink` | kernel/src/wait.c:71-80 | the queue without the entry, found through its own links |
| `KernelLists.Registrations.Push` | kernel/src/wait.c:40-44 | the entry becomes the first of its owner's list |
| `KernelLists.Registrations.Unlink` | kernel/src/wait.c:82-87 | the owner's list without the entry |
| `Kernel.Kernel.constructor` | kernel/src/sched.c:98-116 | after bootstrap only the idle thread exists and runs, and the invariant holds |
| `Kernel.Kernel.Schedule` | kernel/src/sched.c:119-176 | the first queued thread runs, or idle; a worker that was running is queued last, nobody else is; no other state changes, and the reschedule request is cleared |
| `Kernel.Kernel.Prepare` | kernel/src/wait.c:19-47 | registers exactly if the thread may wait and the entry is unused; otherwise nothing changes |
| `Kernel.Kernel.WaitLocked` | kernel/src/wait.c:49-61 | gives up the processor exactly if no wake-up arrived since the registration |
| `Kernel.Kernel.Finish` | kernel/src/wait.c:66-100 | performs the finish step on both linked lists |
| `Kernel.Kernel.Cancel` | kernel/src/wait.c:118-122 | the thread's entries leave both lists they are on; the entries of others keep their order |
| `Kernel.Kernel.WakeWaiter` | kernel/src/wait.c:124-142 | wakes exactly a waiting task, and requests a reschedule exactly if another task was queued |
| `Kernel.Kernel.WakeOne` | kernel/src/wait.c:144-154 | wakes exactly the first sleeper of the queue, skipping those already awake |
| `Kernel.Kernel.WakeAll` | kernel/src/wait.c:156-164 | wakes exactly the sleepers of the queue, in the order they registered |
| `Kernel.TidsNext` | kernel/src/thread.c:25-36 | the next identifier differs from all identifiers in use |
| `Kernel.Kernel.Alloc` | kernel/src/thread.c:78-103 | a private thread with a fresh identifier; fails exactly if identifiers or memory ran out, without a visible thread |
| `Kernel.Kernel.Publish` | kernel/src/thread.c:106-116 | performs the publish step |
| `Kernel.Kernel.CreateUser` | kernel/src/thread.c:175-203 | a thread in the current process, runnable at the tail of the queue, or no thread at all |
| `Kernel.Kernel.FindByTid` | kernel/src/thread.c:236-251 | a listed thread with the identifier, -1 exactly if there is none |
| `Kernel.Kernel.MarkCurrentZombie` | kernel/src/thread.c:253-273 | the current worker is stopped; idle and dead threads are left alone |
| `Kernel.Kernel.StopTid` | kernel/src/thread.c:275-302 | succeeds exactly if a listed thread other than idle has the identifier; that thread, if it lived, is then a zombie off the run queue and off every wait queue, and nothing else changed |
| `Kernel.Kernel.StopProcess` | kernel/src/thread.c:304-319 | exactly the listed threads of the group, except idle, become zombies; reports whether there was one |
| `Kernel.Kernel.ReapPop` | kernel/src/thread.c:353-362 | takes the first zombie unless it still runs |
| `Kernel.Kernel.ReapUnlink` | kernel/src/thread.c:48-70 | the zombie leaves the thread list |
| `Kernel.Kernel.ReapFree` | kernel/src/thread.c:368-374 | the zombie is freed |
| `Kernel.Kernel.ReapZombies` | kernel/src/thread.c:347-376 | every zombie is freed if the caller is none, no other thread changes state |
| `Kernel.Kernel.HasLiveWorkers` | kernel/src/thread.c:378-392 | true exactly if a listed thread is neither idle nor dead |
| `RingBuffer.RingBuf.Push` | kernel/src/ringbuf.c:14-24 | appends, or refuses exactly when 128 characters are buffered |
| `RingBuffer.RingBuf.Pop` | kernel/src/ringbuf.c:26-36 | removes the oldest character, or fails exactly when empty |
| `Sleepers.ProduceOk` | kernel/src/uart.c:374-385 | a new unit with its wake-up keeps the bound on lost wake-ups |
| `Sleepers.TakeOk` | kernel/src/uart.c:294-297 | taking a unit keeps the bound, whoever takes it |
| `Sleepers.SleepOk` | kernel/src/wait.c:102-113 | a client that finds nothing and falls asleep keeps the bound, because registering and checking are one section |
| `Sleepers.ResumeOk` | kernel/src/wait.c:110-112 | a woken client that runs again still counts until it tried |
| `Sleepers.StopChannelOk` | kernel/src/thread.c:275-302 | stopping a client loses at most its own wake-up |
| `Uart.DoOk` | kernel/src/uart.c:241-327 | every section of readers, writers, drains and of the rest of the kernel keeps the UART invariant |
| `Uart.NeverLost` | kernel/src/uart.c:139-163 | in every run: at every point a sleeping reader means that buffered characters are at most the woken readers that have not tried again, and the same for writers and free slots, if and only if no step stops a client whose wake-up is needed |
| `Uart.StepExact` | kernel/src/uart.c:241-327 | every step of the UART or of the rest of the kernel keeps this, except exactly those stops |
| `Uart.SomeReaderReady` | kernel/src/uart.c:285-302 | a reader sleeps beside buffered characters only if another reader is runnable or running |
| `Uart.InOrder` | kernel/src/uart.c:139-163 | in every run characters leave each ring in the order they entered |
| `Uart.StopExact` | kernel/src/thread.c:275-302 | a stop loses a wake-up if and only if the thread was woken as a reader or writer, another one sleeps there, and the characters or free slots equal the woken threads |
| `Uart.StopCanLose` | kernel/src/thread.c:275-302 | a run from boot in which such a stop leaves a reader asleep beside a buffered character |
| `UartDriver.Driver.constructor` | kernel/src/uart.c:177-189 | empty rings, nobody waiting |
| `UartDriver.Driver.ReceiveOne` | kernel/src/uart.c:374-385 | buffers the byte and wakes a reader, or drops it when the ring is full |
| `UartDriver.Driver.RxDrain` | kernel/src/uart.c:368-387 | takes at most the budget of the device's bytes; as many as the ring has room for are appended in order, the rest is dropped, and that many of the first sleeping readers are woken |
| `UartDriver.ReceivesEffect` | kernel/src/uart.c:370-386 | receiving bytes one by one appends those the ring has room for and wakes one reader each, in the order they registered |
| `UartDriver.Driver.TxTryDrainOne` | kernel/src/uart.c:139-163 | exactly if the device is ready and the ring is not empty: sends the oldest character and wakes exactly the first sleeping writer |
| `UartDriver.Driver.Sleep` | kernel/src/wait.c:102-110 | registers and switches away in one section; refused exactly for idle, for a stopped thread and where sleeping is not allowed, and then nothing is linked |
| `UartDriver.Driver.RecvRound` | kernel/src/uart.c:290-301 | takes the oldest character; without one it sleeps if the caller may, is refused sleep if it was stopped, and otherwise changes nothing |
| `UartDriver.Driver.SendRound` | kernel/src/uart.c:246-263 | queues the character; with a full ring it sleeps if the caller may, is refused sleep if it was stopped, and otherwise feeds the device itself |
| `UartDriver.Driver.WakeUpReader` | kernel/src/wait.c:110-112 | the resumed reader leaves both lists |
| `UartDriver.Driver.WakeUpWriter` | kernel/src/wait.c:110-112 | the resumed writer leaves both lists |
| `UartDriver.Driver.RecvPolled` | kernel/src/uart.c:305-327 | the oldest character of the ring, or the byte in the device if the ring is empty, or nothing |
| `UartDriver.Driver.SendPolled` | kernel/src/uart.c:266-282 | straight to the device exactly if the ring is empty and the device ready; otherwise an older character is sent first and the first sleeping writer woken |
| `UartDriver.Driver.WriteAsync` | kernel/src/uart.c:493-509 | the whole buffer is queued in order if there is room for all of it, otherwise nothing changes |
| `DeferredWork.Ordered` | kernel/src/bottom_half.c:71-84 | the types of a round in dispatch order |
| `DeferredWork.OrderedHas` | kernel/src/bottom_half.c:66-84 | exactly the pending types are selected for the round |
| `DeferredWork.NextOk` | kernel/src/bottom_half.c:55-89 | every step keeps the runner and pool invariant |
| `DeferredWork.RaiseIsServed` | kernel/src/bottom_half.c:55-89 | every raise is followed by a start of its handler or a clear before the runner returns |
| `DeferredWork.IrqRestored` | kernel/src/bottom_half.c:57-88 | the interrupt-enable bit on return equals the one on entry |
| `DeferredWork.OneRunner` | kernel/src/bottom_half.c:59-64 | no dispatch loop is entered before the one entered last has exited; that the code keeps to this is part of `RunBottomHalves` |
| `DeferredWork.NoOvertaking` | kernel/src/bottom_half.c:65-86 | a type raised during a round never starts before a type already selected for it |
| `DeferredWork.NotForgottenStep` | kernel/src/custom_work.c:24-51 | queued callbacks always have the custom type pending, selected or about to take them |
| `DeferredWork.DeferEffect` | kernel/src/custom_work.c:24-51 | a submission is recorded, queued last and announced exactly if a slot is free; otherwise nothing changes |
| `DeferredWork.SubmittedAre` | kernel/src/custom_work.c:24-51 | between any two points of a run the recorded submissions grow by exactly those made while a slot was free, in order |
| `DeferredWork.LeftBehind` | kernel/src/bottom_half.c:30-39 | when the runner returns callbacks are still queued if and only if the custom type was cleared while they waited unselected and was not raised again |
| `DeferredWork.SomeLeftBehind` | kernel/src/bottom_half.c:30-39 | a run in which this happens: submit, clear, run |
| `DeferredWork.AllCalled` | kernel/src/custom_work.c:53-70 | when the runner returns and nobody cleared the custom type meanwhile, every callback ever accepted has been called exactly once, in acceptance order, with the arguments submitted, and the pool is free; the calls are those accepted before and every submission made since while a slot was free |
| `DeferredWork.SlotKept` | kernel/src/custom_work.c:61-69 | a slot keeps its callback and is not reused until the callback returned |
| `Runner.BottomHalves.Raise` | kernel/src/bottom_half.c:19-28 | sets the type's bit |
| `Runner.BottomHalves.Clear` | kernel/src/bottom_half.c:30-39 | clears the type's bit |
| `Runner.BottomHalves.Defer` | kernel/src/custom_work.c:24-51 | accepts exactly if a callback is given and a slot is free; then it is stored in the first free slot, queued last, recorded last and the custom type is pending; otherwise nothing changes |
| `Runner.BottomHalves.Interrupts` | kernel/src/bottom_half.c:55-64 | performs exactly the acts of interrupts and handlers up to the next point; a nested trap calls the runner again, which returns at once |
| `Runner.BottomHalves.CallFirst` | kernel/src/custom_work.c:61-69 | calls the first callback of the batch with what was submitted and frees its slot after it returned |
| `Runner.BottomHalves.RunCustomCallbacks` | kernel/src/custom_work.c:53-70 | calls exactly the callbacks queued when it started; later submissions wait for the next |
| `Runner.BottomHalves.RunRound` | kernel/src/bottom_half.c:65-86 | starts exactly the types pending at the start of the round, each once, in dispatch order, and adds no act of others |
| `Runner.BottomHalves.RunBottomHalves` | kernel/src/bottom_half.c:55-89 | a nested call changes nothing; the outer call starts every type pending on entry, returns with nothing pending and the interrupt bit restored, and adds no raise or clear of its own; if nothing was stranded before and nobody clears the custom type, every submission has been called with its argument, in order, and every slot is free |
| `Timers.InsertSorted` | kernel/src/timer.c:195-204 | the insertion keeps the queue sorted by deadline, ties in order of acceptance |
| `Timers.DeadlineOk` | kernel/src/timer.c:94-112 | the programmed deadline is not later than the first event's |
| `Timers.CatchUpLeast` | kernel/src/timer.c:245-247 | the scheduler tick moves by whole intervals to the first one after the present |
| `Timers.DeadlineEarliest` | kernel/src/timer.c:94-112 | the deadline is the tick or the first event, whichever is earlier, and 0 exactly if there is neither |
| `Timers.AddEffect` | kernel/src/timer.c:187-206 | an accepted event gets the deadline asked for and waits behind all events due no later and ahead of all others |
| `Timers.NotBeforeRequest` | kernel/src/timer.c:219-279 | in every run, no callback starts before the time its request asked for |
| `Timers.ServedInOrder` | kernel/src/timer.c:158-279 | in every run, of two requests pending together the one for the earlier time, or the one made first, is served first |
| `Timers.NextOk` | kernel/src/timer.c:158-312 | every section keeps the timer invariant |
| `Timers.NeverEarly` | kernel/src/timer.c:235-256 | an event fires only when due, and is then the earliest of all pending ones |
| `Timers.FiresInOrder` | kernel/src/timer.c:235-256 | of two events pending together the one with the earlier deadline, or accepted first, fires first |
| `Timers.CleanedAtMostOnce` | kernel/src/timer.c:262-309 | an event is cleaned up at most once, and never while it is pending or its callback runs |
| `Timers.AllCleaned` | kernel/src/timer.c:262-309 | when nothing is pending, running or detached, every accepted event was cleaned up exactly once |
| `Timers.LeftoverRaised` | kernel/src/timer.c:270-278 | a due event the budget left over has the notification raised again, and the hardware is armed in time |
| `TimerQueue.Timer.Deadline` | kernel/src/timer.c:94-112 | the earlier of the scheduler tick and the first event |
| `TimerQueue.Timer.AddTimer` | kernel/src/timer.c:158-209 | accepts exactly if a callback is given, memory is there, the deadline does not overflow and the timer runs; then the event has deadline clock + duration and stands behind all due no later and ahead of all others; otherwise nothing changes |
| `TimerQueue.Timer.Link` | kernel/src/timer.c:187-206 | the list walk inserts the event behind all due no later and ahead of all others, keeps the order of the rest and reprograms for the earliest in the same section |
| `TimerQueue.Timer.TakeDue` | kernel/src/timer.c:238-256 | detaches the first event exactly if it is due |
| `TimerQueue.Timer.StopTimer` | kernel/src/timer.c:281-312 | cleans up every pending event once, in order, and leaves the running event and those of an interrupted stop alone |
| `TimerQueue.Timer.RunBottomHalf` | kernel/src/timer.c:219-279 | unless a callback stops the timer: the events due on entry fire first and in order, it goes on until 16 fired or none was due at the last time read, and what is still due has the notification raised; each event is cleaned up after its callback in any case |
| `TimerQueue.ServedExact` | kernel/src/timer.c:219-279 | what one bottom half serves is the head of the queue, all of it due, and nothing due is left behind unless the budget is used up |
| `TimerQueue.AddKeeps` | kernel/src/timer.c:187-206 | a new event never gets in front of one that is due |
| `FdtTokens.ToksAligned` | kernel/src/fdt.c:134-175 | every token and every property's data start at a multiple of four |
| `Fdt.CheckTokens` | kernel/src/fdt.c:134-175 | accepts exactly the well-formed token streams: one root, depth at most 16, every name, value and property name inside its block |
| `Fdt.CheckHeader` | kernel/src/fdt.c:106-176 | accepts exactly the blobs whose blocks lie inside the declared size and whose token stream is well formed |
| `Fdt.TokenInside` | kernel/src/fdt.c:237-286 | in a validated stream each token, its name and its property name lie inside the blocks, so the walkers need no checks |
| `Fdt.NameEq` | kernel/src/fdt.c:47-55 | true exactly if the terminated string equals the name, reading no further than its end |
| `Fdt.SplitPath` | kernel/src/fdt.c:209-226 | the components between slashes, refused exactly above 16 |
| `Fdt.FindPath` | kernel/src/fdt.c:237-288 | the match-depth walk finds the first node whose full path equals the components, -1 if none |
| `Fdt.NoDeepPath` | kernel/src/fdt.c:217-219 | no node of a validated blob has a path of 16 or more components, so refusing long paths loses nothing |
| `Fdt.PathOffset` | kernel/src/fdt.c:191-289 | the first node with that path in any readable blob; -1 for malformed blobs and paths |
| `Fdt.IsNodeOffset` | kernel/src/fdt.c:293-310 | true exactly for offsets at which a node starts |
| `Fdt.NodesAligned` | kernel/src/fdt.c:333 | nodes start at multiples of four, so the alignment test refuses no node |
| `Fdt.GetProp` | kernel/src/fdt.c:313-401 | the first property of that name owned by that node, absent for any other offset; the data lies inside the block |
| `Fdt.HasCompatible` | kernel/src/fdt.c:68-95 | true exactly if the string is one of the terminated strings of the list |
| `Fdt.ListsExactly` | kernel/src/fdt.c:68-95 | a value made of non-empty terminated strings lists a string if and only if it is one of them, whatever unterminated bytes or empty string follow |
| `Fdt.SplitStrings` | kernel/src/fdt.c:68-95 | every value is made of such strings and such a rest |
| `Fdt.FindCompatible` | kernel/src/fdt.c:403-476 | the owner of the first matching property; the array of open nodes never overflows |
| `FdtMemory.AddPairs` | kernel/src/fdt.c:570-590 | the address/size pairs of one value whose size is not zero, refused exactly if there is no room for all |
| `FdtMemory.CellsRead` | kernel/src/fdt.c:576-584 | a number written in big-endian cells is read back |
| `FdtMemory.PairsRoundTrip` | kernel/src/fdt.c:570-590 | pairs written in one or two big-endian words per number, and less than a pair behind them, are read back as exactly the non-empty ones, in order |
| `FdtMemory.CheckMemory` | kernel/src/fdt.c:557-565 | a child of the root is a memory node by name, by name prefix or by device type |
| `FdtMemory.RootFound` | kernel/src/fdt.c:523-526 | a validated blob always has a root |
| `FdtMemory.GetMemoryRegions` | kernel/src/fdt.c:505-617 | for every accepted block: the `reg` pairs of the memory nodes below the root of the tree it encodes, in order; fails exactly if the root's cell counts are not 1 or 2 or there is no room |
| `FdtMemory.NodeAgrees` | kernel/src/fdt.c:557-590 | a node is recognised by its own name and device type, and its regions are those of its own `reg` |
| `FdtMemory.MemoryAgrees` | kernel/src/fdt.c:505-617 | cell counts and regions read from the block are those of the tree's own properties, whatever the padding |
| `FdtTree.BlockReads` | kernel/src/fdt.c:106-176 | every block that encodes a tree, with NOP tokens anywhere, any padding and anything behind the end, validates, and its nodes and properties are read back in preorder |
| `FdtTree.BlockEncodes` | kernel/src/fdt.c:106-176 | writing a tree gives such a block |
| `FdtTree.AcceptedIsTree` | kernel/src/fdt.c:134-175 | conversely, every block the validator accepts encodes a tree |
| `FdtTree.PathAgrees` | kernel/src/fdt.c:191-289 | path lookup in the blob is the first match in the tree's preorder |
| `FdtTree.NodeFound` | kernel/src/fdt.c:293-310 | every node of the tree is a node of the blob |
| `FdtTree.NodeProps` | kernel/src/fdt.c:312-401 | a node's first property of a name is the first in its own content, never a descendant's |
| `FdtTree.PropAgrees` | kernel/src/fdt.c:313-401 | property lookup delivers exactly the bytes of the first property of that name in the node's own content, and nothing exactly if there is none |
| `FdtTree.SplitJoin` | kernel/src/fdt.c:209-226 | splitting undoes joining for non-empty components without slash |
| `FdtLookup.NodeIff` | kernel/src/fdt.c:293-310 | the offsets at which a node starts are exactly those of the tree's nodes |
| `FdtLookup.LookupAgrees` | kernel/src/fdt.c:191-401 | a path lookup finds a node exactly if the tree has one of that path, and a property lookup there delivers the first own property of the first such node |
| `FdtLookup.CompatibleAgrees` | kernel/src/fdt.c:403-476 | the search for a compatible string is the search in the tree's own property data, in order |
| `FdtLookup.CompatibleExact` | kernel/src/fdt.c:403-476 | it finds a node exactly if some node lists the string in a property of its own, and what it finds is such a node |
| `Cpio.HexToU32` | kernel/src/cpio.c:23-41 | the value of the eight digits of either case, or failure if some byte is no digit |
| `Cpio.DigitExact` | kernel/src/cpio.c:23-41 | a byte has the value of the hexadecimal digit it spells, in either case, and no other byte has it |
| `Cpio.HexRoundTrip` | kernel/src/cpio.c:23-41 | reading undoes writing a number in hexadecimal |
| `Cpio.HexAnyCase` | kernel/src/cpio.c:23-41 | reading undoes writing a number in hexadecimal with each digit in either case |
| `Cpio.Same` | kernel/src/cpio.c:47-56 | string equality with a terminated name |
| `Cpio.ReadHead` | kernel/src/cpio.c:67-126 | one header: malformed, trailer, or an entry with its extents |
| `Cpio.Iterate` | kernel/src/cpio.c:58-128 | terminates on all bytes and reports exactly the entries up to the trailer or the first malformed header |
| `Cpio.WalkInside` | kernel/src/cpio.c:94-124 | for any bytes, every reported name, terminator and data range lies inside the archive |
| `Cpio.EncodedHead` | kernel/src/cpio.c:67-126 | an encoded entry is read back, whatever follows it |
| `Cpio.RoundTrip` | tests/parser_regression.c:32-46 | reading an archive reports exactly its entries in order, with any contents of the ignored header fields and any bytes behind the trailer |
| `Cpio.SpelledReads` | kernel/src/cpio.c:58-128 | reading bytes that spell an archive, with digits of either case and any padding, reports exactly its entries in order |
| `Cpio.AcceptedIsArchive` | kernel/src/cpio.c:58-128 | conversely, whatever the reader accepts spells an archive up to the trailer's name |
| `Cpio.AcceptsExactly` | kernel/src/cpio.c:58-128 | so it accepts exactly those bytes |
| `Cpio.SpelledLike` | kernel/src/cpio.c:23-126 | bytes that spell an entry differ from its encoding in padding and in the case of hexadecimal digits only |
| `Cpio.Find` | kernel/src/cpio.c:158-172 | found exactly if the archive is well formed and some entry has the name; the first such entry |
| `Cpio.FindsIff` | kernel/src/cpio.c:138-172 | in an accepted archive the lookup succeeds if and only if some entry has the name |
| `Cpio.FindsFirst` | kernel/src/cpio.c:138-172 | and it returns the first entry of that name, with its data and mode |

## Left out

- Context switching, trap entry and boot assembly: a switch only changes which thread is current.
- UART, PLIC and SBI registers, interrupt masks of the devices, `rdtime` and `wfi`: device readiness and time are inputs.
- `uart_tx_set_refill` and the masking decisions of the UART bottom halves.
- Shell, demos, tracing, log output, statistics, `memory_print_*` and the debug checkers of the allocators.
- Poison patterns written into freed memory.
- Thread contexts, stacks, exit status and user entry points; their memory is returned in one step when a thread is freed.
- `thread_user_group_size`, `thread_user_stack_contains`, `thread_user_image_busy`: list walks like `HasLiveWorkers`.
- The reserved-memory, reserve-map and initrd lookups of `fdt.c`: further walkers of the same shape as `GetMemoryRegions`.
- `fork`, `exec`, system calls, platform glue, the bootloader and secondary harts.
- Liveness of the deferred runner: it has no budget, so only what holds when it returns is stated.
- TimerQueue.Timer.CatchTick: the scheduler tick does not wrap around at 2^64.
- TimerQueue.Timer.StopTimer: cleanup functions do not call the timer themselves; callbacks and interrupts may.
- Runner.BottomHalves.RunBottomHalves: what interrupts and handlers do is a finite script, so each call terminates; the theorems of `DeferredWork` hold for every run.
- Fdt.CheckHeader: the blob must be readable up to its declared size, which the boot interface owes.
- Kernel.Kernel.StopTid: lookup and kill are one step, as under `thread_stop_process`, which keeps interrupts off throughout; for
  other callers they are two sections, and what a switch and a reaper could do in between is not modelled.
