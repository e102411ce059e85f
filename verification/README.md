# A Dafny model of the TomatOS kernel core

TomatOS is a small x86-64 kernel. This project models the parts of it whose correctness rests on deep invariants, and
proves those invariants for every input, every reachable state and every run:

- **Red-black tree and timers** (`Rb*.dfy`, `Timer.dfy`): the intrusive tree of `kernel/lib/rbtree` on real heap nodes with
  parent pointers, its fix-up loops, and the per-core timer queue built on it. A tree's memory is captured as a value (a
  map from nodes to cells); every store of the code is a function on that value, and the reasoning happens on zippers.
  The parent word of a node is two fields (parent, colour), a node is merged with the timer that embeds it, and the
  augment callbacks, which are dummies here, are dropped.
- **Buddy allocator** (`Buddy*.dfy`): the page allocator of `kernel/mem/phys.c`, from the boot loader's memory map on. A
  layout maps the start of every current block to its level and free flag; the free lists and the metadata bytes, stale
  ones included, are proved to stand for it. Free lists are sequences of addresses; `list_del` takes an entry off
  whichever list it is on. The null pointer is 0.
- **Scheduler** (`Sched*.dfy`): `kernel/thread/scheduler.c` as a state machine with any number of cores, one statement at a
  time, timer interrupts between any two statements that run with interrupts on, wakeups from threads, handlers and park
  callbacks. The place of a thread is kept beside the program state to say who may touch it next; only the rule that a
  park has one waker, acting after the callback published the thread, reads it. Theorems say what holds in every run, what
  each call, wakeup and interrupt comes to, and that the source's paths can all be taken.
- **Page tables** (`Virt*.dfy`): `kernel/mem/virt.c` over frames of 512 entries, with table allocation that can fail, refining
  a flat map of last-level entries; the GC shadow; the page-fault handler. `phys_alloc` is a pool of frames that may run dry.
- **Heap** (`Heap.dfy`): the size-class heap of `kernel/mem/alloc.c` with links kept inside the free blocks. Memory is in
  words of eight bytes.
- **memmove** (`MemMove.dfy`): `kernel/lib/string.c` on an array of bytes.
- **Integer formatting** (`Printf.dfy`): the digit, padding and sign logic of `kernel/lib/printf.c`.
- **Lists** (`List.dfy`): the circular intrusive list of `kernel/lib/list.h` on linked entries, which is why the other parts
  may use sequences for it.
- `Arithmetic.dfy`, `Sequences.dfy`, `Layout.dfy`: products, remainders and powers of two; sequences without repetitions;
  the address constants of `kernel/mem/memory.h`.

Where the code departs from its evident intent, the model follows the code, and a lemma says exactly when the intent is
met: `Timer.Core.Cancel`, `Timer.Core.Set` and `Timer.LostDeadline` (cancelling a timer that is not first clears the
comparator), `BuddyPhys.SharedByte` and `BuddyPhys.SharedRelease` (blocks smaller than a page share a byte),
`BuddyPhys.HoldsIff32` (sizes are cut to 32 bits), `VirtTables.PageTables.Undo` (the error path of `virt_alloc_range` looks at
the page that failed instead of the pages before it), `SchedRuns.CreateFailsAfterExit` (a recycled thread trips the assertion
of `thread_create`), `MemMove.RightIffEven` (upward moves whose distance does not divide the length), `Printf.PrintReads`
and `Printf.PrintLength` (a prefix or a sign may find no room in a buffer of 64 characters).

Locked sections are single steps. `timer_cancel` reads `timers` before it disables interrupts, and
`scheduler_preempt_enable` tests and then decrements with interrupts on; each is taken as one step.

## Model

| member | source | states |
|---|---|---|
| `RbTree.InsertColor` | kernel/lib/rbtree/rbtree.c:92-228 | The insertion fix-up ends in a laid-out red-black tree with the same in-order sequence: black root, no red-red edge, equal black heights, consistent parent links |
| `RbInsert.FlipStep` | kernel/lib/rbtree/rbtree.c:125-146 | Case 1: flipping colours moves the violation two levels up and keeps heights, layout and order |
| `RbInsert.OuterStep` | kernel/lib/rbtree/rbtree.c:173-190 | Case 3: the rotation at the grandparent ends the violation, on either side |
| `RbInsert.InnerStep` | kernel/lib/rbtree/rbtree.c:148-190 | Case 2 followed by case 3: the two rotations together end the violation |
| `RbTree.EraseColor` | kernel/lib/rbtree/rbtree.c:234-415 | The erasure fix-up terminates and turns a tree with one short branch into a red-black tree with the same order |
| `RbErase.RedSiblingStep` | kernel/lib/rbtree/rbtree.c:250-268 | Case 1: the rotation gives the short branch a black sibling and moves no black height |
| `RbErase.FarStep` | kernel/lib/rbtree/rbtree.c:337-359 | Case 4: the rotation at the parent makes up the missing black node |
| `RbErase.NearStep` | kernel/lib/rbtree/rbtree.c:299-359 | Case 3 followed by case 4: the same for a red near nephew |
| `RbTree.RotateParents` | kernel/lib/rbtree/rbtree.c:82-90 | The stores of the rotation helper, as a function of the tree's memory |
| `RbTree.ReplaceChild` | kernel/lib/rbtree/rbtree_augmented.h:199-213 | The link that led to the old child, from its parent or from the root, leads to the new one |
| `RbTree.Erase` | kernel/lib/rbtree/rbtree_augmented.h:215-315 | Erasing any node of a red-black tree leaves a laid-out red-black tree whose order is the old one without that node |
| `RbUnlink.EraseDeepShape` | kernel/lib/rbtree/rbtree_augmented.h:266-311 | With the successor deeper down, the stores put it in the place of the erased node and its child in its own |
| `RbUnlink.SuccessorOrder` | kernel/lib/rbtree/rbtree_augmented.h:244-311 | Moving the successor up removes exactly the erased node from the order |
| `RbCached.RbFirst` | kernel/lib/rbtree/rbtree.c:470-480 | The walk down the left spine finds the first node, which is the cached one |
| `RbCached.RbNext` | kernel/lib/rbtree/rbtree.c:494-523 | The walk finds the node that follows in the order, or null at the end |
| `RbCached.RbPrev` | kernel/lib/rbtree/rbtree.c:525-551 | The walk finds the node that comes before in the order, or null at the start |
| `RbCached.LinkNode` | kernel/lib/rbtree/rbtree.h:66-73 | The new node becomes a red leaf where the search ended |
| `RbCached.FindPlace` | kernel/lib/rbtree/rbtree.h:166-178 | The search ends behind every node that is not later and in front of every later one |
| `RbCached.InsertColorCached` | kernel/lib/rbtree/rbtree.h:106-113 | The cached leftmost node stays the first of the order |
| `RbCached.AddCached` | kernel/lib/rbtree/rbtree.h:162-184 | Stable insertion: the order gains the node behind all that are not later; the result is the node exactly when it is the new first; the tree stays valid |
| `RbCached.EraseCached` | kernel/lib/rbtree/rbtree.h:116-127 | The order loses exactly the node; the cached first node stays right; the result is the new first if the node was first, else null |
| `RbModel.HeightBound` | kernel/lib/rbtree/rbtree.c:23-51 | 2 to the height is at most (n + 1) squared, so the height is at most 2 log2(n + 1) |
| `RbModel.ZipRedBlack` | kernel/lib/rbtree/rbtree.c:23-51 | A red-black tree in a fitting context is a red-black tree |
| `Timer.Core.Cancel` | kernel/time/timer.c:69-94 | The timer leaves the queue, nothing else does, its timers field is cleared; a right comparator stays right if and only if the timer was not queued or was the leftmost |
| `Timer.Core.Set` | kernel/time/timer.c:51-67 | The timer leaves its old place and stands behind all that are due no later, in arming order among equals; a right comparator stays right if and only if the timer was not queued, was the leftmost, or the deadline is before all others |
| `Timer.Core.Dispatch` | kernel/time/timer.c:97-141 | With callbacks that set and cancel timers in any order, the queue is well-formed after every number of rounds, queue and calls are those of the rounds on the abstract queue, and when the dispatch ends the comparator is right |
| `Timer.RoundsRight` | kernel/time/timer.c:101-129 | Whatever the callbacks set and cancel: no timer is called before it is due, no arming is called for twice, the queue stays in stable order, and when the dispatch ends nothing due at the last reading is left |
| `Timer.DueIsCalled` | kernel/time/timer.c:101-129 | A queued timer that is due and that no callback sets or cancels has been called when the dispatch ends |
| `Timer.ArmedIsQueued` | kernel/time/timer.c:121-128 | A timer that a callback arms past the last reading, and that no later act concerns, is queued when the dispatch ends |
| `Timer.QuietRounds` | kernel/time/timer.c:97-141 | With callbacks that leave the queue alone the dispatch ends and has called a prefix of the queue: each timer due when the clock was read for it, the next one not; exactly the called timers are released |
| `Timer.DispatchExact` | kernel/time/timer.c:97-141 | With a clock that does not run backwards every timer due at the first reading was called, once, none early, in deadline order with ties in arming order, and the rest is due after the last reading |
| `Timer.LostDeadline` | kernel/time/timer.c:79-91 | For all deadlines: cancelling the later of two timers leaves the other queued with the comparator cleared |
| `BuddyModel.Nested` | kernel/mem/phys.c:226-264 | Aligned blocks that meet are nested |
| `BuddyModel.BuddyGrid` | kernel/mem/phys.c:229-235 | The buddy is aligned, is its own buddy's buddy, and the lower of the two is aligned for the next level |
| `BuddyModel.AlignedMod` | kernel/mem/phys.c:233 | The mask test of an address is divisibility by the block size |
| `BuddyLaws.CarveGood` | kernel/mem/phys.c:198-220 | Splitting keeps blocks aligned, disjoint and coalesced, and adds exactly one allocated block of the requested level |
| `BuddyLaws.CarveAt` | kernel/mem/phys.c:198-220 | Of a split block exactly the addresses outside the allocated part become free; no address is gained or lost |
| `BuddyLaws.CoalesceGood` | kernel/mem/phys.c:226-275 | Merging keeps blocks aligned, disjoint and coalesced, and removes exactly one allocated block |
| `BuddyLaws.CoalesceAt` | kernel/mem/phys.c:226-275 | Exactly the addresses of the released block become free; no address is gained or lost |
| `BuddyLaws.FreeRun` | kernel/mem/phys.c:177-196 | An aligned run of free pages always lies inside one free block |
| `BuddyLaws.FreeIsMaximal` | kernel/mem/phys.c:226-275 | The free blocks are exactly the maximal aligned runs of free addresses |
| `BuddyLaws.Historyless` | kernel/mem/phys.c:166-275 | The layout is a function of the memory owned and the blocks allocated, whatever the history |
| `BuddyRegion.BuddyLookup` | kernel/mem/phys.c:236-251 | Although bytes inside blocks are stale, the merge test succeeds exactly when the buddy is a free block of the same level |
| `BuddyRegion.BuddyIsHead` | kernel/mem/phys.c:235-251 | A block that reaches over the buddy's address starts there |
| `BuddyRegion.Region.FreeAtLevel` | kernel/mem/phys.c:226-275 | Lists and bytes stand for the merged layout, the merged block listed first; the assertion on the metadata pointer holds |
| `BuddyRegion.ReleasedFirst` | kernel/mem/phys.c:266-274 | The block that a release ends in is the first of its list, and the first that an allocation of its level takes |
| `BuddyRegion.Region.MergeRound` | kernel/mem/phys.c:228-264 | A round merges if and only if the buddy is a free block of the level |
| `BuddyRegion.Region.AllocateFromLevel` | kernel/mem/phys.c:166-224 | Takes the first block of the first occupied list from the level up and splits it, or answers null and changes nothing when there is none; the exact new layout and lists |
| `BuddyRegion.Region.FindLevel` | kernel/mem/phys.c:177-191 | The first occupied list from the level up; below it no free block exists |
| `BuddyRegion.Region.Split` | kernel/mem/phys.c:198-220 | Lists and bytes stand for the split layout |
| `BuddyRegion.SisterFirst` | kernel/mem/phys.c:205-213 | The sister of a split block is the next that is taken |
| `BuddyRegion.Region.AddMemory` | kernel/mem/phys.c:277-298 | Exactly the given pages join the region's memory, all free, fully coalesced; allocated blocks stay |
| `BuddyRegion.Region.LevelOf` | kernel/mem/phys.c:648-650 | The byte of an allocated block gives its true level, and the block is aligned to it |
| `BuddyPhys.GetLevelBySize` | kernel/mem/phys.c:145-164 | The smallest level whose blocks hold the size, or -1 exactly when none does |
| `BuddyPhys.StepEffect` | kernel/mem/phys.c:166-275 | What one call does to free, owned and allocated memory |
| `BuddyPhys.RunGood` | kernel/mem/phys.c:166-275 | Over every run blocks are aligned, disjoint, inside the region, coalesced, and cover the same memory |
| `BuddyPhys.RunRestores` | kernel/mem/phys.c:226-298 | Whenever a run returns to the same allocated blocks, in particular to none, it is back at the very same free blocks, level by level |
| `BuddyPhys.FoundIffRun` | kernel/mem/phys.c:177-196 | A list from the level up is occupied if and only if an aligned run of free pages of that size exists |
| `BuddyPhys.InternalPhysAlloc` | kernel/mem/phys.c:539-548 | Null if and only if no region has an aligned run of free pages of the size; otherwise one region takes one allocation step |
| `BuddyPhys.FindRegion` | kernel/mem/phys.c:129-138 | The region that contains the address, or none |
| `BuddyPhys.PhysFree` | kernel/mem/phys.c:636-656 | Null is ignored; an allocated block is released in its own region and nothing else changes |
| `BuddyPhys.Phys.Free` | kernel/mem/phys.c:636-656 | Releasing a block that the caller was handed keeps every core's reserved page an allocated page of its own, so runs of phys_alloc and phys_free are closed |
| `BuddyPhys.Phys.IrqAlloc` | kernel/mem/phys.c:575-584 | Inside the locked section of its core the reserved page is handed out, once |
| `BuddyPhys.Phys.FillIrqAlloc` | kernel/mem/phys.c:589-598 | Only a missing reserved page is filled, with a page nobody has |
| `BuddyPhys.Phys.PhysAlloc` | kernel/mem/phys.c:604-634 | Null if and only if the request is too big or no region has a run for it; the block is new, of the right level and no core's reserved page; every allocated block stays |
| `BuddyPhys.SharedByte` | kernel/mem/phys.c:216-251 | Marking a block allocated spoils the merge test of its buddy if and only if the blocks are smaller than a page |
| `BuddyPhys.SharedRelease` | kernel/mem/phys.c:236-270 | Marking a block free makes the merge test of its buddy succeed, allocated or not, if and only if the blocks are smaller than a page or the buddy was free; it then succeeds for every address of the page |
| `BuddyPhys.HoldsIff32` | kernel/mem/phys.c:145-164 | The block of the level that is computed for a size holds it if and only if the size is below 4GB |
| `BuddyBoot.CreateMemoryRegions` | kernel/mem/phys.c:333-463 | From any map of the domain: regions over separate memory, all blocks free and coalesced, covering exactly the usable entries outside the allocator's own tables, which have room for every region and metadata byte. Out of memory if and only if no usable entry is longer than the tables; otherwise an error only for a map without tracked entries or an empty usable entry outside all regions |
| `BuddyBoot.StrayEmpty` | kernel/mem/phys.c:320-321 | Only a usable entry of length 0 can lie outside all regions |
| `BuddyBoot.SpansHold` | kernel/mem/phys.c:364-377 | Regions are ascending, do not overlap, consist of whole pages, and every tracked entry lies in one |
| `BuddyBoot.KindsHoused` | kernel/mem/phys.c:357-377 | Every entry that is usable, reclaimable, or holds the kernel and its modules lies inside one region |
| `BuddyBoot.SpansExactly` | kernel/mem/phys.c:357-384 | The regions cover exactly the entries of these kinds |
| `BuddyBoot.CountRegions` | kernel/mem/phys.c:344-384 | The first pass counts exactly the regions and pages the second one fills, and finds a longest usable entry |
| `BuddyBoot.FillRegions` | kernel/mem/phys.c:406-449 | The second pass never runs out of regions or metadata |
| `BuddyBoot.AddMemory` | kernel/mem/phys.c:308-331 | Exactly the given pages of the usable entries become owned; it stops exactly at the first usable entry outside all regions |
| `BuddyBoot.EntryFits` | kernel/mem/phys.c:320-322 | A usable entry lies with the pages it gives inside the region that find_region finds |
| `SchedInv.StepInv` | kernel/thread/scheduler.c:132-418 | Every statement of every core keeps the invariant that ties statuses, queues, current threads, wakeups in progress and preempt counts together |
| `SchedInv.CoreInvKeep` | kernel/thread/scheduler.c:405-418 | The preempt count is the sum of the disables of thread, scheduler, wakeup and handler; a pending request implies a positive count |
| `SchedInv.AssertsHold` | kernel/thread/scheduler.c:259-418 | Under the invariant no assertion fails and no status switch spins |
| `SchedRuns.ThreadsExclusive` | kernel/thread/scheduler.c:188-348 | In every run no thread is current on two cores, queued twice, or both queued and current |
| `SchedRuns.StatusMeans` | kernel/thread/thread.h:15-44 | Between moves RUNNABLE means queued, RUNNING means current, WAITING means published and neither |
| `SchedRuns.PreemptibleRuns` | kernel/thread/scheduler.c:188-221 | With interrupts on, count 0 implies a RUNNING current thread and no pending request |
| `SchedRuns.EnteredFromThread` | kernel/thread/scheduler.c:132-143 | The scheduler is entered only from a thread and with count 1, at the function of the call that the thread made, otherwise at the yield; it is never re-entered |
| `SchedRuns.ReturnsEnabled` | kernel/thread/scheduler.c:126-134 | The scheduler resumes a thread with count 0, RUNNING, and no pending request |
| `SchedRuns.NoAssertFails` | kernel/thread/scheduler.c:259-418 | No assertion of the scheduler, of the preempt calls or of the status switch fails in any run |
| `SchedRuns.NoLostWakeup` | kernel/thread/scheduler.c:149-169 | A core asleep with its parked flag set has an empty queue, unless its handler is between queueing a thread and clearing the flag; otherwise it can leave the loop |
| `SchedRuns.NoLostPreemption` | kernel/thread/scheduler.c:370-418 | A pending request keeps preemption disabled until a thread is scheduled |
| `SchedRuns.NeverStuck` | kernel/thread/scheduler.c:223-257 | A core has a next step unless it sleeps with an empty queue |
| `SchedRuns.TurnComes` | kernel/thread/scheduler.c:236-249 | Over any stretch of a run in which a core wakes no thread, its queue is first in, first out: a queued thread runs after exactly those in front of it |
| `SchedRuns.WokenFirst` | kernel/thread/scheduler.c:338-342 | A woken thread is the next that its core takes from the queue |
| `SchedRuns.CreateFailsAfterExit` | kernel/thread/thread.c:28-74 | The assertion of thread_create holds until a thread exits, and fails in every later call of the run |
| `SchedCalls.CallSwitches` | kernel/thread/scheduler.c:259-315 | Whatever interrupts and other cores do in between, the thread that calls scheduler_yield becomes RUNNABLE, scheduler_park WAITING, scheduler_exit DEAD |
| `SchedCalls.PreemptSwitches` | kernel/thread/scheduler.c:370-418 | A reschedule with preemption enabled, and the last enable while one is wanted, by the thread, a wakeup or a handler, make the running thread RUNNABLE |
| `SchedCalls.CallEnds` | kernel/thread/scheduler.c:259-326 | A yielding thread goes to the end of the queue, a parked one can be woken once its callback accepts and goes on to run if it refuses, an exiting one becomes the first of the free list |
| `SchedCalls.PreemptEnds` | kernel/thread/scheduler.c:259-279 | A preempted thread goes to the end of the queue |
| `SchedCalls.TakenRuns` | kernel/thread/scheduler.c:188-249 | The thread taken from the queue, or whose park was refused, is the next to run on the core |
| `SchedCalls.AskedFor` | kernel/thread/scheduler.c:370-383 | A tick, a wakeup and a reschedule with preemption disabled leave a request and take the core out of its sleep |
| `SchedCalls.InterruptReturns` | kernel/thread/scheduler.c:405-418 | A handler that ticked or woke someone preempts the thread it interrupted if and only if that had preemption enabled; otherwise the core goes on where it was, count and request included |
| `SchedCalls.WokenQueued` | kernel/thread/scheduler.c:332-342 | The woken thread is RUNNABLE and first in the queue of the waking core |
| `SchedCalls.WokenInHandler` | kernel/thread/scheduler.c:332-342 | The same for a wakeup inside a handler |
| `SchedCalls.WakeupReturns` | kernel/thread/scheduler.c:344-347 | A thread with preemption enabled that wakes another one gives way at the end of the call; any other caller goes on with the request pending |
| `SchedCalls.RequestHasCause` | kernel/thread/scheduler.c:370-383 | No request to reschedule without a tick, a wakeup or a call of its core |
| `SchedCalls.BootsFirst` | kernel/thread/scheduler.c:392-399 | A core runs boot code exactly until scheduler_start_per_core |
| `SchedPaths.LeavePath` | kernel/thread/scheduler.c:350-368 | In every reachable state a thread with preemption enabled can make each call, and the next statements lead it off the core |
| `SchedPaths.ParkPath` | kernel/thread/scheduler.c:292-305 | The callback can accept, after which the thread can be woken, or refuse |
| `SchedPaths.TakePath` | kernel/thread/scheduler.c:230-249 | With a thread queued the loop takes the first one |
| `SchedPaths.SleepPath` | kernel/thread/scheduler.c:230-256 | With nothing queued the core goes to sleep |
| `SchedPaths.ExecutePath` | kernel/thread/scheduler.c:188-221 | scheduler_execute can put the thread on the core, RUNNING, with count 0 and nothing pending |
| `SchedPaths.TickPath` | kernel/thread/scheduler.c:179-181 | Wherever interrupts are on the timer can fire, and preempts a thread that has preemption enabled |
| `SchedPaths.WakePath` | kernel/thread/scheduler.c:332-342 | Boot code, a thread and a park callback can wake any parked thread |
| `SchedPaths.AwakePath` | kernel/thread/scheduler.c:161-165 | A wakeup in a handler takes a sleeping core back to its loop |
| `SchedPaths.DisablePath` | kernel/thread/scheduler.c:405-418 | Disabling and enabling preemption restores the state |
| `SchedPaths.ReschedulePath` | kernel/thread/scheduler.c:370-390 | In a thread a reschedule gives way at once, or leaves a request when preemption is disabled |
| `SchedPaths.CreateInRun` | kernel/thread/thread.c:28-48 | As long as none has exited, 65535 threads can be created in a run |
| `VirtModel.SamePath` | kernel/mem/virt.c:53-67 | Walks that end in the same last-level table came the same way, up to a shadow pair at the top |
| `VirtModel.BuildInv` | kernel/mem/virt.c:53-67 | A new table keeps every table reachable in one way only |
| `VirtModel.BuildLeaf` | kernel/mem/virt.c:53-67 | Building a missing table changes no address |
| `VirtModel.PokeLeaf` | kernel/mem/virt.c:83-88 | Writing a last-level entry changes exactly its address and the shadow twin |
| `VirtTables.PageTables.GetNextLevel` | kernel/mem/virt.c:53-67 | The table below, built if it was missing; null only without memory, changing nothing |
| `VirtTables.PageTables.MapPage` | kernel/mem/virt.c:69-94 | On success exactly the page and its twin have the new entry, which leads to the physical page and is writeable and executable as the flags say; on failure no address changed |
| `VirtTables.PageTables.MapRange` | kernel/mem/virt.c:96-107 | The flat map after the pages done; all of them on success, and success with memory for three tables a page |
| `VirtTables.PageTables.AllocRange` | kernel/mem/virt.c:109-164 | On success every page of the range was unmapped and has a frame of its own, writeable and not executable, nothing else changed; it fails only without memory for four frames a page or at a page that is mapped already |
| `VirtTables.PageTables.Undo` | kernel/mem/virt.c:139-160 | The error path takes no page back: it ends only if the first page failed, or the second because it is mapped, which then loses its frame; otherwise it hangs or trips the assertion |
| `VirtTables.RangeMiss` | kernel/mem/virt.c:96-107 | Addresses outside the range keep their entries |
| `VirtTables.RangeLast` | kernel/mem/virt.c:96-107 | An address of the range leads to its physical page, with the rights the flags ask for |
| `VirtTables.PageTables.RemapRange` | kernel/mem/virt.c:167-197 | Exactly the pages done change, to the rights the flags ask for, and keep their frames; with enough memory it stops only at a page that is not mapped |
| `VirtTables.PageTables.IsMapped` | kernel/mem/virt.c:199-226 | Changes no address and answers exactly, even when tables cannot be built |
| `VirtTables.PageTables.InitShadow` | kernel/mem/virt.c:279-308 | Every slot of the first 16TB has its shadow, not writeable for the GC heap; succeeds with memory for a table a slot |
| `VirtTables.PageTables.ShadowSlot` | kernel/mem/virt.c:281-307 | The new shadow shows what its original shows; no other address changes |
| `VirtTables.PageTables.HandlePageFault` | kernel/mem/virt.c:322-363 | Maps exactly the faulting page and its twin, writeable and not executable, to a page of the pool or, in the direct map, to its own frame, exactly in the areas served; succeeds there with memory for a page and three tables; keeps guard zones unmapped |
| `VirtTables.FaultRun` | kernel/mem/virt.c:332-342 | Over every run of faults no page of a guard zone is mapped |
| `VirtShadow.TranslateIs` | kernel/mem/virt.c:53-67 | Of the entries on the way only the top-level and the last one restrict access |
| `VirtShadow.MapTranslates` | kernel/mem/virt.c:69-94 | After a mapping exactly the page and its twin translate differently, with rights limited by their top-level entries |
| `VirtShadow.ShadowRun` | kernel/mem/virt.c:279-308 | Through every later sequence of operations an address of the first 16TB and its shadow have the same presence and frame, and the shadow is writeable exactly when the page is and lies outside the GC heap |
| `VirtZones.GuardsApart` | kernel/mem/virt.c:325-352 | No page that is served shares its entry with a guard page |
| `VirtZones.StackServed` | kernel/thread/thread.c:41-53 | The stack of every thread id lies in the stack area; faults in it are served, faults in the guard zone below it are not |
| `VirtZones.StacksApart` | kernel/thread/thread.c:49-53 | Two thread ids share no address, guard zones included |
| `VirtZones.ServedExactly` | kernel/mem/virt.c:322-349 | An address is served if and only if it lies in the top-level slots of the direct map, the GC heap, the thread structs or the kernel heap, or in those of the stacks above their guards |
| `VirtZones.SmallStackServed` | kernel/mem/virt.c:337-342 | Of a small stack exactly the addresses above its guard page are served |
| `VirtZones.ThreadServed` | kernel/thread/thread.h:98-105 | The structs of all thread ids are served |
| `VirtUses.HeapServed` | kernel/mem/alloc.c:13-14 | All blocks of all orders of the kernel heap are served |
| `VirtUses.GcHeapServed` | kernel/mem/memory.h:16-42 | All orders of the GC heap are served |
| `Heap.OrderOf` | kernel/mem/alloc.c:47-61 | The smallest power of two, at least 8, that holds the size |
| `Heap.LargestSize` | kernel/mem/alloc.c:31-61 | There is an order for a size if and only if it is at most 64MB, so a fresh heap has a block for exactly those |
| `Heap.OrderBack` | kernel/mem/alloc.c:123 | The order recovered from an address is the one allocated |
| `Heap.BlocksApart` | kernel/mem/alloc.c:13-14 | Different blocks do not overlap |
| `Heap.KernelHeap.Disjoint` | kernel/mem/alloc.c:47-132 | Live blocks overlap neither other live blocks nor free ones |
| `Heap.KernelHeap.Alloc` | kernel/mem/alloc.c:47-79 | A block that was not live, of the order of the size; null exactly when the size is too big or the region is used up |
| `Heap.KernelHeap.Free` | kernel/mem/alloc.c:118-132 | Exactly the block stops being live; no live block's contents change |
| `Heap.KernelHeap.Realloc` | kernel/mem/alloc.c:81-116 | Keeps the block when it is big enough, else the new block starts with all words of the old one; other live blocks are untouched; null if and only if the size is 0 or the block must grow and its order is used up, and then nothing changes |
| `MemMove.Memmove` | kernel/lib/string.c:42-80 | A simultaneous copy for every move that is not upward-overlapping, and for those whose distance divides the length; otherwise where the misplaced last chunk goes |
| `MemMove.ChunkDone` | kernel/lib/string.c:59-67 | Each chunk's source is still unmodified when it is copied |
| `MemMove.RightIffEven` | kernel/lib/string.c:50-73 | An upward-overlapping move is right for every content of memory if and only if the distance divides the length |
| `Printf.PrintInteger` | kernel/lib/printf.c:499-527 | For any 64-bit value, width, precision and flags the buffer is never overrun, and the text is padding, sign, prefix, leading zeros and digits as far as 64 characters hold them |
| `Printf.Finalize` | kernel/lib/printf.c:432-496 | The zeros, the prefix and the zeros taken back for it, the sign and the padding, exactly, for all flags, widths and precisions |
| `Printf.OutRev` | kernel/lib/printf.c:405-427 | The reversed buffer, padded to the width on the side the flags ask for |
| `Printf.Gadget.PutChar` | kernel/lib/printf.c:296-315 | The output buffer holds what fits of the text and is never overrun |
| `Printf.ReadsBack` | kernel/lib/printf.c:517-523 | Digits with leading zeros read back to the value, in every base |
| `Printf.PrintReads` | kernel/lib/printf.c:432-527 | The text reads back to the value if and only if the value is 0 or the prefix is not cut in two by the end of the buffer, and to the sign if and only if there was room for it |
| `Printf.PlainReads` | kernel/lib/printf.c:432-527 | Without a prefix and with width and precision below 64 the value always reads back, and the sign is lost exactly for a negative binary number with its highest bit set |
| `Printf.TextChars` | kernel/lib/printf.c:469-527 | Letters only of the case that the flags ask for, signs only where one is due and fits |
| `Printf.TextForm` | kernel/lib/printf.c:405-496 | The sign is exactly the one due, in front of the number; padding is on the side that the flags ask for and fills exactly the width |
| `Printf.PrintLength` | kernel/lib/printf.c:432-527 | Without a prefix the length is the larger of the width and the signed digits with their precision if and only if that fits the buffer, or only spaces are missing from it |
| `Printf.PlainLength` | kernel/lib/printf.c:432-527 | With width and precision below 64 that fails exactly for a sign in front of a binary number with its highest bit set |
| `List.InsertAfter` | kernel/lib/list.h:26-31 | The ring with the new entry in place, linked in both directions |
| `List.ListAdd` | kernel/lib/list.h:33-35 | The entry becomes the first |
| `List.ListAddTail` | kernel/lib/list.h:37-39 | The entry becomes the last |
| `List.ListDel` | kernel/lib/list.h:41-50 | Exactly the entry leaves, wherever it stands |
| `List.ListPop` | kernel/lib/list.h:56-64 | The first entry leaves, or null when there is none |

## Left out

- The rest of the tree library (`rb_last`, post-order walks, `rb_replace_node`, `rb_find*`): mirrors or simpler walks.
- Other effects of timer callbacks than setting and cancelling timers of their core, and the choice of timer hardware.
- `BuddyPhys.Phys.PhysAlloc`: requests of at most 2KB are not modelled, because blocks smaller than a page share metadata bytes; `SharedByte` and `SharedRelease` show the effect.
- `BuddyRegion.Region.AllocateFromLevel`: levels below a page are not modelled, for the same reason.
- `BuddyRegion.Region.Split`: target levels below a page are not modelled, for the same reason.
- A memory map with tracked entries of which none is usable: `create_memory_regions` follows a null pointer there. The placement of the regions array and of each metadata slice inside the tables: every region has a byte array of its own.
- Links inside the free pages and thread structs: outside `List.dfy` the run queue and the free lists are sequences.
- The assembly of a context switch, XSAVE, MONITOR/MWAIT and interrupt set-up: a switch is a change of the current thread, a wait is a step that does nothing.
- `thread_alloc` when all 65535 threads are taken: it writes through a null pointer; only its successful path is a step.
- Memory order of spinlocks and atomics.
- The return of frames to the allocator in the error path of `virt_alloc_range`: they are listed, not put back.
- The ELF mappings of `init_virt`, TLB invalidation and the page attribute bits.
- `Heap.OrderOf`: sizes above 1GB are not modelled, because the shift in `mem_alloc` overflows an `int` there, which ISO C leaves undefined.
- `Heap.KernelHeap.Alloc`: sizes above 1GB are not modelled, for the same reason.
- `MemMove.Memmove`: requires the memory that the misplaced last copy of an uneven move reads below the source.
- `Printf.PrintLength`: numbers with a prefix are not covered; `PrintInteger` gives their text.
- Format parsing, and the rest of `printf`.
- `debug.c`, `gc.c`, ACPI, APIC, TSC, logging and the managed runtime glue.
