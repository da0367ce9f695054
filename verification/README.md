# Verified model of the kernel's allocators, scheduler, interrupt back end, signals and binary walkers

This project models the parts of a bare-metal RISC-V kernel that carry unbounded state, and proves what
they promise for every input, every run or every reachable state. `dafny verify dfyconfig.toml` checks
all of it.

* **Page frames** (`Arith`, `Blocks`, `Frames`, `Buddy`). The allocator is a class with the tagged frame
  array and the per-order free lists; a ghost map holds the live blocks. The free lists are always the
  unique decomposition of the free pages into maximal aligned blocks, although splitting and merging
  pass through stale entries. Completeness of allocation and exact restoration follow from that form.
* **Startup** (`Startup`, `Boot`). The first-fit allocator used before, its replay as reservations, the
  boot sequence that connects the two, and any client of the page frames after it.
* **Heap** (`Kmalloc`). Size-class pools over page frames, with the page owner map that routes `kfree`,
  and any client of the heap. The runs of both clients are traces that say what each request did.
* **Interrupt back end** (`BottomHalf`, `Accounts`, `Conservation`). Task queue and timer queue. A callback
  is a finite script of the calls it makes and the interrupts that hit it; ghost logs record starts and
  ends of callbacks and registrations of timers. Each method of the class is proved equal to a function on
  values and to keep the orders. `Accounts` counts what a run does against what the scripts it executes ask
  for, and `Conservation` says that no callback is lost or early.
* **Threads and processes** (`Threads`, `Sched`). `Threads` gives one function per kernel operation on a
  value holding run states, run queue, reaper's list and process tree, the invariant, and the theorems
  over runs from boot. `Sched.Scheduler` is the object the kernel updates in place, each method proved
  equal to its function. An operation that contains a call of `schedule` is split at that call, so other
  operations can come in between.
* **Signals** (`Bits`, `Signals`). Delivery on the trap exit path, handler, sigreturn, over trap frames,
  with exec, exit and stops by other processes at any point.
* **Binary walkers** (`Memory`, `Cpio`, `Dtb`, `DtbPath`, `DtbWriter`, `DtbRegions`). Cursor loops over
  bytes, against search in the archive or the tree that was written, and against path lookup. The
  devicetree layout is that of sections 2.3.6 and 5.2 to 5.6 of the Devicetree Specification.
* **Intrusive list** (`ListRing`). The circular list at pointer level, acting on a sequence of members.

Where the code does less than its comments or names say, the model follows the code, an input shows the
difference and a theorem says exactly when there is none:

* `_dtb_getprop` compares neither the ancestors on the path nor stops at the target's own properties
  (`DtbPath.OffPathNamesake`, `DtbPath.DescendantAnswered`). It answers as path lookup does iff no property
  of the name that is off the path, or further down, comes first (`DtbPath.EncodedPathLookupIff`).
* The startup scan can return an occupied address when records are nested (`Startup.NestedRecordsOverlap`).
  It gives the lowest gap iff no earlier record reaches into the first window with room
  (`Startup.FirstFitIff`).
* Only `sys_exit` gives children a new parent. Collecting a process that was stopped or killed by a signal
  (`Threads.OrphanRun`), and the end of a kernel worker (`Threads.WorkerOrphanRun`), keep the process tree
  iff the dead thread has no children (`Threads.CollectIff`, `Threads.ThreadExitIff`). The workers the
  kernel has itself, at kernel/src/shell.c:545-547, create no threads.
* Page rounding wraps for sizes above 2^64 - 4096 (`Buddy.RequestCovered`).

## Model

| member | source | states |
|---|---|---|
| `Arith.XorIsBuddy` | kernel/src/buddy.c:351 | for an aligned block, index XOR size is its arithmetic buddy |
| `Arith.Laminar` | kernel/src/buddy.c:232-281 | two aligned blocks are disjoint or nested |
| `Arith.Family` | kernel/src/buddy.c:348-371 | an aligned block and its buddy are the two halves of one aligned parent, whose index is the smaller of the two |
| `Blocks.AddBlock` | kernel/src/buddy.c:346-378 | adding to the free pages a block whose buddy is not free adds exactly that block to the maximal blocks and disturbs no other |
| `Blocks.RemoveBlock` | kernel/src/buddy.c:303-306 | taking a maximal block away removes exactly it from the maximal blocks |
| `Blocks.MaximalAbove` | kernel/src/buddy.c:295-304 | every free aligned block lies inside a maximal one of at least its order |
| `Blocks.MaximalMeansMaximal` | kernel/src/buddy.c:242-270 | a block is maximal by the one-step parent test iff no other free block contains it |
| `Blocks.MaximalPartition` | kernel/src/buddy.c:232-281 | each free page lies in exactly one maximal block |
| `Blocks.NoFreeBuddies` | kernel/src/buddy.c:348-371 | no two buddies of equal order below MAX_ORDER are both maximal |
| `Frames.TagSound` | kernel/src/buddy.c:14-28 | an allocation tag is never an order, FREE_PART or RESERVED; it gives back the order, and the page index iff that is below 2^22 |
| `Frames.PushAgrees` | kernel/src/buddy.c:145-159 | pushing a block into the hole of stale entries keeps frame array and lists in agreement |
| `Frames.PopAgrees` | kernel/src/buddy.c:161-167 | unlinking a listed block keeps the agreement outside the block's pages |
| `Frames.CanonicalForm` | kernel/src/buddy.c:232-379 | lists that agree with the same free pages hold the same blocks in every order |
| `Frames.ListedIffRun` | kernel/src/buddy.c:295-301 | some list at or above an order is non-empty iff an aligned free run of that order exists |
| `Buddy.PagesToOrder` | kernel/src/buddy.c:73-82 | the least order whose block covers the page count |
| `Buddy.Allocator.constructor` | kernel/src/buddy.c:171-193 | every page free and unlisted, nothing reserved, nothing live |
| `Buddy.Allocator.Reserve` | kernel/src/buddy.c:195-220 | adds to the reserved pages exactly those sharing a byte with the range; a range whose end wraps when rounded changes nothing |
| `Buddy.Allocator.BlockPush` | kernel/src/buddy.c:145-159 | head and part entries of the block written, nothing else; the block is first in its list |
| `Buddy.Allocator.BlockPop` | kernel/src/buddy.c:161-167 | the block leaves its list from wherever it stands |
| `Buddy.Allocator.LargestClean` | kernel/src/buddy.c:249-270 | the block found is free and aligned and no larger one at that page is |
| `Buddy.BuildStep` | kernel/src/buddy.c:249-273 | pushing the largest clean block extends canonical form by its pages |
| `Buddy.Allocator.Build` | kernel/src/buddy.c:232-281 | the lists are the canonical form of the free pages; free and reserved pages are unchanged |
| `Buddy.Allocator.Alloc` | kernel/src/buddy.c:283-322 | fails iff the size is 0, the order is too large, or no aligned free run of that order exists; otherwise returns one, first from the smallest non-empty list, and removes exactly its pages; canonical form is kept |
| `Buddy.Allocator.SplitDown` | kernel/src/buddy.c:308-313 | splitting leaves the lower block of the target order held and every other half listed; entries outside the block are untouched |
| `Buddy.SplitStep` | kernel/src/buddy.c:308-313 | one split keeps the agreement between frame array and lists around the held block |
| `Buddy.Allocator.TagBlock` | kernel/src/buddy.c:315-318 | every page of the block carries its tag, no other entry changes |
| `Buddy.Allocator.Free` | kernel/src/buddy.c:324-379 | gives exactly the block's pages back and keeps canonical form; NULL, foreign addresses and reserved pages change nothing |
| `Buddy.Allocator.Coalesce` | kernel/src/buddy.c:346-378 | merging a held block as far as its buddies are free ends in canonical form of the free pages with the block |
| `Buddy.MergeStep` | kernel/src/buddy.c:350-371 | unlinking a free buddy and joining it to the held block keeps the agreement around the larger hole |
| `Buddy.BuddyNotFree` | kernel/src/buddy.c:350-357 | when the merge loop stops, the buddy is not entirely free |
| `Buddy.PagePartition` | kernel/src/buddy.c:14-28 | each page is reserved, in exactly one listed block, or in exactly one live block, and its entry says which |
| `Buddy.Restoration` | kernel/src/buddy.c:283-379 | equal reserved pages and equal live blocks mean equal free blocks in every order, whatever run led there |
| `Buddy.RequestCovered` | kernel/src/buddy.c:288-290 | the order requested covers the size iff the size is at most 2^64 - 4096, and is then the least that does |
| `Startup.ScanExact` | kernel/src/buddy.c:431-455 | for any sorted non-empty records the scan stops at the first window between records with room, passes over no gap and fails only when nothing fits; the address found is a gap iff no earlier record reaches beyond it |
| `Startup.FirstFitIff` | kernel/src/buddy.c:431-455 | the scan gives the lowest fitting gap iff no earlier record reaches into the first window with room, a condition on the records and the size alone |
| `Startup.ScanIsFirstFit` | kernel/src/buddy.c:431-455 | with no record nested in another, the scan gives the lowest fitting gap, or 0 iff there is none or it is address 0 |
| `Startup.NestedRecordsOverlap` | kernel/src/buddy.c:431-455 | two nested records for which the scan returns an occupied address |
| `Startup.Allocator.Reserve` | kernel/src/buddy.c:470-500 | appends the page-rounded range clamped to memory, unless it is empty or the table is full |
| `Startup.Allocator.SortReserves` | kernel/src/buddy.c:406-419 | the records by start, those with equal starts in the order they had |
| `Startup.SortByStartSorts` | kernel/src/buddy.c:406-419 | the result is sorted by start and a permutation of the records |
| `Startup.Allocator.ShiftDown` | kernel/src/buddy.c:409-415 | the records before record i that start later move up by one, the rest stay |
| `Startup.Allocator.FindFirstFree` | kernel/src/buddy.c:431-455 | the loop computes the scan |
| `Startup.Allocator.Alloc` | kernel/src/buddy.c:502-532 | what the scan of the sorted records gives; on non-empty records that is the lowest page-aligned gap that fits, or 0 iff there is none, exactly when no earlier record reaches into the first window with room, and always when none is nested in another; the block is recorded behind the sorted records, and that shape is kept |
| `Boot.ClampKeepsPages` | kernel/src/buddy.c:470-500 | a page of the region is touched by a range iff it is by the rounded and clamped one |
| `Boot.RegisterAll` | kernel/src/buddy.c:470-500 | the records are the clamped ranges that are not empty, in order, up to the 16 slots of the table |
| `Boot.Replay` | kernel/src/buddy.c:534-542 | the pages reserved afterwards are exactly those reserved before and those that some record touches |
| `Boot.Layout` | kernel/src/main.c:80-110 | after startup exactly the clamped non-empty reserves and the metadata arrays that were placed are on record, each array where the scan puts it; where no reserve is nested in another that is the lowest gap left, NULL only if there is none, and the arrays meet no reserve and not each other |
| `Boot.Start` | kernel/src/main.c:77-121 | boot comes up iff both metadata arrays were placed, at the addresses the layout says; then every page sharing a byte with a registered range, whose rounded end does not wrap, or with a metadata array is reserved, and every page that touches none of them is free |
| `Boot.Run` | kernel/src/buddy.c:283-379 | over every script of allocations and frees the trace tells what each request did: an allocation fails only if no aligned free run can serve it and otherwise takes exactly the pages of the block it returns, a free gives exactly those pages back; no reserved page is ever free, the blocks held are the live ones, and when all are freed every list holds what the build gave it |
| `Boot.BootAndServe` | kernel/src/main.c:77-121 | boot followed by any client: up iff both arrays were placed; then no page of any block ever handed out shares a byte with a registered range or with a metadata array, and at the start every page that touches none of them is free |
| `Kmalloc.FindPool` | kernel/src/kmalloc.c:50-57 | the least class that holds the size, or -1 when none does |
| `Kmalloc.Heap.constructor` | kernel/src/kmalloc.c:67-84 | no page owned by a pool, nothing live |
| `Kmalloc.Pools.Slice` | kernel/src/kmalloc.c:117-125 | the page's chunks pushed on the free list one by one, the last first |
| `Kmalloc.Pools.EnterPage` | kernel/src/kmalloc.c:114-125 | a fresh page becomes a pool page and all its chunks become free, nothing else changes |
| `Kmalloc.Heap.AllocSmall` | kernel/src/kmalloc.c:105-132 | fails, with nothing changed, iff the list is empty and there is no free page; otherwise the first chunk of the list leaves it, after exactly one free page was sliced onto the list if it was empty, and nothing else changes |
| `Kmalloc.Heap.AllocLarge` | kernel/src/kmalloc.c:91-103 | fails, with nothing changed, iff there is no free block of the least sufficient order; otherwise exactly the pages of such a block leave the page frames |
| `Kmalloc.Heap.Alloc` | kernel/src/kmalloc.c:86-133 | fails, with nothing changed, iff the size is 0 or neither path can serve it; otherwise a new pointer, and lists, page owners, free pages and live blocks are exactly as the path taken leaves them |
| `Kmalloc.Heap.Free` | kernel/src/kmalloc.c:135-159 | a live pointer goes back to the front of the list of its class, or exactly the pages of its block to the page frames; nothing else changes |
| `Kmalloc.Route` | kernel/src/kmalloc.c:140-157 | the owner of a live pointer's page tells the allocator and the class it came from |
| `Kmalloc.LiveRegions` | kernel/src/kmalloc.c:86-159 | live regions are pairwise disjoint, as large as asked for, and chunks are aligned to their size |
| `Kmalloc.ChunksConserved` | kernel/src/kmalloc.c:105-132 | free and live chunks of a pool page number exactly 4096 / chunk size |
| `Kmalloc.ChunkAligned` | kernel/src/kmalloc.c:117-125 | the address of a chunk is a multiple of its size |
| `Kmalloc.ContentsSplit` | kernel/src/kmalloc.c:86-159 | no page is two of free, a pool's, and in a large block |
| `Kmalloc.ObtainedConserves` | kernel/src/kmalloc.c:86-133 | a successful kmalloc neither adds a page to the heap nor loses one |
| `Kmalloc.ReleasedConserves` | kernel/src/kmalloc.c:135-159 | nor does a kfree |
| `Kmalloc.Run` | kernel/src/kmalloc.c:86-159 | over every script of kmalloc and kfree the trace tells exactly what each request did to lists, page owners, free pages and live pointers, an allocation failing iff nothing can serve it; the client's pointers are the live ones, each once, with pairwise disjoint regions; free pages, pool pages and large blocks together are the same pages throughout |
| `BottomHalf.Kernel.FindSlot` | kernel/src/task.c:57-63 | the place behind every task at least as urgent |
| `BottomHalf.Kernel.Add` | kernel/src/task.c:52-69 | stable insertion of an allocated node: behind all of equal or higher urgency, before the rest; queue order kept |
| `BottomHalf.Kernel.AddPlain` | kernel/src/task.c:44-69 | 0 and one more task, with the priority, body and tail given and a new number, behind all of equal or higher urgency; or -1 and nothing changed when there is no node for it |
| `BottomHalf.Kernel.SetTimer` | kernel/src/timer.c:115-148 | exactly one more timer, due the ticks asked for after now, with this body and tail and a new number, behind all that expire no later; the deadline moves to its expiry iff it is the first; nothing changed when there is no node for it |
| `BottomHalf.Kernel.FireFirst` | kernel/src/timer.c:198-209 | the first timer leaves the queue and a task with its body and tail is queued, behind all of its urgency |
| `BottomHalf.Kernel.Drain` | kernel/src/timer.c:194-216 | removes exactly the expired timers and queues their callbacks one by one in expiry order |
| `BottomHalf.Kernel.FireExpired` | kernel/src/timer.c:194-228 | as the drain, and the deadline programmed is exactly the earlier of the first expiry and the next tick |
| `BottomHalf.Kernel.StartHead` | kernel/src/task.c:86-106 | the task started is the head of the queue, strictly more urgent than all running ones |
| `BottomHalf.Kernel.RunTasks` | kernel/src/task.c:86-124 | for every script it terminates, computes the reference run, of which the rows of `Accounts` and `Conservation` say what it does, restores the running priority and the stack of running callbacks, and leaves nothing more urgent queued |
| `BottomHalf.AfterTasks` | kernel/src/task.c:86-124 | the reference meaning of the dispatcher: no work is invented and nothing more urgent than the running level is left |
| `BottomHalf.Kernel.RunHead` | kernel/src/task.c:95-123 | one task from start to end with everything nested in it, as the reference turn does; strictly less work is left |
| `BottomHalf.Kernel.Exec` | kernel/src/task.c:108-123 | any callback script, interrupts included, keeps every order and returns to the level it began at, and computes the reference run |
| `BottomHalf.StackDescends` | kernel/src/task.c:95-106 | priority numbers strictly decrease from outer to inner running callbacks |
| `BottomHalf.StartsInOrder` | kernel/src/task.c:44-69 | every task starts at most once, and equals start in the order they were added |
| `BottomHalf.StillRunning` | kernel/src/task.c:95-118 | a started task is on the stack until its end is logged |
| `BottomHalf.NoOverlap` | kernel/src/task.c:95-118 | of two tasks of equal priority the first ends before the second starts |
| `BottomHalf.TimerCallbacksInOrder` | kernel/src/timer.c:194-228 | over a whole run timer callbacks start in expiry order, ties in registration order, each when the clock has reached its expiry, and never overlap |
| `Accounts.AfterTasksFaithful` | kernel/src/task.c:86-124 | over task_run_pending the clock moves by exactly the ticks that the callbacks started pass, exactly the delays they ask for are registered and exactly the tasks they add are queued or started, with as many numbers given as tasks were added and timers fired; each callback runs its whole body between its start and its end |
| `Accounts.AfterHeadFaithful` | kernel/src/task.c:95-123 | the same for one turn of the loop |
| `Accounts.ExecutedFaithful` | kernel/src/task.c:108-123 | the same for any script, whose own actions count besides |
| `Accounts.HeadWhole` | kernel/src/task.c:108-118 | the time between start and end of a callback is what its body passes and what the callbacks started in between pass |
| `Accounts.ExecutedThen` | kernel/src/task.c:108-123 | a script runs action by action in its order: running two one after the other is running both |
| `Accounts.PollSettles` | kernel/src/task.c:86-101 | wherever a script calls task_run_pending, nothing more urgent than the running level is left |
| `Accounts.TopHalfSettles` | kernel/src/timer.c:194-228 | wherever the timer interrupt hits a script, no expired timer is left first and the deadline is exactly the earlier of first expiry and next tick |
| `Conservation.ExecutedKeeps` | kernel/src/task.c:44-124 | no script, with everything nested in it, loses a callback: every task queued is in the queue or has started, every timer registered waits, is in the queue or has started, with the expiry, body and tail it was registered with |
| `Conservation.DrainedKeeps` | kernel/src/timer.c:194-216 | handing expired timers to the task queue loses none |
| `Conservation.EveryTaskRuns` | kernel/src/task.c:86-124 | when the dispatcher is left at the idle level every task ever queued has started and ended, but for those queued that are no more urgent than idling |
| `Conservation.CallbackWaits` | kernel/src/timer.c:115-148 | the callback of the timer registered under a number starts no earlier than the time of its registration plus its ticks, with the body and tail registered |
| `Conservation.Life` | kernel/src/task.c:86-124 | after any history of the back end followed by task_run_pending: nothing lost, all actions accounted for, every callback whole, every timer callback on time, every task finished but for those no more urgent than idling |
| `Threads.WakeKeeps` | kernel/src/sched.c:199-207 | a wakeup at any point keeps the invariant, also between BLOCKED being stored and schedule |
| `Threads.BlockKeeps` | kernel/src/sched.c:184-190 | storing BLOCKED keeps the invariant, with no wakeup lost |
| `Threads.ScheduleDispatches` | kernel/src/sched.c:238-269 | schedule always finds a successor, which is the first in line and becomes the one RUNNING thread |
| `Threads.ScheduleKeeps` | kernel/src/sched.c:238-269 | schedule keeps the invariant |
| `Threads.AddThreadKeeps` | kernel/src/syscall.c:264-270 | a new thread has a fresh pid, hangs under its creator and is queued once; the tree stays a tree |
| `Threads.ExitKeeps` | kernel/src/syscall.c:329-360 | exit with reparenting and wakeup of the parent keeps the invariant |
| `Threads.CollectKeeps` | kernel/src/syscall.c:298-316 | collecting the awaited child, if it has no children, keeps the invariant and reports the status it died with |
| `Threads.CollectIff` | kernel/src/syscall.c:298-316 | collecting the awaited child keeps the invariant iff it has no children; the threads orphaned, in use with a parent about to be freed, are exactly its children |
| `Threads.OrphanRun` | kernel/src/syscall.c:373-399 | a run from boot in which a stopped process with a living child is about to be collected |
| `Threads.DieWakeKeeps` | kernel/src/syscall.c:373-399 | the death of a thread with the wakeup of its parent keeps the invariant, whether it has children or not |
| `Threads.ThreadExitIff` | kernel/src/sched.c:279-294 | the end of a kernel worker keeps the invariant, although no parent is woken, iff it has no children; otherwise it orphans exactly them |
| `Threads.WorkerOrphanRun` | kernel/src/sched.c:279-294 | a run from boot in which a kernel worker that created a thread ends, which breaks the invariant and orphans that thread |
| `Threads.FreeFirstKeeps` | kernel/src/sched.c:307-325 | the thread freed is a zombie, not current, not queued, not freed before; the invariant is kept |
| `Threads.StepKeeps` | kernel/src/syscall.c:264-399 | every kernel operation keeps every invariant, stops and default terminations of processes with children included, when a thread handed to the reaper has none |
| `Threads.InitialInv` | kernel/src/sched.c:353-372 | the invariant holds after sched_init |
| `Threads.RunKeeps` | kernel/src/sched.c:167-325 | the invariant holds at every point of every run from boot in which no thread with children goes to the reaper: READY iff queued, then once; idle always READY or RUNNING; one tree with unique pids; nobody, the shell included, asleep on a dead child |
| `Threads.WaitResults` | kernel/src/syscall.c:283-316 | a result of waitpid, or of the wait of the shell, is the status that child died with, now and at every later point of the run |
| `Threads.WaitAnswers` | kernel/src/syscall.c:283-316 | over every run the first result that a thread, or the shell, gets after it began to wait for its child is that of the pid it asked for, with the status that child died with |
| `Threads.ExitMeans` | kernel/src/syscall.c:329-360 | field by field: status recorded, image gone, children appended to those of the bootstrap thread with that as parent, parent woken if BLOCKED, nothing else changed |
| `Threads.DeathMeans` | kernel/src/syscall.c:373-399 | field by field: off the queue, status recorded, image gone, children untouched, parent woken if BLOCKED, nothing else changed |
| `Threads.TerminateMeans` | kernel/src/signal.c:124-145 | the same with status -1 for a process killed by a default action |
| `Threads.RemoveSplits` | kernel/include/list.h:60-66 | list_del takes out exactly one node and keeps the order of the others |
| `Threads.BoundedWaiting` | kernel/src/sched.c:199-269 | a READY thread with k ahead of it runs after at most k + 1 calls of schedule, whatever happens in between, unless it dies |
| `Threads.AllUnderBoot` | kernel/src/sched.c:490-521 | every thread not yet given to the reaper hangs under the bootstrap thread |
| `Threads.AlwaysDefined` | kernel/src/syscall.c:329-399 | what the operations presuppose of parents and awaited children holds in every good state |
| `Sched.Scheduler.constructor` | kernel/src/sched.c:353-372 | the initial state |
| `Sched.Scheduler.WakeThread` | kernel/src/sched.c:199-207 | a BLOCKED thread becomes READY and goes to the back of the queue, any other is left alone |
| `Sched.Scheduler.MarkBlocked` | kernel/src/sched.c:184-190 | the first half of thread_block |
| `Sched.Scheduler.Reschedule` | kernel/src/sched.c:238-269 | a RUNNING caller goes to the back of the queue as READY; the first in line leaves it and runs; no other state changes, and the invariant is kept |
| `Sched.Scheduler.Yield` | kernel/src/sched.c:238-269 | schedule, from any state |
| `Sched.Scheduler.Create` | kernel/src/sched.c:96-123 | one more thread, READY and last in the queue, with a fresh pid, last among the children of the current one; or none and no change when there is no memory |
| `Sched.Scheduler.FindUnder` | kernel/src/sched.c:490-505 | finds the pid iff its thread descends from the root of the search; terminates |
| `Sched.Scheduler.FindByPid` | kernel/src/sched.c:515-521 | finds every thread not yet given to the reaper, and no other |
| `Sched.Scheduler.WaitEnter` | kernel/src/syscall.c:283-300 | refuses exactly the pids that are not children; otherwise the wait is settled on that pid, and nothing else changes |
| `Sched.Scheduler.AwaitSpawned` | kernel/src/shell.c:211-224 | the wait of the shell is settled on the process it spawned, and nothing else changes |
| `Sched.Scheduler.WaitStep` | kernel/src/syscall.c:301-316 | blocks on a living child, or records and returns the status the dead one died with, takes it out of the children and hands it to the reaper; the state stays good iff that child has no children |
| `Sched.Scheduler.Reparent` | kernel/src/syscall.c:336-342 | all children move to the bootstrap thread, in order |
| `Sched.AdoptTurn` | kernel/src/syscall.c:336-342 | one turn moves exactly the first child |
| `Sched.Scheduler.ExitCurrent` | kernel/src/syscall.c:329-360 | the whole of sys_exit up to schedule, field by field |
| `Sched.Scheduler.ExitWorker` | kernel/src/sched.c:279-294 | thread_exit up to schedule, field by field; the state stays good iff the worker has no children |
| `Sched.Scheduler.StopOther` | kernel/src/syscall.c:373-399 | -1 and no change unless the pid is found with an image; otherwise 0, and the victim, with children or not, is dead with status -1, off the queue, and its parent woken |
| `Sched.Scheduler.StopPid` | kernel/src/syscall.c:373-399 | the whole of sys_stop; of the caller itself it is an exit with -1 |
| `Sched.Scheduler.KillZombies` | kernel/src/sched.c:307-325 | frees exactly the threads on the list, in order, each a zombie that is neither current nor queued nor freed before; no other thread changes |
| `Sched.FreedKeeps` | kernel/src/sched.c:307-325 | freeing any prefix of the list keeps the invariant |
| `Bits.LowestBitIndex` | kernel/src/signal.c:50-58 | the least set bit |
| `Bits.AscendingBits` | kernel/src/signal.c:195-202 | taking lowest bits one after the other lists every set bit once, in ascending order |
| `Signals.StepKeeps` | kernel/src/signal.c:186-271 | every event keeps the invariant: a signal stack is held iff a handler is active, only 1 to 31 are pending |
| `Signals.RunKeeps` | kernel/src/trap.c:48-154 | the invariant over every run |
| `Signals.InitialInv` | kernel/src/signal.c:69-74 | the state signal_state_init leaves satisfies the invariant |
| `Signals.DispatchDelivers` | kernel/src/signal.c:186-239 | field by field, for the lowest pending signal, which alone is taken from the pending ones: dropped if ignored; death if there is no handler or no stack; otherwise sepc is its handler, a0 the signal, ra the bottom of the stack, sp the highest aligned address of the stack, all else as interrupted, and that frame saved |
| `Signals.EcallMeans` | kernel/src/trap.c:133-154 | an ecall goes on behind the instruction with the result in a0 and all else as it was; sys_signal installs the handler and returns the one before or -1, sigreturn and exec replace the frame |
| `Signals.PostMeans` | kernel/src/signal.c:84-95 | exactly a valid signal joins the pending ones |
| `Signals.HandlerUndisturbed` | kernel/src/signal.c:186-199 | a handler goes on, with no second one started and its saved frame and stack kept, exactly as long as there is no sigreturn, no successful exec and no death by exit or stop, whatever else happens |
| `Signals.ReturnRestores` | kernel/src/signal.c:256-271 | sigreturn through the ecall path puts back the saved frame, sepc and a0 included |
| `Signals.SignalRoundTrip` | kernel/src/signal.c:186-271 | dispatch enters the handler of the lowest pending signal; after any activity its sigreturn leaves the frame the signal interrupted |
| `Signals.BatchInOrder` | kernel/src/signal.c:186-271 | pending signals with user handlers, none posted or re-registered meanwhile, run in ascending order, one at a time, each on the stack allocated for it, and end in the original frame |
| `Signals.BatchKeepsFrame` | kernel/src/signal.c:186-271 | however many handlers follow one another, whatever is posted or re-registered meanwhile, the last returns to the frame the first interrupted, unless a default action kills the process |
| `Signals.NextHandler` | kernel/src/signal.c:195-202 | behind a handler follows another at once iff the lowest signal then pending has one and there is a stack; it is that signal's, entered from the frame the first interrupted, with a higher number exactly if no signal up to the one before was posted meanwhile, and leaves only higher ones pending |
| `Signals.BatchByPriority` | kernel/src/signal.c:186-271 | at every point of a batch, whatever is posted or re-registered meanwhile, the next handler is that of the lowest signal pending at that moment, and the numbers ascend but for signals posted meanwhile |
| `Signals.PendingAfter` | kernel/src/signal.c:84-95 | while a handler runs exactly the signals posted join the pending ones |
| `Signals.Thread.PostSignal` | kernel/src/signal.c:84-95 | sets the bit of a valid signal, ignores the rest |
| `Signals.Thread.constructor` | kernel/src/signal.c:69-74 | a quiescent process |
| `Signals.Thread.CheckAndDispatch` | kernel/src/signal.c:186-250 | nothing without image, in a handler or with nothing pending; otherwise, field by field, the lowest pending signal is dropped, kills the process, or enters its handler |
| `Signals.Thread.ReturnFromHandler` | kernel/src/signal.c:256-271 | restores the frame and releases the stack, or refuses |
| `Signals.Thread.InstallHandler` | kernel/src/syscall.c:478-486 | installs and returns the previous handler, or -1 |
| `Signals.Thread.ReplaceImage` | kernel/src/syscall.c:150-176 | exec: handlers reset, nothing pending, stack released, registers cleared but sp, tp and the status ones |
| `Signals.Thread.HandleEcall` | kernel/src/trap.c:133-154 | sepc past the ecall, the call, a0 written back, then delivery, in this order |
| `ListRing.InitHead` | kernel/include/list.h:20-26 | an empty ring |
| `ListRing.Link` | kernel/include/list.h:28-36 | a new node between two neighbours: the ring of the sequence with the node inserted there |
| `ListRing.AddFront` | kernel/include/list.h:48-52 | insert at the front |
| `ListRing.AddBack` | kernel/include/list.h:54-58 | insert at the back |
| `ListRing.Delete` | kernel/include/list.h:60-66 | removal of any member; the removed node is a ring of its own |
| `ListRing.IsEmpty` | kernel/include/list.h:68-71 | true iff the sequence is empty |
| `ListRing.FindSlot` | kernel/src/task.c:56-60 | the walk stops behind every member whose key is no larger |
| `ListRing.InsertSorted` | kernel/src/timer.c:131-141 | walk and splice keep the ring and its order, newcomers behind their equals |
| `Memory.StrEq` | kernel/src/utils.c:4-11 | true iff the C string at the address is the given string |
| `Cpio.Hex2Int` | kernel/src/cpio.c:27-42 | the value of the field, where anything but a hex digit counts as 0 |
| `Cpio.HexRoundTrip` | kernel/src/cpio.c:27-42 | reading back a number written in hex of either case gives the number |
| `Cpio.Find` | kernel/src/cpio.c:158-195 | terminates; the bytes found are the data of the first entry of the name, or -1 with the outputs untouched iff there is none |
| `Cpio.WrittenArchive` | kernel/src/cpio.c:158-195 | a list of entries written in newc form at an aligned address, the header fields besides the sizes being arbitrary, is read as that list |
| `Cpio.LookupComplete` | kernel/src/cpio.c:158-195 | an entry is found iff there is one of the name |
| `Cpio.LookupPayload` | kernel/src/cpio.c:158-195 | position and size found hold the data of the first entry of the name |
| `Dtb.ReadWord` | kernel/src/dtb.c:37-43 | load and byte swap give the big-endian word |
| `Dtb.WordBytes` | kernel/src/dtb.c:37-43 | the first byte of a word is the most significant |
| `Dtb.NodeNameMatch` | kernel/src/dtb.c:57-69 | true iff the name up to its unit address is the segment |
| `Dtb.PathSegment` | kernel/src/dtb.c:77-101 | the component of that index, for any string and any index |
| `Dtb.SegmentOfSplit` | kernel/src/dtb.c:77-101 | components are the parts between slashes, but for an empty last one |
| `Dtb.SplitJoins` | kernel/src/dtb.c:77-101 | the parts joined by slashes are the string, and no part has a slash |
| `Dtb.PathDepth` | kernel/src/dtb.c:104-115 | the number of parts, 0 for the root, -1 for no path |
| `Dtb.EnterProp` | kernel/src/dtb.c:220-246 | length and name of a property, with the block behind it |
| `Dtb.GetProp` | kernel/src/dtb.c:136-262 | for every encoded tree, where the value of the first property of the name stands, in document order, in the subtrees of the nodes at the path's depth that have its last component as base name, and its length if that fits an int; NULL and length 0 if none, length untouched on a bad argument or header |
| `Dtb.SearchIsLookup` | kernel/src/dtb.c:163-257 | the token walk over a flattened tree is that search in the tree |
| `Dtb.SearchInside` | kernel/src/dtb.c:215-243 | inside a target every property of the subtree counts, in document order |
| `Dtb.SearchOutside` | kernel/src/dtb.c:167-218 | outside targets only nodes at the wanted depth with the last component's name open one |
| `DtbPath.PathLookupIff` | kernel/src/dtb.c:136-262 | the search answers as path lookup proper, by the own properties of the nodes whose whole path of base names matches, iff in document order every property of the name that only one of the two considers stands behind one of the name that the other considers |
| `DtbPath.CanonicalPathLookupIff` | kernel/src/dtb.c:136-262 | for a last component of 1 to 63 bytes: iff no property of the name off the path, or further down, comes before all own ones on the path |
| `DtbPath.EncodedPathLookupIff` | kernel/src/dtb.c:136-262 | the same for every encoded tree, whose values stand in document order |
| `DtbPath.OffPathNamesake` | kernel/src/dtb.c:184-213 | a tree for which a property of another node is answered and path lookup finds none |
| `DtbPath.DescendantAnswered` | kernel/src/dtb.c:215-243 | a tree for which a property of a node below the target is answered and path lookup finds none |
| `Dtb.WalkReservedMemory` | kernel/src/dtb.c:413-502 | reports, in document order, exactly the non-zero-size reg entries of the direct children of the first top-level reserved-memory node; nothing without a blob or with a bad header |
| `Dtb.WalkIsSearch` | kernel/src/dtb.c:437-501 | the token walk over a flattened tree reports the regions found in the tree |
| `Dtb.ReportEntries` | kernel/src/dtb.c:476-488 | every 16-byte entry of non-zero size, in order |
| `Dtb.GetMemoryRegion` | kernel/src/dtb.c:300-403 | the first long enough reg entry of the top-level memory nodes, or -1 with the outputs untouched |
| `Dtb.MemoryIsSearch` | kernel/src/dtb.c:324-399 | the token walk over a flattened tree is that search |
| `DtbWriter.WrittenBlock` | kernel/src/dtb.c:163-257 | tokens laid out as section 5.4 of the Devicetree Specification says are read as those tokens |
| `DtbWriter.WrittenBlob` | kernel/src/dtb.c:136-262 | every tree with storable names and values, written as header, reservation block, structure block and strings block, is a blob that the walkers read as that tree, the addresses of the values filled in |
| `DtbRegions.EntriesWritten` | kernel/src/dtb.c:476-488 | a reg value written region by region, eight big-endian bytes of address and eight of size, is read as those regions in order, the empty ones left out and a short rest ignored |
| `DtbRegions.FirstWritten` | kernel/src/dtb.c:380-388 | its first region is read as that |
| `DtbRegions.ReservedWritten` | kernel/src/dtb.c:437-501 | a tree whose reserved regions are written so reports exactly these |
| `DtbRegions.MemoryWritten` | kernel/src/dtb.c:324-399 | the memory region of a tree is the first one written into its memory nodes |
| `DtbRegions.ReservedFromBlob` | kernel/src/dtb.c:413-502 | the reserved regions written into a blob are reported from its bytes |
| `DtbRegions.MemoryFromBlob` | kernel/src/dtb.c:300-403 | the first memory region written into a blob is read from its bytes |

## Left out

- Interrupts inside the allocators: `buddy_*`, `kmalloc` and `kfree` do not mask interrupts; each call is one atomic step here.
- Freeing anything but a live block or chunk: `buddy_free` trusts the tag, so this is a precondition.
- Storage of list nodes inside free pages and chunks: only `ListRing` is at pointer level, elsewhere an intrusive list is the sequence of its members.
- Address 0 as a page: a block at address 0 looks like NULL to the caller; `Buddy.Allocator.Alloc` says by a ghost result whether a block was taken, and the heap is proved for a non-zero base or a reserved page 0.
- Boot with a metadata array that cannot be placed: the kernel goes on with address 0; `Boot.Start` stops there.
- Boot.Layout: an array that is placed while the table of 16 records is full, whose record the code would write behind the table, and memory beyond 2^63. The same holds for `Boot.Start` and `Boot.BootAndServe`.
- Startup.Allocator.Alloc: a block found while the table is full, whose record the code would write behind the table, and address sums that wrap.
- BottomHalf.Kernel.Drain: there is a node for every expired timer's task; without one the code calls the callback inside the interrupt, above any running level.
- 64-bit tick overflow, and the interrupt-enable bits around `task_run_pending`.
- Bottom-half callbacks that call `schedule` through a full UART ring: they break the single dispatch stack.
- `sys_usleep`: a timer that fires before BLOCKED is stored wakes nothing, so no wake guarantee holds for it.
- Threads.RunKeeps: what a run does after a thread with children went to the reaper; from then on children refer to a freed parent.
- Overflow of thread ids, truncation of an exit status to int, and pids outside the range of thread ids.
- Contents of stacks and images: `sys_exec`, the copying in `sys_fork`, address range checks, the trampoline on a signal stack.
- The signal state a forked child copies, `shell_stop_pid`, and the register restore in trap_entry.S: signals are modelled on trap frames.
- Signals.BatchInOrder: while the batch runs no further signal is posted and no handler is replaced; `Signals.BatchByPriority` and `Signals.BatchKeepsFrame` say what holds otherwise.
- Cpio.Hex2Int: unbounded value; the archive's fields have eight digits, which fit 64 bits.
- `dtb_getprop` and `dtb_get_totalsize`, which are one-line wrappers.
- A null `lenp` for `_dtb_getprop` and null output pointers: the outputs are results here.
- `cpio_ls`, `cpio_cat`, the UART ring, PLIC, SBI, video, shell, printing, boot assembly and the bootloader.
