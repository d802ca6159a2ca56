# Verification of the kernel's allocators, IPC and scheduler

Dafny models and proofs for the stateful core of the kernel: its two memory managers, its priority
scheduler with aging, and its semaphores, pipes and descriptor tables. Verify everything with
`dafny verify dfyconfig.toml`.

## What is modelled

**Memory managers.** `Allocator.dfy` is the abstract allocator behind `Kernel/include/mm.h`: a map
from live pointers to sizes with disjoint ranges. Both managers refine it.

* `Dyadic.dfy`, `BuddyHeap.dfy`, `BuddyLists.dfy` and `BuddyAllocator.dfy` model `mm_buddy.c`. Blocks
  are dyadic intervals in units of 64 bytes; `BuddyLists` relates header bytes and list heads to the
  abstract heap; the class `BuddyAllocator.Manager` updates headers, lists and counters as the C code
  does. Memory that is not a block start holds arbitrary bytes, so a stale header would be noticed.
* `Links.dfy`, `FirstFitHeap.dfy` and `FirstFitAllocator.dfy` model `mm_simple.c`: the physical list,
  the sentinel free list and the header words with their flag bit.

**Scheduler.** `ProcessQueue.dfy` models the intrusive queues of `process.c` and proves that they
refine sequences. `SchedulerSpec.dfy` and `SchedulerSteps.dfy` say what `scheduler.c` does on values,
`Scheduler.dfy` is the imperative code over the intrusive queues, `SchedulerAging.dfy` and
`SchedulerEffects.dfy` say what aging and each kernel entry do to every process and queue,
`SchedulerRuns.dfy` proves queue membership over runs, and `SchedulerFairness.dfy` proves bounded
waiting.

**IPC.** `Semaphore.dfy`, `WaitQueue.dfy` and `SemaphoreTable.dfy` model `semaphore.c`. `PipeSpec.dfy`
and `PipeRing.dfy` model `pipe.c` on values and on the ring buffer. `IpcSystem.dfy`, `IpcSteps.dfy`,
`IpcRuns.dfy`, `IpcClosing.dfy`, `IpcWakeups.dfy` and `IpcWriters.dfy` put descriptor tables, pipes
and sleeping processes together as a step machine; `IpcCalls.dfy` follows a read or a write over all its
stretches, and `IpcTables.dfy` gives the tables after each event; `IpcWitness.dfy` holds runs that reach the states
in which wake-ups fall short; `Descriptors.dfy` is the imperative descriptor code. System calls run
with interrupts off, so one step reaches from a system call, or a wake-up, to the next sleep or return.

## Where the code falls short of the claim

Each of these is proved as an if-and-only-if and with a concrete input or run.

* A request whose aligned size plus header passes 2^64 wraps, and in `mm_buddy.c` one above level 31
  is capped: the block is then smaller than the request, and the statistics need not predict the
  outcome (`OrderCovers`, `RequiredCovers`, `StatsExact`, and `WrappedRequest` for the input).
* The loops that wake `syscall_wait` waiters push a process that is still in the blocked queue: they
  keep the queues if and only if they wake nobody (`WakeWaiterBreaks`, `KillWakingExactly`,
  `SaveWakingExactly`; reached by `ParkedReached`).
* A process that is killed while it runs stands in the finished queue until the next switch. If it
  blocks before that, its queue is not that of its state any more (`DomainExact`; reached by
  `DoomedReached`). The queues also break when the running process or a finished one is unblocked, and
  when the idle process is killed (`OutsideMet`).
* The last writer of a pipe signals at most 100 times: it leaves readers asleep if and only if there are
  more (`EofExact`; reached by `EofFallsShort`).
* Closing the last reader wakes no writer: a writer is left asleep if and only if one was (`StrandExact`;
  reached by `StrandedReached`), and a writer that gives up wakes no other (`ResumeExact`; reached by
  `PlaceLost`).
* `process_close_fds` on a process inside a read or a write, as a kill does it, leaves the process inside
  a call on an end it no longer holds (`CloseAllExact`; reached by `KilledInside`).

## Model

| member | source | states |
|---|---|---|
| `Dyadic.XorIsBuddy` | Kernel/mm/mm_buddy.c:108-117 | for an offset aligned to its own size, `offset ^ size` is the neighbour that completes the pair: above it when the quotient is even, below it when odd |
| `Dyadic.XorScaled` | Kernel/mm/mm_buddy.c:108-117 | the same in bytes as in base blocks: xor commutes with the factor 64 |
| `Dyadic.Nested` | Kernel/mm/mm_buddy.c:131-146 | two aligned dyadic intervals are nested or disjoint |
| `BuddyHeap.BuddyIsBlock` | Kernel/mm/mm_buddy.c:108-117 | whenever the buddy interval lies inside the heap, its start is the start of a current block of at most the same level, never bytes inside another block |
| `BuddyHeap.Covering` | Kernel/mm/mm_buddy.c:194-208 | every unit of the heap lies in a block |
| `BuddyHeap.CoveringUnique` | Kernel/mm/mm_buddy.c:194-208 | ... and in only one |
| `BuddyHeap.SplitKeeps` | Kernel/mm/mm_buddy.c:81-100 | cutting a block in halves keeps the tiling with self-aligned offsets |
| `BuddyHeap.MergeTiling` | Kernel/mm/mm_buddy.c:131-146 | joining two buddies keeps the tiling with self-aligned offsets |
| `BuddyHeap.MergeKeeps` | Kernel/mm/mm_buddy.c:131-146 | joining two free buddies leaves no mergeable pair, except perhaps at the joined block |
| `BuddyHeap.DeterminedByLive` | Kernel/mm/mm_buddy.c:131-146 | canonical form: two heaps in which no two buddies below the top level are both free, with the same live blocks, have the same free blocks |
| `BuddyHeap.InitInv` | Kernel/mm/mm_buddy.c:194-208 | the greedy layout tiles the heap, self-aligned and already canonical |
| `BuddyHeap.AllFreeIsInitial` | Kernel/mm/mm_buddy.c:131-146 | once nothing is live the blocks are exactly those of the initial layout |
| `BuddyLists.PushImage` | Kernel/mm/mm_buddy.c:60-67 | the pointer writes of a push leave every list spelled by its links, the lists holding exactly the free blocks of their level |
| `BuddyLists.UnlinkImage` | Kernel/mm/mm_buddy.c:119-129 | the pointer writes of a removal do the same, without the block |
| `BuddyLists.ScribbleImage` | Kernel/mm/mm_buddy.c:108-117 | stale header bytes that are not at a block start are never relied on |
| `BuddyLists.FirstLevelServes` | Kernel/mm/mm_buddy.c:256-271 | the first non-empty list at or above a level exists exactly when some free block has at least that level |
| `BuddyAllocator.OrderCovers` | Kernel/mm/mm_buddy.c:49-58 | the level computed for a request holds it if and only if the request is at most 2^37 - 32 bytes; above that the level cap or the 64-bit wrap gives too small a block |
| `BuddyAllocator.WrappedRequest` | Kernel/mm/mm_buddy.c:256-257 | the largest 64-bit size wraps to a request for the smallest block |
| `BuddyAllocator.StatsPredict` | Kernel/mm/mm_buddy.c:307-319 | a request that neither wraps nor passes the level cap is served exactly when its aligned size is at most the reported largest free block |
| `BuddyAllocator.StatsExact` | Kernel/mm/mm_buddy.c:307-319 | for every 64-bit request, the exact condition under which that prediction holds |
| `BuddyAllocator.ArenaSound` | Kernel/mm/mm_buddy.c:245-281 | the payloads of the live blocks lie in the heap and are pairwise disjoint |
| `BuddyAllocator.Manager.OrderFor` | Kernel/mm/mm_buddy.c:49-58 | returns the smallest level whose block holds the bytes, capped at 31 |
| `BuddyAllocator.Manager.PushFree` | Kernel/mm/mm_buddy.c:60-67 | the block moves to the front of the list of its level, all other lists unchanged |
| `BuddyAllocator.Manager.PopFree` | Kernel/mm/mm_buddy.c:69-79 | returns and removes the first block of the list, or nothing when it is empty |
| `BuddyAllocator.Manager.SplitDown` | Kernel/mm/mm_buddy.c:81-100 | hands out the lower part of the first block of the source level; the upper halves end up free, one per level, in the stated lists; canonical form kept |
| `BuddyAllocator.Manager.FindBuddy` | Kernel/mm/mm_buddy.c:108-117 | returns nothing exactly when the buddy interval leaves the heap, otherwise a current block start |
| `BuddyAllocator.Manager.RemoveFromFreeList` | Kernel/mm/mm_buddy.c:119-129 | walks to the block and takes it out of its list, which is otherwise unchanged |
| `BuddyAllocator.Manager.FreeBuddy` | Kernel/mm/mm_buddy.c:131-136 | finds a buddy exactly when the pair can be joined |
| `BuddyAllocator.Manager.Join` | Kernel/mm/mm_buddy.c:136-143 | one round joins the pair at the lower offset, one level up |
| `BuddyAllocator.Manager.Coalesce` | Kernel/mm/mm_buddy.c:131-146 | the loop reaches the canonical heap and the lists of the recursive specification, and moves no live block |
| `BuddyAllocator.Manager.Take` | Kernel/mm/mm_buddy.c:258-271 | fails exactly when no free block is large enough, otherwise takes the first block of the first level that has one |
| `BuddyAllocator.Manager.AllocReady` | Kernel/mm/mm_buddy.c:245-281 | succeeds exactly when a block can serve; the pointer is new, its payload disjoint from all others, everybody else untouched; exact lists and counters; it is an allocation of the bytes asked for if and only if they are at most 2^37 - 32 |
| `BuddyAllocator.Manager.Charge` | Kernel/mm/mm_buddy.c:273-280 | `used` is exactly the sum of live payloads, so the cap is never reached |
| `BuddyAllocator.Manager.Layout` | Kernel/mm/mm_buddy.c:190-208 | from arbitrary memory the loop lays out exactly the greedy decomposition |
| `BuddyAllocator.AlignUpIs` | Kernel/mm/mm_buddy.c:13-15 | the alignment rounds up to the next multiple of 16, unless it wraps |
| `BuddyAllocator.UsableFills` | Kernel/mm/mm_buddy.c:149-177 | the bytes taken from a region are the region with both ends rounded inwards to 16 bytes, or none if it has no 48 bytes from a multiple of 16 on |
| `BuddyAllocator.Manager.Init` | Kernel/mm/mm_buddy.c:149-217 | refuses a region exactly when it has no 48 bytes from a multiple of 16 on; otherwise the heap is the region with both ends rounded inwards to 16 bytes, in its initial layout, empty, with all counters at zero |
| `BuddyAllocator.Manager.InitDefault` | Kernel/mm/mm_buddy.c:237-243 | the same for the default region, refused as well if it is NULL |
| `BuddyAllocator.Manager.Alloc` | Kernel/mm/mm_buddy.c:245-281 | with lazy initialization: a refinement step of the abstract allocator for the bytes asked for, if and only if they are at most 2^37 - 32, or no change |
| `BuddyAllocator.Manager.Free` | Kernel/mm/mm_buddy.c:283-301 | a live pointer is released and its block coalesced as specified; NULL, an uninitialized heap and a block that is already free change nothing |
| `BuddyAllocator.Manager.Discharge` | Kernel/mm/mm_buddy.c:294-298 | the subtraction never saturates |
| `BuddyAllocator.Manager.LargestFreeBlock` | Kernel/mm/mm_buddy.c:303-323 | reports the largest payload of any free block, 0 without one |
| `BuddyAllocator.Manager.GetStats` | Kernel/mm/mm_buddy.c:303-323 | the whole report: used bytes are the live payloads, used and free add up to the total |
| `BuddyAllocator.Manager.EmptyIsInitial` | Kernel/mm/mm_buddy.c:149-217 | freeing everything in any order restores the blocks mm_init built |
| `Allocator.RunsKeepRanges` | Kernel/include/mm.h:17-21 | over any run of the abstract allocator live ranges stay disjoint and inside, and a payload keeps its extent until its own pointer is freed |
| `Allocator.UsedFits` | Kernel/mm/mm_buddy.c:275-278 | live payloads never add up to more than the arena, so the saturating branch cannot be taken |
| `Allocator.UsedByAlloc` | Kernel/mm/mm_simple.c:257-261 | an allocation adds exactly its payload to the bytes in use |
| `Allocator.UsedByFree` | Kernel/mm/mm_simple.c:279-285 | a release subtracts exactly its payload |
| `FirstFitHeap.RequiredCovers` | Kernel/mm/mm_simple.c:242-246 | the block size asked for holds the request if and only if the request is at most 2^64 - 48 bytes |
| `FirstFitAllocator.WrappedRequest` | Kernel/mm/mm_simple.c:242-246 | every request above that asks for the smallest block |
| `FirstFitHeap.SplitTiles` | Kernel/mm/mm_simple.c:89-117 | splitting a block keeps the physical list a tiling; the new start is not a current block |
| `FirstFitHeap.JoinTiles` | Kernel/mm/mm_simple.c:119-143 | joining neighbours keeps it a tiling |
| `FirstFitHeap.ApartJoined` | Kernel/mm/mm_simple.c:119-143 | joining leaves no two free neighbours, except perhaps at the joined block |
| `FirstFitHeap.AllFreeIsInitial` | Kernel/mm/mm_simple.c:183-191 | once nothing is allocated there is one block, the whole heap |
| `FirstFitHeap.DeterminedByArena` | Kernel/mm/mm_simple.c:119-143 | canonical form: the live payloads determine the physical list and all block sizes |
| `FirstFitHeap.ArenaSound` | Kernel/mm/mm_simple.c:226-265 | the live payloads lie in the heap and are pairwise disjoint |
| `FirstFitAllocator.FirstFitFinds` | Kernel/mm/mm_simple.c:78-87 | the block found is free and large enough, and is missing only if none is |
| `FirstFitAllocator.FirstFitIsFirst` | Kernel/mm/mm_simple.c:78-87 | the block found is the first of the list that is large enough: every block before it is too small |
| `FirstFitAllocator.RequiredLeast` | Kernel/mm/mm_simple.c:242-246 | the block asked for exceeds the request and the header by less than 16 bytes |
| `FirstFitAllocator.UsableFills` | Kernel/mm/mm_simple.c:145-181 | the bytes taken from a region are the region with both ends rounded inwards to 16 bytes, or none if it has no 64 bytes from a multiple of 16 on |
| `FirstFitAllocator.StatsPredict` | Kernel/mm/mm_simple.c:299-318 | a request that does not wrap is served exactly when its aligned size is at most the reported largest free block |
| `FirstFitAllocator.StatsExact` | Kernel/mm/mm_simple.c:299-318 | for every 64-bit request, the exact condition under which that prediction holds |
| `FirstFitAllocator.Manager.FreeListInsert` | Kernel/mm/mm_simple.c:64-69 | four pointer writes put the block at the front of the sentinel list |
| `FirstFitAllocator.Manager.FreeListRemove` | Kernel/mm/mm_simple.c:71-76 | the list is the old one without the block |
| `FirstFitAllocator.Manager.FindFirstFit` | Kernel/mm/mm_simple.c:78-87 | the walk returns the first block of the list that is large enough, every block before it being too small, and nothing only if all are |
| `FirstFitAllocator.Manager.SplitBlock` | Kernel/mm/mm_simple.c:89-117 | splits exactly when the rest can be a block of its own; new physical list, sizes and free list |
| `FirstFitAllocator.Manager.Join` | Kernel/mm/mm_simple.c:119-143 | one merge: exact new list and sizes, the same live blocks |
| `FirstFitAllocator.Manager.Coalesce` | Kernel/mm/mm_simple.c:119-143 | no two neighbours are both free afterwards, no live block moved, free neighbours off the free list |
| `FirstFitAllocator.Manager.AllocReady` | Kernel/mm/mm_simple.c:226-265 | fails exactly when every block of the free list is too small, and otherwise takes the first that is not, whole unless what exceeds the need can be a block of its own; exact new lists and counters; it is an allocation of the bytes asked for if and only if they are at most 2^64 - 48 |
| `FirstFitAllocator.Manager.Mark` | Kernel/mm/mm_simple.c:254-264 | `used` is exactly the sum of live payloads, so the cap is never reached |
| `FirstFitAllocator.Manager.Free` | Kernel/mm/mm_simple.c:267-292 | a live pointer is released and its block, joined with its free neighbours, heads the free list; NULL, an uninitialized heap and an unallocated block change nothing |
| `FirstFitAllocator.Manager.Discharge` | Kernel/mm/mm_simple.c:275-287 | the subtraction never saturates |
| `FirstFitAllocator.Manager.Init` | Kernel/mm/mm_simple.c:145-199 | refuses a region exactly when it has no 64 bytes from a multiple of 16 on; otherwise one free block is the region with both ends rounded inwards to 16 bytes |
| `FirstFitAllocator.Manager.InitDefault` | Kernel/mm/mm_simple.c:217-224 | the same for the default region, refused as well if it is NULL |
| `FirstFitAllocator.Manager.Alloc` | Kernel/mm/mm_simple.c:226-265 | with lazy initialization: a refinement step of the abstract allocator for the bytes asked for, if and only if they are at most 2^64 - 48, or no change |
| `FirstFitAllocator.Manager.LargestFreeBlock` | Kernel/mm/mm_simple.c:294-322 | reports the largest payload of any free block, 0 without one |
| `FirstFitAllocator.Manager.GetStats` | Kernel/mm/mm_simple.c:294-322 | the whole report: used bytes are the live payloads, used and free add up to the total |
| `FirstFitAllocator.Manager.EmptyIsInitial` | Kernel/mm/mm_simple.c:145-199 | freeing everything in any order restores the single initial block and free list |
| `Links.LinkedUnique` | Kernel/proc/process.c:212-281 | the links spell one sequence only |
| `ProcessQueue.Pool.Detach` | Kernel/proc/process.c:212-251 | removal from a queue, whatever the place, and a no-op when the process is not in it; other queues untouched |
| `ProcessQueue.Pool.Push` | Kernel/proc/process.c:253-273 | appends; a process that is already a member moves to the tail |
| `ProcessQueue.Pool.Pop` | Kernel/proc/process.c:275-281 | returns and removes the head, or nothing |
| `ProcessQueue.PushElsewhereBreaks` | Kernel/proc/scheduler.c:101-108 | pushing the head of another queue leaves that queue spelling no sequence at all |
| `SchedulerSpec.AgeOlder` | Kernel/proc/scheduler.c:57-75 | aging keeps the set of processes and their states, only raises priorities, leaves every unpromoted ready process with a strictly larger waiting time and strictly lowers its distance from the top |
| `SchedulerSpec.AgeQueues` | Kernel/proc/scheduler.c:57-75 | aging only appends to the top queue and leaves the blocked and finished queues alone |
| `SchedulerAging.AgeQuiet` | Kernel/proc/scheduler.c:57-75 | while nobody below the top has waited for 199 visits, aging adds one to every wait and changes no queue |
| `SchedulerAging.AgeEffect` | Kernel/proc/scheduler.c:57-75 | with fewer than 200 ready processes, a wait of 199 visits is followed by a promotion by one level and a new wait, and a process is not promoted before it could have been visited 200 times |
| `SchedulerSteps.SaveKeeps` | Kernel/proc/scheduler.c:77-114 | the process that leaves the CPU enters exactly the queue of its state |
| `SchedulerSteps.DispatchKeeps` | Kernel/proc/scheduler.c:155-173 | the chosen process leaves its queue and runs |
| `SchedulerRuns.InvKept` | Kernel/proc/scheduler.c:132-388 | every kernel entry of the domain keeps each process in exactly one place, also when the running process is killed |
| `SchedulerRuns.DomainExact` | Kernel/proc/scheduler.c:213-388 | the domain is exact: an entry keeps the invariant if and only if it belongs to it |
| `SchedulerRuns.KillRunning` | Kernel/proc/scheduler.c:302-337 | killing the running process puts it into the finished queue ahead of the switch, and keeps the invariant |
| `SchedulerRuns.DoomedReached` | Kernel/proc/scheduler.c:333-334 | such a state is reached, and one more block of that process breaks it |
| `SchedulerRuns.Membership` | Kernel/proc/scheduler.c:34-39 | in every reachable state each process but the running and the idle one is in exactly one queue, once, that of its state and priority; idle is in none, and the running one in none unless it was killed, then in the finished queue |
| `SchedulerRuns.OutsideMet` | Kernel/proc/scheduler.c:229-243 | inputs for the other entries outside of the domain |
| `SchedulerRuns.WakeAllExactly` | Kernel/proc/scheduler.c:101-108 | the wake-up loop keeps everybody in one place if and only if all its processes were ready already |
| `SchedulerRuns.WakeWaiterBreaks` | Kernel/proc/scheduler.c:323-330 | so waking a list of parked waiters keeps the invariant if and only if the list is empty, while the unblock operation keeps it for each of them |
| `SchedulerRuns.KillWakingExactly` | Kernel/proc/scheduler.c:302-337 | a kill, with its loop, keeps the invariant if and only if nobody waits for the victim |
| `SchedulerRuns.SaveWakingExactly` | Kernel/proc/scheduler.c:95-110 | the same for a process that ends by itself |
| `SchedulerRuns.ParkedReached` | Kernel/proc/scheduler.c:213-219 | states with a parked process are reached |
| `SchedulerEffects.TickExact` | Kernel/proc/scheduler.c:132-184 | a tick, whole: the running process keeps the CPU, and nothing but aging happens, exactly when it is Running, no switch was asked for, fewer than 8 ticks have passed and no ready process is of higher priority after aging; otherwise the outcome of the switch is given for every queue and process |
| `SchedulerEffects.SwitchExact` | Kernel/proc/scheduler.c:155-183 | the head of the highest non-empty line runs, where the process that leaves stands at the end of its own; it starts a new wait and falls back to its base priority; the first four finished processes are destroyed; nobody else changes |
| `SchedulerEffects.YieldExact` | Kernel/proc/scheduler.c:221-227 | a process other than idle that yields always causes that switch |
| `SchedulerEffects.NeverAboveBase` | Kernel/proc/scheduler.c:170-172 | in every reachable state the running process is not above its base priority |
| `SchedulerEffects.ReniceExact` | Kernel/proc/scheduler.c:339-366 | the priority becomes the smaller of the one asked for and 2; if it changed, so did the base priority, the wait starts anew, and a ready process is last in its new queue; everybody else is unchanged |
| `SchedulerEffects.UnblockExact` | Kernel/proc/scheduler.c:229-243 | the process is ready and last in the queue of its priority; a switch is asked for if it is above the running one; everybody else is unchanged |
| `SchedulerEffects.KillExact` | Kernel/proc/scheduler.c:302-337 | the process is finished and last in the finished queue; everybody else is unchanged |
| `SchedulerEffects.BlockPidExact` | Kernel/proc/scheduler.c:368-388 | a ready process is blocked and last in the blocked queue, the running one is marked, any other target is left alone |
| `SchedulerEffects.StopExact` | Kernel/proc/scheduler.c:213-253 | blocking or finishing changes the state of the running process, asks for a switch, and nothing else; the idle process is left alone |
| `SchedulerEffects.SpawnExact` | Kernel/proc/scheduler.c:198-211 | a process with an unused pid, ready, with the smaller of the priority given and 2 as priority and base, is last in its queue; nothing else changes |
| `SchedulerEffects.ListingPrefix` | Kernel/proc/scheduler.c:411-450 | a smaller buffer receives the beginning of the whole listing |
| `SchedulerRuns.ListingComplete` | Kernel/proc/scheduler.c:411-450 | with room for everybody the listing names each process but idle exactly once |
| `SchedulerFairness.StepAdvances` | Kernel/proc/scheduler.c:132-184 | each call of schedule brings an undisturbed ready process strictly closer to running, and no event sets it back |
| `SchedulerFairness.TopWaitBounded` | Kernel/proc/scheduler.c:132-184 | from position k of the top queue a process runs within 8 * (k + 1) calls of schedule, whatever others do |
| `SchedulerFairness.AgingBounded` | Kernel/proc/scheduler.c:57-75 | within 400 calls it runs or reaches the top priority |
| `SchedulerFairness.ClimbBounded` | Kernel/proc/scheduler.c:57-75 | from below the top, within its distance from the top by aging plus 8 * n calls |
| `SchedulerFairness.NoStarvation` | Kernel/proc/scheduler.c:57-75 | it runs within 400 + 8 * n calls, where n is the largest number of processes meanwhile |
| `Scheduler.Kernel.constructor` | Kernel/proc/scheduler.c:116-130 | the initial state: idle alone and running |
| `Scheduler.Kernel.ReadyQueuePush` | Kernel/proc/scheduler.c:34-39 | clamps the priority and appends |
| `Scheduler.Kernel.ApplyAging` | Kernel/proc/scheduler.c:57-75 | the loops, which restart at the head after each promotion, terminate and compute the specified aging |
| `Scheduler.Kernel.Save` | Kernel/proc/scheduler.c:77-114 | the process that leaves goes where its state says, without parked waiters |
| `Scheduler.Kernel.PopHighest` | Kernel/proc/scheduler.c:41-48 | pops the head of the highest non-empty ready queue |
| `Scheduler.Kernel.CollectFinished` | Kernel/proc/scheduler.c:177-182 | destroys finished processes in order, up to the limit |
| `Scheduler.Kernel.Schedule` | Kernel/proc/scheduler.c:132-184 | the whole of schedule equals its specification and keeps the invariant |
| `Scheduler.Kernel.TimerTick` | Kernel/asm/interrupts.asm:118-125 | one tick, then schedule |
| `Scheduler.Kernel.YieldCurrent` | Kernel/proc/scheduler.c:221-227 | a yield by a process other than idle always switches |
| `Scheduler.Kernel.Spawn` | Kernel/proc/scheduler.c:190-211 | a new process with a fresh pid enters the ready queue of its clamped priority |
| `Scheduler.Kernel.BlockCurrent` | Kernel/proc/scheduler.c:213-219 | marks the running process and asks for a switch, unless it is idle; the invariant is kept if and only if it was not killed meanwhile |
| `Scheduler.Kernel.FinishCurrent` | Kernel/proc/scheduler.c:245-253 | the same for a finished process |
| `Scheduler.Kernel.FindByPid` | Kernel/proc/scheduler.c:269-291 | finds exactly the existing processes, except idle when it does not run |
| `Scheduler.Kernel.UnblockProcess` | Kernel/proc/scheduler.c:229-243 | the process goes to the tail of its ready queue; the invariant is kept if and only if it does not run |
| `Scheduler.Kernel.KillByPid` | Kernel/proc/scheduler.c:302-337 | the target, which may be the running process, leaves its queue for the finished one; the invariant is kept if and only if it is not the idle process |
| `Scheduler.Kernel.SetPriority` | Kernel/proc/scheduler.c:339-366 | changes base and current priority and moves a ready process to its new queue |
| `Scheduler.Kernel.BlockByPid` | Kernel/proc/scheduler.c:368-388 | takes a ready process to the blocked queue, marks the running one; the invariant is kept under the same condition |
| `Scheduler.Kernel.ListAll` | Kernel/proc/scheduler.c:411-450 | fills the buffer with the listing, each entry describing its process |
| `Semaphore.RunLawful` | Kernel/ipc/semaphore.c:84-168 | in every run the value is never negative and is 0 while somebody sleeps, permits are neither lost nor invented, and requests are granted in the order in which they were made |
| `Semaphore.ValueFormula` | Kernel/ipc/semaphore.c:106-146 | between sets, value = initial + signals - grants |
| `Semaphore.MutualExclusion` | Kernel/ipc/semaphore.c:106-146 | a semaphore created at 1 and signalled only by holders has at most one holder |
| `Semaphore.LawFromCreation` | Kernel/ipc/semaphore.c:41-55 | the law in every run of a semaphore from its creation on |
| `Semaphore.MutexFromCreation` | Kernel/ipc/semaphore.c:41-55 | mutual exclusion from the creation at 1 on |
| `SemaphoreTable.Table.Alloc` | Kernel/ipc/semaphore.c:41-55 | takes the first unused slot and an id never used before; fails exactly when the table is full |
| `SemaphoreTable.Table.Find` | Kernel/ipc/semaphore.c:27-39 | finds the slot of an id exactly when there is one |
| `SemaphoreTable.Table.WaitById` | Kernel/ipc/semaphore.c:106-128 | takes a permit or puts the caller to sleep at the tail; other slots unchanged |
| `SemaphoreTable.Table.SignalById` | Kernel/ipc/semaphore.c:130-146 | wakes the oldest sleeper or adds a permit |
| `SemaphoreTable.Table.SetById` | Kernel/ipc/semaphore.c:148-168 | wakes up to the new value, oldest first, and keeps the rest; refuses negative values |
| `SemaphoreTable.Table.CloseById` | Kernel/ipc/semaphore.c:67-82 | the last reference frees the slot |
| `WaitQueue.Waiters.Enqueue` | Kernel/ipc/semaphore.c:84-93 | the link writes append the process to its queue and leave all other queues as they were |
| `WaitQueue.Waiters.Dequeue` | Kernel/ipc/semaphore.c:95-104 | returns and unlinks the oldest sleeper, or nothing exactly when nobody sleeps |
| `WaitQueue.Waiters.Forget` | Kernel/ipc/semaphore.c:75-80 | closing forgets the sleepers of that semaphore only |
| `PipeSpec.ReadCorrect` | Kernel/ipc/pipe.c:181-222 | a read delivers the oldest bytes in order, as many as it can; it sleeps only on an empty pipe with writers, having spent all hints and otherwise none, and returns 0 bytes only when the pipe is empty and has no writer; it ends although the hints drift |
| `PipeSpec.WriteCorrect` | Kernel/ipc/pipe.c:224-260 | a write appends the next bytes in order; it sleeps only on a full pipe, and stops short only without a reader |
| `PipeSpec.SignalManyWakes` | Kernel/ipc/pipe.c:163-170 | n signals wake the n oldest sleepers and bank the rest |
| `PipeSpec.CloseCorrect` | Kernel/ipc/pipe.c:122-179 | closing keeps the bytes; the last writer signals once per read end, at most 100 times, and so wakes every sleeping reader if and only if they number at most 100 and at most the read ends |
| `PipeRing.RingTail` | Kernel/ipc/pipe.c:201-204 | advancing the read position drops the first byte of the ring contents |
| `PipeRing.RingAppend` | Kernel/ipc/pipe.c:242-245 | writing at the write position appends to them |
| `PipeRing.Ring.constructor` | Kernel/ipc/pipe.c:66-103 | an empty pipe |
| `PipeRing.Ring.ReadStretch` | Kernel/ipc/pipe.c:181-222 | the loop on the ring buffer refines the specified read, keeps the positions consistent, leaves the mutex free and terminates |
| `PipeRing.Ring.WriteStretch` | Kernel/ipc/pipe.c:224-260 | the same for write |
| `PipeRing.Ring.OpenEnd` | Kernel/ipc/pipe.c:105-120 | one more end |
| `PipeRing.Ring.CloseEnd` | Kernel/ipc/pipe.c:122-179 | one end less; tells exactly when the pipe dies, and then resets it, and otherwise refines the specified close |
| `IpcSystem.AddEndKeeps` | Kernel/ipc/pipe.c:105-120 | opening an end for a descriptor keeps counters, tables and sleepers in agreement |
| `IpcSystem.DropFdKeeps` | Kernel/ipc/pipe.c:122-179 | closing the end a descriptor names does too; a pipe dies only when no descriptor and no sleeper is left on it |
| `IpcSteps.CloseAllKeeps` | Kernel/proc/process.c:186-203 | closing all descriptors leaves them all closed and other tables alone, in agreement |
| `IpcSteps.CloseAllExact` | Kernel/proc/process.c:186-203 | ... if and only if the process is not inside a read or a write |
| `IpcSteps.DestroyKeeps` | Kernel/proc/process.c:151-184 | destroying a process keeps the agreement |
| `IpcSteps.DupKeeps` | Kernel/syscalls/syscalls_kernel.c:361-409 | so does a dup, even one that destroys the pipe it is about to open |
| `IpcSteps.SpawnKeeps` | Kernel/proc/process.c:75-134 | so does process creation with standard pipes and inheritance |
| `IpcSteps.ReadStepKeeps` | Kernel/ipc/pipe.c:181-222 | a stretch of a read keeps the wake-up invariant |
| `IpcSteps.WriteStepKeeps` | Kernel/ipc/pipe.c:224-260 | a stretch of a write does too |
| `IpcRuns.InvKept` | Kernel/syscalls/syscalls_kernel.c:19-102 | every step of the system keeps the whole invariant |
| `IpcRuns.CountsAgree` | Kernel/proc/process.c:75-134 | in every reachable state the reader and writer counts of each pipe are the numbers of read and write descriptors naming it over all processes, and no descriptor names an unused slot |
| `IpcRuns.FifoAlways` | Kernel/ipc/pipe.c:181-260 | over any interleaving, bytes delivered followed by the contents equal bytes accepted, at most 4096 held |
| `IpcRuns.NoLostWakeup` | Kernel/ipc/pipe.c:188-219 | in every reachable state, while a reader sleeps, the bytes in the pipe number at most the readers woken and not yet resumed |
| `IpcCalls.WriteCall` | Kernel/ipc/pipe.c:224-260 | in every run, the bytes that a write has had accepted so far, over all its stretches and whatever others do, are the first of those it was given, each once and in order; it returns once they are all accepted, or for want of a reader |
| `IpcCalls.ReadCall` | Kernel/ipc/pipe.c:181-222 | in every run, a read gets nothing while it sleeps, and returns with the oldest bytes, as many as there are up to the number asked for; with none only at end of file |
| `IpcCalls.HistoryGrows` | Kernel/ipc/pipe.c:181-260 | no event rewrites what was accepted or delivered, and only reads and writes add to it |
| `IpcCalls.CallRefused` | Kernel/syscalls/syscalls_kernel.c:19-102 | a call through a descriptor that does not name the right end of a pipe, or of no bytes, does nothing |
| `IpcTables.StartTables` | Kernel/proc/process.c:75-134 | a new process: a pipe given for a standard descriptor is opened there if it exists; every other entry is that of the parent if it names a pipe, a terminal otherwise; nobody else changes |
| `IpcTables.DupTable` | Kernel/syscalls/syscalls_kernel.c:361-409 | the entry names the pipe of the id, with the kind of the mode, unless closing what it named has ended that pipe; no other entry changes |
| `IpcTables.CloseTables` | Kernel/proc/process.c:151-203 | exactly the entries closed become terminals; a destroyed process has no table; nobody else changes |
| `IpcTables.CallTables` | Kernel/syscalls/syscalls_kernel.c:19-102 | reads and writes change no table and no other process |
| `IpcTables.CreateExact` | Kernel/ipc/pipe.c:66-103 | a new pipe is empty, in the first unused of 64 slots, with a new id and hints of 0 bytes and 4096 places; without a slot or three semaphores nothing changes |
| `IpcTables.LifeExact` | Kernel/ipc/pipe.c:145-161 | a pipe ends with the last descriptor that names it, at the moment that one is closed, and never otherwise |
| `IpcClosing.SleepersHold` | Kernel/ipc/pipe.c:129-176 | sleeping readers number at most the read ends |
| `IpcClosing.EndsAfter` | Kernel/proc/process.c:186-203 | after an event that closes descriptors, an end of a surviving pipe has none left exactly when the event drops them all |
| `IpcClosing.SleptOnSurvives` | Kernel/ipc/pipe.c:145-161 | a pipe on which somebody sleeps outlives every such event |
| `IpcWakeups.EofExact` | Kernel/ipc/pipe.c:129-176 | a step leaves a reader asleep at end of file if and only if it drops the last write end of a pipe with more than 100 sleeping readers |
| `IpcWakeups.EndOfFile` | Kernel/ipc/pipe.c:129-176 | in every run with at most 100 read ends per pipe, nobody sleeps for bytes on a pipe without writers |
| `IpcWakeups.StrandExact` | Kernel/ipc/pipe.c:137-141 | closing the last reader wakes no writer: a step leaves a writer asleep on a pipe without readers if and only if it drops the last read end of a pipe with a sleeping writer |
| `IpcWakeups.NeverStranded` | Kernel/ipc/pipe.c:137-141 | in every run without such a step, nobody sleeps for space on a pipe without readers |
| `IpcWriters.WriterGivesUp` | Kernel/ipc/pipe.c:231-240 | a woken writer that finds no reader returns and wakes nobody in its place |
| `IpcWriters.ResumeExact` | Kernel/ipc/pipe.c:231-257 | its return leaves every free place with a due writer if and only if there was a reader, or nobody else sleeps, or a writer to spare |
| `IpcWriters.ServedExact` | Kernel/ipc/pipe.c:231-257 | the same condition over all events |
| `IpcWriters.WritersAlwaysServed` | Kernel/ipc/pipe.c:231-257 | in every run without such a return, free places number at most the writers woken and not yet resumed while a writer sleeps |
| `IpcWitness.CrowdReached` | Kernel/ipc/pipe.c:188-219 | any number of sleeping readers on one pipe is reached |
| `IpcWitness.KilledInside` | Kernel/proc/process.c:186-203 | a run that reaches a sleeping reader whose descriptors cannot be closed without breaking the invariant |
| `IpcWitness.EofFallsShort` | Kernel/ipc/pipe.c:163-170 | a run that leaves the 101st reader asleep at end of file |
| `IpcWitness.StrandedReached` | Kernel/ipc/pipe.c:231-257 | a run that leaves a writer of 4097 bytes asleep on a pipe whose reader has gone |
| `IpcWitness.PlaceLost` | Kernel/ipc/pipe.c:231-240 | a run that leaves a writer asleep beside a free place that nobody is due to fill |
| `Descriptors.System.GetById` | Kernel/ipc/pipe.c:45-58 | finds the slot of an id |
| `Descriptors.System.CreateNewPipe` | Kernel/ipc/pipe.c:66-103 | takes the first unused slot and a fresh id, or changes nothing |
| `Descriptors.System.OpenById` | Kernel/ipc/pipe.c:105-120 | adds an end exactly when the id is known |
| `Descriptors.System.CloseById` | Kernel/ipc/pipe.c:122-179 | closes an end, releasing the slot with the last one |
| `Descriptors.System.ReleaseFd` | Kernel/syscalls/syscalls_kernel.c:411-434 | through the id of the pipe, refines the release step and keeps the invariant |
| `Descriptors.System.CloseFds` | Kernel/proc/process.c:186-203 | the loop refines the close step and leaves all sixteen entries closed |
| `Descriptors.System.Destroy` | Kernel/proc/process.c:151-168 | refines the destroy step |
| `Descriptors.System.PipeDup` | Kernel/syscalls/syscalls_kernel.c:361-409 | refines the dup step; succeeds exactly when the pipe outlives the closing of the old end, and then the entry names it |
| `Descriptors.System.InheritEntry` | Kernel/proc/process.c:97-131 | one round of inheritance refines its step: the child shares the end, or gets a terminal |
| `Descriptors.System.CreateProcess` | Kernel/proc/process.c:75-134 | standard pipes, then inheritance, refine the creation step |
| `IpcSteps.IdLeadsBack` | Kernel/ipc/pipe.c:45-64 | looking up the id of a used pipe gives that pipe |

## Left out

The domain of the claims:

- SchedulerRuns.InvKept: needs an entry of the domain, which `DomainExact` shows to be exact, and no waiter parked by `syscall_wait`, which `WakeWaiterBreaks` shows to be exact.
- Scheduler.Kernel.UnblockProcess: the process is not in the finished queue, since the source then writes links that no longer spell two queues.
- ProcessQueue.Pool.Push: the process is in no other queue; otherwise the source leaves that queue spelling no sequence, as `PushElsewhereBreaks` shows.
- Scheduler.Kernel.Save: without parked waiters, for which `SaveWakingExactly` shows that the queues break, and without the foreground flag.
- Scheduler.Kernel.FinishCurrent: without closing the descriptors, which is `Descriptors.System.CloseFds`.
- Scheduler.Kernel.ListAll: entries hold pid, state and priority, not names, registers and the foreground flag.
- IpcRuns.InvKept: no process is killed, destroyed or force-unblocked in the middle of a read or a write, since neither path takes it out of the semaphore's queue.
- IpcSteps.CloseAllKeeps: the process is not inside a read or a write, a condition that `CloseAllExact` shows to be exact.
- IpcSteps.DestroyKeeps: the process is not inside a read or a write.
- Descriptors.System.CloseFds: the process is not inside a read or a write, a condition that `CloseAllExact` shows to be exact.
- Descriptors.System.Destroy: the process is not inside a read or a write.
- BuddyAllocator.StatsPredict: requests that neither wrap nor pass the level cap; `BuddyAllocator.StatsExact` covers the others.
- FirstFitAllocator.StatsPredict: requests up to 2^64 - 48 bytes; `FirstFitAllocator.StatsExact` covers the others.
- BuddyAllocator.Manager.Init: the region ends within the address space.
- FirstFitAllocator.Manager.Init: the region ends within the address space.
- BuddyAllocator.Manager.Free: the pointer is NULL or the address of a current block, as the C code demands.
- FirstFitAllocator.Manager.Free: the pointer is NULL or the address of a current block, as the C code demands.
- BuddyAllocator.Manager.LargestFreeBlock: the largest free block only; the other fields are in `GetStats`.
- FirstFitAllocator.Manager.LargestFreeBlock: the largest free block only; the other fields are in `GetStats`, on an initialized heap, since the source otherwise walks a list that does not exist.

What the model does not capture:

- The count of allocations in `mm_buddy.c`, which the code never increases.
- Block headers are maps from address to field value; the overlap of a header with bytes that a caller writes inside its own block is modelled only for stale headers (`BuddyAllocator.Manager.Scribble`).
- `SemaphoreTable.Table` holds each wait queue as the sequence that `WaitQueue` proves the links spell; a process sleeps on one semaphore at a time.
- SemaphoreTable.Table.Alloc: the initial value is not negative, as at every call; the system call refuses negative ones.
- `sem_open_by_id` and reading a semaphore's value, which are easy.
- The three semaphores of a pipe belong to the pipe; their ids in the semaphore table, and running out of them other than at creation, are not modelled.
- In `Descriptors.System` a pipe is a value; updating a pipe in place is in `PipeRing.Ring`.
- Payload alignment: 16 bytes in `mm_buddy.c`, but only 8 in `mm_simple.c`, whose header has 40 bytes.
- Tick counters, ids and semaphore values do not wrap.
- Running out of memory in `process_create`, process names, stacks and saved registers.
- `syscall_wait`, waiter lists, the tree of parents and children, and the foreground flag.
- Raw `syscall_pipe_open` and `syscall_pipe_close`, which change counts without a descriptor.
- Spinlocks: with one CPU and interrupts off they never spin.
- Reads and writes on the terminal, the keyboard, video, fonts, the shell, the C library and the user programs.
- Assembly, interrupt tables, the bootloader and its BMFS tool.
