# Verified models of the Pintos kernel core

A Dafny project that models the core of a Pintos kernel (priority scheduling with nested lock
donation, the alarm clock, the MLFQS arithmetic, and the libraries and file system layer below
them) and proves what every run of it keeps. `dafny verify dfyconfig.toml` checks everything.

## What is here

| file | models |
|---|---|
| `Common.dfy` | machine words, constants and list notions the models share |
| `Heap.dfy` | the binary heap of `lib/kernel/heap.c`, on its fixed buffer |
| `KernelModel.dfy` | threads, locks, semaphores, both heaps and the clock as one transition system (priority mode) |
| `KernelInvariant.dfy`, `KernelSteps.dfy`, `KernelOperations.dfy` | the invariant of that system, and that each operation keeps it |
| `KernelTheorems.dfy`, `KernelBacking.dfy` | the main results over all runs: scheduling, locks, permits; a donation is always backed by a waiting thread |
| `KernelDonation.dfy` | what `donate_priority` achieves, and when its assertion fails |
| `KernelWitness.dfy`, `KernelTower.dfy` | runs from boot that end in a panic, in a stale priority, and in donations that stop short |
| `KernelAsserts.dfy` | room in the fixed buffers of the heaps, and the assertion of `thread_unblock`, over all runs |
| `KernelRuns.dfy`, `KernelTurns.dfy` | queue stamps, and taking turns among equals |
| `KernelCpu.dfy` | exactly when each operation takes the CPU from the running thread, and whole time slices over runs |
| `KernelOwners.dfy` | exactly what each operation does to priorities, lock holders and wait lists; mutual exclusion over runs |
| `KernelClock.dfy`, `KernelPermits.dfy` | the alarm clock, conservation of permits |
| `Kernel.dfy` | the same operations as methods that update tables and heaps in place, proved equal to the transition system |
| `Mlfqs.dfy` | the fixed-point arithmetic and the tick-driven MLFQS machine, in 32 bits |
| `Arithmetic.dfy` | 64-bit division built from a 64-by-32-bit divide |
| `LinkedList.dfy` | the natural merge sort of `lib/kernel/list.c`, on prev/next pointers |
| `HashTable.dfy` | the rehashing hash table and its iterator |
| `Bitmap.dfy` | the packed bitmap and its first-fit search |
| `Malloc.dfy` | descriptors, arenas and big blocks of `malloc`/`free` |
| `InodeIo.dfy` | byte reads and writes over whole-sector transfers |
| `Inodes.dfy` | the life of inodes: free map, open list, open and denial counts, deferred deletion |
| `FileData.dfy` | the bytes of all files on one device, over runs that create, write, remove and close |
| `Ustar.dfy` | the ustar header writer and parser, in the "ustar Interchange Format" of the `pax` utility in SUSv3 |

Reading guide: a C function that only computes is a Dafny function, one that works in place is a
method on a class or array whose postcondition equates the new state with a function of the old
one; lemmas then say what that function means. An assertion of the C code that speaks of its
caller is part of when an event is enabled. Of the others, one that can fail makes the function
return `None` (or `Panic`, or an outcome), and lemmas say when; that `thread_unblock` never fails
its own is a theorem over all runs (`EveryUnblockIsOfBlocked`).
Memory, page and disk-write failures are parameters.

## Where the code does not do what it is for

These are kept as the code has them, and lemmas say exactly when the promise holds.

- `donate_priority` can fail its assertion that an awaited lock is held: a woken waiter still has
  `lock_waiting` set although the lock is free (`KernelCanPanic`, `DonatePanicsIff`, `AcquirePanicsIff`).
- Donation stops at a lock that already carries as much, even if the priority was not passed on
  from there, and after nine locks (`DonationReachesAllIff`; runs from boot to either:
  `DonationCanStopShort`, `TenthLockUnreached`).
- `thread_set_priority` leaves a lock holder that lowers itself at its old priority
  (`SetPriorityEffectiveIff`, `SetPriorityCanLeaveStale`).
- A yielding thread gives way to an equal exactly when that one's stamp, the push counter cut to an
  `int`, is not above its own (`YieldGivesWayIff`, `StampOrderIff`); a run from boot in which it runs
  on: `YieldCanRunOn`.
- The assertion of `heap_push` admits one element more than the buffer holds (`PushesStoredIff`). With
  fewer than 2048 threads every push is stored (`EveryEventHasRoom`); with 2048 one can go past the
  end (`ReadyHeapCanOverrun`).
- `thread_exit` releases no lock, and `thread_set_priority` does not check its argument
  (`ExitKeepsIff`, `SetPriorityKeepsIff`).
- `umod64` and `smod64` return 32 bits (`Umod64ExactIff`, `Smod64ExactIff`), and `sdiv64` overflows
  for the least number divided by -1 (`Sdiv64CorrectIff`).
- `thread_get_recent_cpu` and `thread_get_load_avg` overflow for large values (`HundredfoldExactIff`).
- `malloc` of one of the eleven largest sizes returns a block that is too small (`TooSmallIff`,
  `MallocCanGiveTooLittle`).
- The comment on `bitmap_scan_and_flip` promises 0 for an empty group; the code returns START
  (`EmptyGroup`). The branch of `inode_write_at` that starts from a zeroed sector is never taken.
- `ustar_make_header` accepts a negative size, which the parser then refuses (`RoundTrip`).

## Model

| member | source | states |
|---|---|---|
| `HeapModel.PushKeeps` | pintos/src/lib/kernel/heap.c:40-45 | a push adds exactly the pushed element to the contents |
| `HeapModel.PopKeeps` | pintos/src/lib/kernel/heap.c:48-58 | a pop takes out exactly the root, and one element |
| `HeapModel.PushOrders` | pintos/src/lib/kernel/heap.c:81-91 | a push onto an ordered heap leaves an ordered heap, for every strict weak order |
| `HeapModel.PopOrders` | pintos/src/lib/kernel/heap.c:93-106 | a pop from an ordered heap leaves an ordered heap |
| `HeapModel.RebuildRestores` | pintos/src/lib/kernel/heap.c:23-30 | rebuilding orders the heap whatever its contents, and keeps the contents |
| `HeapModel.RootIsMaximum` | pintos/src/lib/kernel/heap.c:32-37 | no element of an ordered heap is above the root |
| `HeapModel.Heap.constructor` | pintos/src/lib/kernel/heap.c:13-21 | a new heap is empty and has counted no pushes |
| `HeapModel.Heap.SiftUp` | pintos/src/lib/kernel/heap.c:81-91 | the loop computes UpHeap, on the array in place |
| `HeapModel.Heap.SiftDown` | pintos/src/lib/kernel/heap.c:93-106 | the loop computes DownHeap, on the array in place |
| `HeapModel.PushRoot` | pintos/src/lib/kernel/heap.c:39-45 | a pushed element becomes the root if and only if it is above the old root |
| `HeapModel.PushesStoredIff` | pintos/src/lib/kernel/heap.c:42-43 | n pushes on an empty heap are all stored if and only if n < 2048; push number 2048 passes the assertion and goes past the buffer |
| `HeapModel.Heap.Insert` | pintos/src/lib/kernel/heap.c:39-45 | stores if and only if the index is inside the buffer, then contents are those of Push; goes past the buffer exactly at size 2047, which the assertion admits |
| `HeapModel.Heap.Remove` | pintos/src/lib/kernel/heap.c:47-58 | returns the root and leaves the popped heap |
| `HeapModel.Heap.RebuildAll` | pintos/src/lib/kernel/heap.c:23-30 | sifts down from the last node to the first: Rebuild |
| `KernelInvariant.LessFunctionsAreOrders` | pintos/src/threads/thread.c:30-39 | the ready and the sleep comparison are strict weak orders, whatever the threads are |
| `KernelInvariant.ScheduleKeeps` | pintos/src/threads/thread.c:623-630 | from a settled state with nobody running, the thread picked outranks every ready one, and nothing but the queue changes |
| `KernelInvariant.YieldKeeps` | pintos/src/threads/thread.c:364-381 | thread_yield restores the scheduling invariant whatever priorities changed before |
| `KernelSteps.MaxIndexIsFirstMaximum` | pintos/src/lib/kernel/list.c:492-505 | list_max finds the first of the largest elements |
| `KernelSteps.SignalKeeps` | pintos/src/threads/synch.c:115-125 | waking the highest waiter and counting up keeps all lists, priorities and permits in order |
| `KernelSteps.TakeKeeps` | pintos/src/threads/synch.c:248-254 | taking a unit, and becoming holder when it is a lock's, keeps the invariant |
| `KernelSteps.ParkKeeps` | pintos/src/threads/synch.c:71-72 | joining a wait list and blocking leaves everything but the choice of the next thread in order |
| `KernelSteps.TestOrParkKeeps` | pintos/src/threads/synch.c:60-76 | one round of the sema_down loop keeps the invariant |
| `KernelOperations.CreateKeeps` | pintos/src/threads/thread.c:211-267 | thread_create keeps the invariant |
| `KernelOperations.ExitKeepsIff` | pintos/src/threads/thread.c:343-360 | thread_exit keeps the invariant if and only if the thread holds no lock |
| `KernelOperations.SetPriorityKeepsIff` | pintos/src/threads/thread.c:401-413 | thread_set_priority keeps the invariant if and only if the priority is not below PRI_MIN |
| `KernelOperations.RecomputedIsEffective` | pintos/src/threads/thread.c:431-440 | thread_update_priority computes the larger of the base priority and the donations held |
| `KernelOperations.LockReleaseKeeps` | pintos/src/threads/synch.c:263-278 | lock_release keeps the invariant |
| `KernelOperations.SemaUpKeeps` | pintos/src/threads/synch.c:108-131 | sema_up keeps the invariant |
| `KernelOperations.DonateKeeps` | pintos/src/threads/synch.c:282-299 | donation only raises, leaves lock and list structure alone and keeps each holder at or above what its locks carry |
| `KernelOperations.LockAcquireKeeps` | pintos/src/threads/synch.c:203-232 | lock_acquire, on its fast and its blocking path, keeps the invariant |
| `KernelOperations.SleepKeeps` | pintos/src/devices/timer.c:105-117 | timer_sleep keeps the invariant |
| `KernelOperations.WakeAllKeeps` | pintos/src/devices/timer.c:121-135 | the loop of timer_wake keeps everything but the rank of the running thread, for which it asks for a yield |
| `KernelOperations.TickKeeps` | pintos/src/devices/timer.c:208-214 | timer_interrupt keeps the invariant |
| `KernelTheorems.BootInv` | pintos/src/threads/thread.c:118-151 | the state after thread_start satisfies the invariant |
| `KernelTheorems.StepKeepsInv` | pintos/src/threads/synch.c:60-278 | every step of the kernel that does not panic keeps the invariant |
| `KernelTheorems.EveryRunKeepsInv` | pintos/src/threads/thread.c:138-151 | every state of every run satisfies the invariant |
| `KernelTheorems.SchedulingSafety` | pintos/src/threads/thread.c:623-630 | in every state of every run from boot one thread runs, no ready thread has a higher effective priority, the ready heap is ordered and holds every ready thread, and the idle thread runs only ahead of threads at the bottom |
| `KernelTheorems.LockSafety` | pintos/src/threads/synch.c:203-299 | in every run: held lists are exactly the locks held; a free lock carries no donation and its semaphore is 1, a held one's 0; priority is at least base and every donation, and exactly base without locks; a lock that carries a donation is awaited by a thread of at least that priority |
| `KernelBacking.StepKeepsBacked` | pintos/src/threads/synch.c:214-299 | every step keeps that a lock that carries a donation is awaited by a thread of at least that priority |
| `KernelTheorems.EveryRunBacked` | pintos/src/threads/synch.c:214-299 | so does every run |
| `KernelTheorems.ReachableStep` | pintos/src/threads/thread.c:138-151 | the states reachable from boot are closed under steps |
| `KernelTheorems.NoStrandedPermit` | pintos/src/threads/synch.c:60-131 | in every run, while a thread waits on a semaphore its value is at most the number of woken threads that have yet to test it, and those are ready or running |
| `KernelTheorems.SignalWakesHighest` | pintos/src/threads/synch.c:116-124 | sema_up makes ready the first waiter of highest priority and leaves the others in order |
| `KernelTheorems.SetPriorityEffectiveIff` | pintos/src/threads/thread.c:401-413 | the thread ends at the larger of its new priority and its donations if and only if it holds no lock or is not above that already |
| `KernelWitness.SetPriorityCanLeaveStale` | pintos/src/threads/thread.c:409-410 | a run from boot after which it does not |
| `KernelDonation.ChainUnique` | pintos/src/threads/synch.c:282-299 | a thread has at most one wait chain that ends in a thread that waits for nothing |
| `KernelDonation.DonateRaisesChain` | pintos/src/threads/synch.c:282-299 | on a propagated chain of at most nine held locks, exactly the locks and holders on the chain rise to the donor's priority where they were below it, and nothing else changes; the chain is propagated again, its first lock carrying at least the donor's priority |
| `KernelDonation.DonateMonotone` | pintos/src/threads/synch.c:294-296 | donation lowers no priority |
| `KernelDonation.DonateReaches` | pintos/src/threads/synch.c:282-299 | on any chain of held locks, the holders within reach end at or above the donor and those beyond do not move |
| `KernelDonation.DonationReachesAllIff` | pintos/src/threads/synch.c:289-297 | all holders on a chain outrank the donor afterwards if and only if those out of reach did before |
| `KernelWitness.DonationCanStopShort` | pintos/src/threads/synch.c:291-291 | a run from boot after which a thread that blocks leaves the end of its chain below its priority |
| `KernelTower.TenthLockUnreached` | pintos/src/threads/synch.c:289-289 | a run from boot to a propagated chain of ten held locks, whose last holder stays below the thread that blocks on the first |
| `KernelDonation.DonatePanicsIff` | pintos/src/threads/synch.c:293-293 | the assertion fails if and only if the wait chain leads, within the depth limit, to a free lock, past locks that all carry less than what reaches them |
| `KernelDonation.AcquirePanicsIff` | pintos/src/threads/synch.c:214-218 | lock_acquire panics if and only if the lock is held and the caller's chain is such a chain |
| `KernelDonation.AcquireLendsPriority` | pintos/src/threads/synch.c:214-224 | blocking on a held lock raises exactly the holders down the chain to the caller's priority |
| `KernelWitness.KernelCanPanic` | pintos/src/threads/synch.c:293-293 | a run from boot after which a permitted lock_acquire fails the assertion |
| `KernelRuns.NextIsOldestOfHighest` | pintos/src/threads/thread.c:30-39 | the thread picked has the highest priority and is the one queued first among equals |
| `KernelRuns.StepKeepsStamped` | pintos/src/threads/thread.c:302-303 | every step keeps the stamps of queued threads distinct and below the counter |
| `KernelRuns.EveryRunStamped` | pintos/src/threads/thread.c:302-303 | so do all runs with fewer than 2^31 pushes |
| `KernelTurns.YieldGivesWayIff` | pintos/src/threads/thread.c:364-381 | for every counter: a yielding thread gives way if and only if a queued thread of its priority carries a stamp not above the one it gets |
| `KernelTurns.StampOrderIff` | pintos/src/threads/thread.c:302-302 | of two pushes less than 2^32 apart the earlier gets the smaller stamp if and only if the counter passes no odd multiple of 2^31 between them |
| `KernelTurns.YieldCanRunOn` | pintos/src/threads/thread.c:373-377 | a run from boot of 2^31 pushes after which a thread yields and runs on although an equal was queued before |
| `KernelTurns.CreateRunsNewcomerIff` | pintos/src/threads/thread.c:261-265 | the newcomer runs at once if and only if it outranks its creator, who runs on otherwise |
| `KernelTurns.StepTurn` | pintos/src/threads/thread.c:364-381 | in every step, queued threads keep their stamps and their place unless they run, and a thread that runs anew is behind no queued one |
| `KernelTurns.YielderWaits` | pintos/src/threads/thread.c:364-381 | over any run, a yielder and an equal with a smaller stamp stay in line, and the yielder does not run, as long as the other has not run and is not outranked |
| `KernelTurns.YielderRunsAfter` | pintos/src/threads/thread.c:364-381 | over any run, between a yield and the next time the yielder runs, every equal queued with a smaller stamp and not outranked since has run |
| `KernelTurns.FirstInFirstOut` | pintos/src/threads/thread.c:364-381 | from boot, below 2^31 pushes, every equal queued at the yield has |
| `KernelClock.OtherStepsUndisturbed` | pintos/src/devices/timer.c:105-135 | no step but a tick moves the clock, ends a sleep or changes when it ends |
| `KernelClock.WakeAllExact` | pintos/src/devices/timer.c:121-135 | timer_wake takes exactly the threads that are due off the sleep heap |
| `KernelClock.TickWakesExactly` | pintos/src/devices/timer.c:208-214 | a tick wakes exactly the threads due by then |
| `KernelClock.SleepStarts` | pintos/src/devices/timer.c:112-115 | timer_sleep puts the thread to sleep until now plus the ticks asked for |
| `KernelClock.AlarmClock` | pintos/src/devices/timer.c:105-135 | over any run, a thread that sleeps x ticks from time s stays asleep before s + max(x, 1) and is unblocked by the tick that reaches it |
| `KernelClock.EveryRunSliced` | pintos/src/threads/thread.c:183-185 | in every run no thread is left running for four ticks without a rescheduling (that it keeps the CPU until then: KernelCpu.RunsItsSlice) |
| `KernelCpu.WakeAllIs` | pintos/src/devices/timer.c:121-135 | timer_wake asks for a yield if and only if a sleeper that is due outranks the running thread, which it leaves alone |
| `KernelCpu.TickCpu` | pintos/src/threads/thread.c:183-185 | a tick takes the CPU from the running thread if and only if it is the fourth of its slice or a due sleeper outranks it; else the same thread runs with its stamp, the slice one longer and only the woken sleepers queued; if so it is queued last and the slice is 0 |
| `KernelCpu.StepCpu` | pintos/src/threads/thread.c:364-381 | for all sixteen events: exactly when the running thread gives way; whether it is then queued last, blocked on which semaphore, asleep or gone; how many threads were queued; and that it otherwise runs on |
| `KernelCpu.HarmlessSteps` | pintos/src/threads/thread.c:401-413 | a thread whose priority thread_set_priority does not lower runs on; timer_sleep of a negative number changes nothing |
| `KernelCpu.RunsItsSlice` | pintos/src/threads/thread.c:183-185 | in every run a thread that nobody outranks and that does not block or yield keeps the CPU and its stamp while fewer than four ticks of its slice have passed, each tick counting once, and the fourth queues it |
| `KernelOwners.StepRanks` | pintos/src/threads/thread.c:401-441 | no step changes a base priority but thread_set_priority the caller's; no step changes a priority but that one, lock_acquire of a held lock, which only raises, and lock_release the caller's, to the larger of its base and the donations left |
| `KernelOwners.StepHolders` | pintos/src/threads/synch.c:203-278 | a free lock goes to the thread that takes it, a held one stays with its holder until it is released; no other step changes a holder |
| `KernelOwners.HeldUntilReleased` | pintos/src/threads/synch.c:203-278 | in every run a lock stays with its holder, and nobody else, until that thread releases it |
| `KernelOwners.StepWaiters` | pintos/src/threads/synch.c:44-131 | a thread that blocks joins the end of the wait list, an up takes off the first waiter of the highest priority, a new semaphore has its initial value and nobody waiting; no other wait list changes |
| `KernelPermits.StepValue` | pintos/src/threads/synch.c:60-131 | each step changes a semaphore by its ups less its completed downs |
| `KernelPermits.PermitsConserved` | pintos/src/threads/synch.c:60-131 | over any stretch of any run the value is the initial value plus ups less completed downs (less the unsigned range at each overflow) |
| `KernelObject.ListMax` | pintos/src/lib/kernel/list.c:492-505 | the loop finds the first largest element |
| `KernelAsserts.InvLeavesRoom` | pintos/src/lib/kernel/heap.h:34 | with fewer than 2048 threads, every event that can come next has the room its method asks for |
| `KernelAsserts.EveryEventHasRoom` | pintos/src/lib/kernel/heap.h:34 | so in every state of every run from boot |
| `KernelAsserts.ReadyHeapCanOverrun` | pintos/src/lib/kernel/heap.c:42-43 | a run from boot to a state with 2048 threads in which a thread_create stores the newcomer and then, by its yield, goes past the buffer |
| `KernelAsserts.InvUnblocksOk` | pintos/src/threads/thread.c:301-301 | every thread that an event hands to thread_unblock is blocked at that time |
| `KernelAsserts.EveryUnblockIsOfBlocked` | pintos/src/threads/thread.c:301-301 | so in every run from boot: the assertion never fails |
| `KernelObject.Kernel.constructor` | pintos/src/threads/thread.c:118-151 | the tables as thread_start leaves them |
| `KernelObject.Kernel.Queue` | pintos/src/threads/thread.c:293-306 | stamps a thread and pushes it on the ready heap |
| `KernelObject.Kernel.Switch` | pintos/src/threads/thread.c:623-630 | pops the next thread, or takes the idle one, and makes it run |
| `KernelObject.Kernel.ThreadYield` | pintos/src/threads/thread.c:364-381 | equals Yield |
| `KernelObject.Kernel.ThreadCreate` | pintos/src/threads/thread.c:211-267 | equals Create |
| `KernelObject.Kernel.ThreadExit` | pintos/src/threads/thread.c:343-360 | equals Exit |
| `KernelObject.Kernel.ThreadSetPriority` | pintos/src/threads/thread.c:401-413 | equals SetPriority |
| `KernelObject.Kernel.SemaTest` | pintos/src/threads/synch.c:68-75 | one test of sema_down: equals TestOrPark |
| `KernelObject.Kernel.TakeUnit` | pintos/src/threads/synch.c:226-230 | equals Take |
| `KernelObject.Kernel.SemaTryDown` | pintos/src/threads/synch.c:83-102 | takes a unit if and only if there is one |
| `KernelObject.Kernel.SemaUp` | pintos/src/threads/synch.c:108-131 | equals SemaUp, the waiter being found by a loop over the list |
| `KernelObject.Kernel.DonatePriority` | pintos/src/threads/synch.c:282-299 | equals Donate; false exactly when the assertion fails |
| `KernelObject.Kernel.LockAcquire` | pintos/src/threads/synch.c:203-232 | equals LockAcquire; false exactly when donation panics |
| `KernelObject.Kernel.LockRelease` | pintos/src/threads/synch.c:263-278 | equals LockRelease |
| `KernelObject.Kernel.TimerSleep` | pintos/src/devices/timer.c:105-117 | equals Sleep |
| `KernelObject.Kernel.TimerWake` | pintos/src/devices/timer.c:121-135 | the loop equals WakeAll |
| `KernelObject.Kernel.ThreadTick` | pintos/src/threads/thread.c:183-185 | equals EndTick, whose yield KernelCpu.TickCpu fixes |
| `KernelObject.Kernel.TimerInterrupt` | pintos/src/devices/timer.c:208-214 | equals Tick, which KernelCpu.TickCpu and KernelClock.TickWakesExactly fix |
| `Mlfqs.NextLoadIs` | pintos/src/threads/thread.c:494-504 | every 32-bit and 64-bit value on the way of one sample fits, and the load average stays between 0 and n |
| `Mlfqs.LoadTracksExact` | pintos/src/threads/thread.c:494-504 | over any number of samples of at most n <= 2048 the load average stays in range, never exceeds the exact recurrence (59x + n)/60 and lags it by at most 60(n + 1) units of 2^-14 |
| `Mlfqs.EveryRunLoad` | pintos/src/threads/thread.c:176-180 | the same of the load average in every state of every run |
| `Mlfqs.RunLoad` | pintos/src/threads/thread.c:176-178 | the load average of a run is the fold of its samples, overflow or not |
| `Mlfqs.CoefficientBelow` | pintos/src/threads/thread.c:487-489 | the decay multiplier stays below 2n/(2n + 1) |
| `Mlfqs.DecayedIs` | pintos/src/threads/thread.c:482-492 | every 32-bit and 64-bit value on the way of thread_update_recent_cpu fits; it is the formula on unbounded integers and brings the value back into its range |
| `Mlfqs.PrioritizedIs` | pintos/src/threads/thread.c:420-430 | the priority is 63 - recent_cpu/4 - 2 nice, the quarter rounded to nearest, cut off at the ends of the scale |
| `Mlfqs.TickOk` | pintos/src/threads/thread.c:155-186 | a tick keeps all ranges, every value on its way fits, and 32 bits lose nothing in it (what it computes: TickIs) |
| `Mlfqs.StepOk` | pintos/src/threads/thread.c:155-186 | so do thread_create, thread_set_nice and thread_exit |
| `Mlfqs.EveryRunInRange` | pintos/src/threads/thread.c:482-492 | in every run with at most n <= 545 threads competing, -16384*20(2n+1) <= recent_cpu <= 16384(240n+120), priorities stay on the scale, every value computed in every step fits, and the run is one of the machine on unbounded integers |
| `Mlfqs.TickIs` | pintos/src/threads/thread.c:155-186 | a tick to time n charges the running non-idle thread 16384 and no other; every priority becomes the documented formula of the charged recent_cpu if n % 4 == 0 and stays otherwise; load and every non-idle recent_cpu are renewed by their formulas if and only if n % 100 == 0 |
| `Mlfqs.OtherStepIs` | pintos/src/threads/thread.c:231-244 | thread_set_nice, thread_create and thread_exit change exactly the records they are for, by the documented priority formula and inheritance |
| `Mlfqs.EveryRunAsDocumented` | pintos/src/threads/thread.c:155-186 | so does every event of every run with at most 545 threads competing |
| `Mlfqs.FourTicks` | pintos/src/threads/thread.c:174-175 | from boot, four ticks of the initial thread alone leave it recent_cpu 65536 and priority 62 |
| `Mlfqs.HundredfoldExactIff` | pintos/src/threads/thread.c:468-479 | the readers return the hundredfold, rounded to nearest, if and only if the value lies within 21474754 of zero |
| `Mlfqs.Scheduler.UpdatePriorities` | pintos/src/threads/thread.c:385-398 | thread_foreach recomputes every priority |
| `Mlfqs.Scheduler.UpdateRecentCpus` | pintos/src/threads/thread.c:385-398 | thread_foreach decays every recent_cpu but the idle thread's |
| `Mlfqs.Scheduler.ThreadTick` | pintos/src/threads/thread.c:155-181 | equals Tick, which TickIs fixes |
| `Mlfqs.Scheduler.ThreadCreate` | pintos/src/threads/thread.c:231-244 | equals Created: the creator's priority is recomputed, not the new thread's |
| `Arithmetic.Nlz` | pintos/src/lib/arithmetic.c:41-73 | the binary search counts the leading zero bits |
| `Arithmetic.LeadingZerosUnique` | pintos/src/lib/arithmetic.c:41-73 | that number is the only shift that normalizes |
| `Arithmetic.DivideDigitsCorrect` | pintos/src/lib/arithmetic.c:106-111 | for a divisor below 2^32 two divl steps give the floor of n/d and neither traps |
| `Arithmetic.EstimateNear` | pintos/src/lib/arithmetic.c:119-123 | the normalized estimate does not trap and is the quotient or one more |
| `Arithmetic.CorrectionRight` | pintos/src/lib/arithmetic.c:124-124 | the correction turns it into the quotient and never underflows |
| `Arithmetic.Udiv64Correct` | pintos/src/lib/arithmetic.c:77-127 | udiv64 is floor(n/d) for all 64-bit n and nonzero d, without a trap |
| `Arithmetic.Sdiv64CorrectIff` | pintos/src/lib/arithmetic.c:137-146 | sdiv64 truncates toward zero if and only if not the least number over -1 |
| `Arithmetic.Umod64Value` | pintos/src/lib/arithmetic.c:129-135 | umod64 is the low 32 bits of n mod d |
| `Arithmetic.Umod64ExactIff` | pintos/src/lib/arithmetic.c:129-135 | it is n mod d for all n if and only if d <= 2^32 |
| `Arithmetic.Smod64Value` | pintos/src/lib/arithmetic.c:148-154 | smod64 is the remainder of the truncating division, converted to 32 bits |
| `Arithmetic.Smod64ExactIff` | pintos/src/lib/arithmetic.c:148-154 | it is that remainder for all n if and only if d is at most 2^31 in absolute value |
| `LinkedList.RunsSplit` | pintos/src/lib/kernel/list.c:357-374 | a maximal run counts once and what follows by itself |
| `LinkedList.MergeStable` | pintos/src/lib/kernel/list.c:392-399 | an element is moved past no equal one |
| `LinkedList.StableSortUnique` | pintos/src/lib/kernel/list.c:402-440 | a sequence has only one stable sort, so the contract of Sort fixes the list |
| `LinkedList.List.constructor` | pintos/src/lib/kernel/list.c:60-68 | an empty list of two linked sentinels |
| `LinkedList.List.Splice` | pintos/src/lib/kernel/list.c:183-204 | moves a stretch, empty or not, to any place of the list outside it by rewiring three seams; the chain stays well formed both ways |
| `LinkedList.List.FindEndOfRun` | pintos/src/lib/kernel/list.c:357-374 | returns the end of the maximal nondecreasing run |
| `LinkedList.List.InplaceMerge` | pintos/src/lib/kernel/list.c:381-400 | merges two adjacent sorted runs into one, stably, leaving the rest of the list as it was |
| `LinkedList.List.Pass` | pintos/src/lib/kernel/list.c:418-436 | a pass outputs half the runs, rounded up, and leaves no more than it counts |
| `LinkedList.List.Sort` | pintos/src/lib/kernel/list.c:405-440 | the list ends sorted, stable, a permutation of the same nodes in a well-formed chain; it terminates because runs halve |
| `HashTable.PowerOf2Iff` | pintos/src/lib/kernel/hash.c:335-340 | is_power_of_2 is true of exactly the powers of two |
| `HashTable.TurnOffBounds` | pintos/src/lib/kernel/hash.c:328-333 | turning off the least bit leaves less than before, and more than half unless nothing |
| `HashTable.MaskIsRemainder` | pintos/src/lib/kernel/hash.c:304-310 | for a power of two, the bucket is the hash value modulo the bucket count |
| `HashTable.BestCount` | pintos/src/lib/kernel/hash.c:364-372 | the loop ends at the largest power of two not above half the elements, at least 4 |
| `HashTable.FoundInBucket` | pintos/src/lib/kernel/hash.c:304-326 | an equal element can only be in the bucket of the element looked for |
| `HashTable.MoveAll` | pintos/src/lib/kernel/hash.c:400-409 | moves every element of an old bucket to its new one |
| `HashTable.Redistribute` | pintos/src/lib/kernel/hash.c:386-410 | the new buckets hold exactly the old elements, each in its bucket |
| `HashTable.NoneLeft` | pintos/src/lib/kernel/hash.c:117-122 | with the equal element taken out, no equal one is left |
| `HashTable.HashInit` | pintos/src/lib/kernel/hash.c:24-42 | an empty table of four buckets if there is memory for them, none otherwise |
| `HashTable.Hash.FindElem` | pintos/src/lib/kernel/hash.c:304-326 | finds the element equal to e if and only if there is one |
| `HashTable.Hash.Rehash` | pintos/src/lib/kernel/hash.c:351-413 | keeps the contents; with memory the bucket count becomes the largest power of two not above half the elements, at least 4, without it nothing changes |
| `HashTable.Hash.Insert` | pintos/src/lib/kernel/hash.c:98-110 | adds the element unless an equal one is there, which is returned |
| `HashTable.Hash.Replace` | pintos/src/lib/kernel/hash.c:114-127 | the element takes the place of its equal, which is returned |
| `HashTable.Hash.Delete` | pintos/src/lib/kernel/hash.c:144-154 | takes out the equal element, if any, and nothing else |
| `HashTable.Hash.InsertElem` | pintos/src/lib/kernel/hash.c:416-421 | one element more, in its bucket, and the count right |
| `HashTable.Hash.RemoveElem` | pintos/src/lib/kernel/hash.c:424-429 | one element less, and the count right |
| `HashTable.FlatIsBag` | pintos/src/lib/kernel/hash.c:199-235 | what an iteration goes through is exactly the contents |
| `HashTable.Iterator.constructor` | pintos/src/lib/kernel/hash.c:199-208 | everything is still to come |
| `HashTable.Iterator.Next` | pintos/src/lib/kernel/hash.c:218-235 | returns what is to come one by one, and a null pointer exactly when nothing is |
| `Bitmaps.MasksApart` | pintos/src/lib/kernel/bitmap.c:43-47 | masks of different bits share no bit |
| `Bitmaps.MarkedWord` | pintos/src/lib/kernel/bitmap.c:156-179 | marking and resetting a bit of a word changes that bit only |
| `Bitmaps.FirstFitIs` | pintos/src/lib/kernel/bitmap.c:295-310 | the result is the least start of a group of equal bits at or after START, and none only if there is none |
| `Bitmaps.BitmapCreate` | pintos/src/lib/kernel/bitmap.c:78-94 | a bitmap of reset bits if there is memory for the record and for the bits, if any; none otherwise |
| `Bitmaps.EmptyGroup` | pintos/src/lib/kernel/bitmap.c:312-326 | an empty group is found at START |
| `Bitmaps.Bitmap.Test` | pintos/src/lib/kernel/bitmap.c:197-203 | the bit of the sequence |
| `Bitmaps.Bitmap.Set` | pintos/src/lib/kernel/bitmap.c:144-179 | changes one bit of the sequence |
| `Bitmaps.Bitmap.SetMultiple` | pintos/src/lib/kernel/bitmap.c:217-228 | sets exactly the given stretch |
| `Bitmaps.Bitmap.Contains` | pintos/src/lib/kernel/bitmap.c:250-263 | whether some bit of the stretch has the value |
| `Bitmaps.Bitmap.Scan` | pintos/src/lib/kernel/bitmap.c:295-310 | first fit |
| `Bitmaps.Bitmap.ScanAndFlip` | pintos/src/lib/kernel/bitmap.c:319-326 | first fit, exactly those bits flipped; no change if there is none |
| `Malloc.BlockOnPage` | pintos/src/threads/malloc.c:285-294 | a block lies on the page of its arena, which rounding down finds |
| `Malloc.SlotIsBlock` | pintos/src/threads/malloc.c:276-278 | what passes the alignment check within range is a block |
| `Malloc.BigEnoughIff` | pintos/src/threads/malloc.c:109-110 | the pages computed for a big block, if any, hold it if and only if the size is at most 2^32 - 12, and one page less would not; they are none exactly from where the sum wraps around up to there |
| `Malloc.TooSmallIff` | pintos/src/threads/malloc.c:89-154 | malloc returns a block smaller than asked for if and only if the size is above 2^32 - 12 and a page was given |
| `Malloc.MallocCanGiveTooLittle` | pintos/src/threads/malloc.c:109-119 | at boot, a request for 2^32 - 1 bytes is served with 4084 |
| `Malloc.FreeAtMost` | pintos/src/threads/malloc.c:242-246 | an arena has at most all blocks free, and all if and only if none is handed out |
| `Malloc.TakeKeeps` | pintos/src/threads/malloc.c:148-153 | handing out the first free block keeps the allocator in order; the block was not handed out |
| `Malloc.GrowKeeps` | pintos/src/threads/malloc.c:129-145 | a new arena adds exactly its blocks to the free list |
| `Malloc.BigKeeps` | pintos/src/threads/malloc.c:105-120 | so does a big block |
| `Malloc.MallocKeeps` | pintos/src/threads/malloc.c:89-154 | malloc fails no assertion, keeps the invariant, and returns a block not handed out before, or changes nothing (which of the two: MallocServesIff) |
| `Malloc.MallocServesIff` | pintos/src/threads/malloc.c:89-154 | malloc returns null if and only if the size is 0; or above 1024 and there is no page or the page count wraps to 0; or at most 1024, with no page and no block of the least sufficient class free |
| `Malloc.ServedFrom` | pintos/src/threads/malloc.c:129-153 | a small request is served by a free block of the least sufficient class if there is one, else by the first block of an arena made on the page; a large one by the page; no other arena comes or goes |
| `Malloc.FreedIsReused` | pintos/src/threads/malloc.c:238-239 | the block freed last is the next one handed out of its class |
| `Malloc.EveryRequestServed` | pintos/src/threads/malloc.c:89-154 | in every run a request is refused if and only if there is nothing to serve it from |
| `Malloc.FirstRequest` | pintos/src/threads/malloc.c:129-153 | from boot, 100 bytes on page 0 are served at address 12 |
| `Malloc.RetiredShape` | pintos/src/threads/malloc.c:242-253 | giving back an unused arena takes exactly its blocks off the free list |
| `Malloc.FreeKeeps` | pintos/src/threads/malloc.c:218-264 | free of a handed-out block fails no assertion and keeps the invariant |
| `Malloc.EveryRunKeepsInv` | pintos/src/threads/malloc.c:87-264 | every state of every run of malloc and free satisfies the invariant |
| `Malloc.LiveApart` | pintos/src/threads/malloc.c:284-294 | blocks handed out do not overlap |
| `Malloc.ArenaInService` | pintos/src/threads/malloc.c:241-253 | every arena kept has a block handed out |
| `Malloc.AllocatorSafety` | pintos/src/threads/malloc.c:71-294 | in every run: free lists are exactly the blocks not handed out, counts match, arenas are in use, handed-out blocks lie inside the pages of their arenas behind the header, are disjoint and as large as asked for (exactly for sizes up to 2^32 - 12), and no call fails an assertion |
| `Common.ListRemove` | pintos/src/lib/kernel/list.c:248-255 | takes one element off a list and keeps the order of the others |
| `Malloc.RetireBlocks` | pintos/src/threads/malloc.c:247-251 | the loop takes all blocks of the arena off the list |
| `Malloc.NewBlocks` | pintos/src/threads/malloc.c:141-145 | the loop appends all blocks of the arena |
| `Malloc.DescIs` | pintos/src/threads/malloc.c:100-104 | the descriptor found is the least that is large enough |
| `Malloc.Allocator.constructor` | pintos/src/threads/malloc.c:71-85 | seven descriptors, within the array, with the sizes and counts of the model |
| `Malloc.Allocator.Malloc` | pintos/src/threads/malloc.c:89-154 | equals MallocSpec, which MallocServesIff and ServedFrom fix |
| `Malloc.Allocator.Free` | pintos/src/threads/malloc.c:218-264 | equals FreeSpec for a block handed out; nothing for a null pointer |
| `InodeIo.WrittenContent` | pintos/src/filesys/inode.c:257-318 | a write replaces exactly the bytes of the file from the offset on |
| `InodeIo.OthersUntouched` | pintos/src/filesys/inode.c:257-318 | it changes no byte of a file with a disjoint extent |
| `InodeIo.ReadBack` | pintos/src/filesys/inode.c:200-318 | what was written is what is read |
| `InodeIo.ChunkWritten` | pintos/src/filesys/inode.c:299-307 | writing a chunk into its sector extends the bytes replaced by that chunk |
| `InodeIo.TransferredIs` | pintos/src/filesys/inode.c:213-221 | the bytes transferred are all that are asked for, up to the end of the file; without a bounce buffer the whole sectors of them, and none from inside a sector |
| `InodeIo.ProgressEnds` | pintos/src/filesys/inode.c:219-221 | when the loop stops, min(size, length - offset) bytes, or 0, are transferred; without a bounce buffer whole sectors only |
| `InodeIo.Device.Read` | pintos/src/devices/block.c:120-126 | a sector into a buffer |
| `InodeIo.Device.Write` | pintos/src/devices/block.c:133-140 | a sector from a buffer |
| `InodeIo.Inode.ReadChunk` | pintos/src/filesys/inode.c:223-240 | direct or through the bounce buffer, the same bytes arrive |
| `InodeIo.Inode.WriteChunk` | pintos/src/filesys/inode.c:284-308 | direct or through the bounce buffer, exactly the chunk of the sector changes; the zero-filling branch is dead |
| `InodeIo.Inode.ReadAt` | pintos/src/filesys/inode.c:200-250 | returns exactly the transferable bytes, the buffer getting those of the flat file and being left alone behind them |
| `InodeIo.Inode.WriteAt` | pintos/src/filesys/inode.c:257-318 | replaces exactly the transferable bytes on the device, none if writes are denied; no other byte of the device changes |
| `Inodes.AllocateIs` | pintos/src/filesys/free-map.c:27-41 | a failed allocation changes nothing, rolled back or not; a successful one marks sectors that were free (which of the two: AllocateSucceedsIff) |
| `Inodes.AllocateSucceedsIff` | pintos/src/filesys/free-map.c:27-41 | allocation succeeds if and only if the map file was written and there are that many free sectors in a row, and gives the first such run |
| `Inodes.CreateSucceedsIff` | pintos/src/filesys/inode.c:72-106 | inode_create puts an inode at the sector if and only if memory, the map file and a long enough free run are there, with the length asked for and its data in the first such run |
| `Inodes.ReserveSucceedsIff` | pintos/src/filesys/free-map.c:27-41 | a sector is reserved if and only if one is free and the map could be written |
| `Inodes.ReserveKeeps` | pintos/src/filesys/free-map.c:27-41 | reserving a sector keeps the ownership invariant |
| `Inodes.UnreserveKeeps` | pintos/src/filesys/free-map.c:44-50 | so does giving it back; the assertion holds, and exactly that sector becomes free and unreserved |
| `Inodes.CreateKeeps` | pintos/src/filesys/inode.c:72-106 | inode_create gives the inode free sectors, or changes nothing (which of the two: CreateSucceedsIff) |
| `Inodes.DeleteKeeps` | pintos/src/filesys/inode.c:176-182 | both assertions hold, and exactly the sectors of the inode become free |
| `Inodes.FindIs` | pintos/src/filesys/inode.c:117-127 | the search finds the open inode of a sector if and only if there is one |
| `Inodes.OpenKeeps` | pintos/src/filesys/inode.c:111-142 | inode_open keeps one struct inode per sector and its counts right |
| `Inodes.DroppedKeeps` | pintos/src/filesys/inode.c:170-186 | closing a reference keeps them right |
| `Inodes.DeniersBelowRefs` | pintos/src/filesys/inode.c:322-338 | denials never exceed references, so both assertions hold |
| `Inodes.SetDenyKeeps` | pintos/src/filesys/file.c:118-141 | file_deny_write and file_allow_write keep the denial count right |
| `Inodes.CloseKeeps` | pintos/src/filesys/inode.c:163-186 | inode_close fails no assertion and keeps the invariant |
| `Inodes.FileCloseKeeps` | pintos/src/filesys/file.c:45-54 | so does file_close |
| `Inodes.StepKeeps` | pintos/src/filesys/inode.c:72-195 | no step fails an assertion and every step keeps the invariant |
| `Inodes.EveryRunKeepsInv` | pintos/src/filesys/inode.c:72-195 | every state of every run satisfies it |
| `Inodes.InodeSafety` | pintos/src/filesys/inode.c:72-195 | in every run: one struct inode per sector, open_cnt the number of references, deny_write_cnt the number of denying files and no more, disjoint ownership, the free map exactly the sectors in use |
| `Inodes.StepRefers` | pintos/src/filesys/inode.c:111-195 | each event does to the references exactly what it is for: an open sector is opened again by its inode, another by a new one if and only if there is memory; closing drops one reference; file_open and file_reopen make a file or close |
| `Inodes.EveryRunServes` | pintos/src/filesys/inode.c:72-195 | so in every run, and inode_create succeeds if and only if it has what it needs |
| `Inodes.ReleasedAtLastClose` | pintos/src/filesys/inode.c:170-186 | a removed inode's sectors, all and only, are freed by the close of its last reference; no other step frees a sector of an inode |
| `Inodes.RemovalIsPending` | pintos/src/filesys/inode.c:190-195 | inode_remove, and nothing else, marks an inode removed; it stays so while open, and a removed inode goes only by the close that frees its sectors |
| `Inodes.RemovedFreedOnce` | pintos/src/filesys/inode.c:170-186 | in every run, none of the sectors of a removed open inode is freed before the step that closes its last reference, and that step frees all of them and nothing else |
| `Inodes.FileSystem.constructor` | pintos/src/filesys/free-map.c:12-20 | only the two system sectors are marked |
| `Inodes.FileSystem.FreeMapAllocate` | pintos/src/filesys/free-map.c:27-41 | equals Allocate; succeeds if and only if the map was written and a free run is there |
| `Inodes.FileSystem.FreeMapRelease` | pintos/src/filesys/free-map.c:44-50 | equals Release |
| `Inodes.FileSystem.InodeCreate` | pintos/src/filesys/inode.c:72-106 | equals Create; reports success if and only if memory, the map file and a free run are there |
| `Inodes.FileSystem.InodeOpen` | pintos/src/filesys/inode.c:111-142 | equals Open |
| `Inodes.FileSystem.InodeClose` | pintos/src/filesys/inode.c:163-186 | equals Close |
| `Inodes.FileSystem.FileSetDeny` | pintos/src/filesys/file.c:118-141 | equals SetDeny |
| `Inodes.FileSystem.CloseFile` | pintos/src/filesys/file.c:45-54 | equals FileClose |
| `Inodes.FileSystem.OpenFile` | pintos/src/filesys/file.c:17-34 | equals FileOpen |
| `FileData.DecodeEncode` | pintos/src/filesys/inode.c:15-21 | a disk inode of 32-bit fields reads back from its sector |
| `FileData.Format` | pintos/src/filesys/inode.c:87-102 | the writes of inode_create leave the inode in its sector and zeros in its data sectors, and no other sector changed |
| `FileData.WriteKeepsOthers` | pintos/src/filesys/inode.c:257-318 | a write changes no byte of any other file or inode, nor its own inode |
| `FileData.ActKeeps` | pintos/src/filesys/inode.c:72-318 | every action keeps that the sector of every inode on the device holds it |
| `FileData.ActKeepsFile` | pintos/src/filesys/inode.c:72-318 | an action that neither writes to a file nor deletes it changes no byte of it |
| `FileData.CreatedIsZero` | pintos/src/filesys/inode.c:93-100 | a created file reads as zeros |
| `FileData.WriteChangesFile` | pintos/src/filesys/inode.c:257-318 | a write replaces exactly the bytes from its offset on |
| `FileData.InodesReadBack` | pintos/src/filesys/inode.c:140-140 | in every run on a device of fewer than 2^32 sectors, inode_open reads from the sector of any inode that inode |
| `FileData.FileKept` | pintos/src/filesys/inode.c:72-318 | in every run a file keeps its bytes until it is written to or deleted, whatever is created, written, removed or closed meanwhile |
| `FileData.WrittenIsReadBack` | pintos/src/filesys/inode.c:72-318 | in every run bytes written are read back until the file is written to again or deleted |
| `Ustar.StrippedIsSafe` | pintos/src/lib/ustar.c:65-73 | a stripped name is not empty nor "..", starts with none of the prefixes, and is an end of the name or "." |
| `Ustar.StripIs` | pintos/src/lib/ustar.c:65-73 | "/", "./" and "../" in front go, an empty name and ".." become ".", any other name stays |
| `Ustar.StripTwice` | pintos/src/lib/ustar.c:65-73 | stripping is idempotent |
| `Ustar.OctalRoundTrip` | pintos/src/lib/ustar.c:129-162 | the octal printer and parser are inverse for every number that fits the field and 32 bits |
| `Ustar.ParseOctalIff` | pintos/src/lib/ustar.c:129-162 | a number is read if and only if the field begins with octal digits that denote it, ended by a blank or null byte, and it fits 32 bits |
| `Ustar.SumIsTotal` | pintos/src/lib/ustar.c:36-54 | the checksum is the plain total of the 512 bytes with bytes 148 to 155 replaced by 32 |
| `Ustar.ChksumOfZeros` | pintos/src/lib/ustar.c:45-52 | that of an empty block is 256 |
| `Ustar.SumIgnoresItself` | pintos/src/lib/ustar.c:36-54 | the checksum does not depend on its own field |
| `Ustar.SumChanged` | pintos/src/lib/ustar.c:36-54 | it changes by exactly the change of any other byte |
| `Ustar.MadeFields` | pintos/src/lib/ustar.c:99-115 | the fields of the finished header read back, the checksum among them |
| `Ustar.MadeOthers` | pintos/src/lib/ustar.c:99-112 | mode 0644 or 0755 by type, owner and group 0 and root, the fixed time, zeros elsewhere |
| `Ustar.ParseAcceptsIff` | pintos/src/lib/ustar.c:181-227 | a header is accepted if and only if magic, version, checksum, name and prefix ends, type and size are as the format asks; a block is the end of the archive if and only if it is all zeros |
| `Ustar.FirstFlaw` | pintos/src/lib/ustar.c:181-227 | a header is refused with exactly the first of its flaws, in the order of the checks |
| `Ustar.EntryIs` | pintos/src/lib/ustar.c:214-226 | the entry of any accepted header: the stripped bytes up to the first null, the type, and the number in the size field or 0 |
| `Ustar.RoundTrip` | pintos/src/lib/ustar.c:82-227 | for every name, type and int size: a header is made if and only if the stripped name has at most 99 bytes, and parses to the stripped name, type and size (0 for directories), a negative size of a regular file alone being refused |
| `Ustar.SingleByteDetected` | pintos/src/lib/ustar.c:204-207 | an accepted header with any one byte outside the checksum field changed is refused |
| `Ustar.FormatOctal` | pintos/src/lib/stdio.c:501-544 | the digits of the value, zeros in front up to the width |
| `Ustar.CalculateChksum` | pintos/src/lib/ustar.c:36-54 | the loop computes the plain total of the header with its checksum field blanked |
| `Ustar.ParseOctalField` | pintos/src/lib/ustar.c:129-162 | equals ParseOctal |
| `Ustar.StripPrefixes` | pintos/src/lib/ustar.c:65-73 | equals Strip |
| `Ustar.PutString` | pintos/src/lib/string.c:325-343 | as much of the string as fits, and a terminator |
| `Ustar.FillNumbers` | pintos/src/lib/ustar.c:99-107 | the fields up to the modification time |
| `Ustar.FillNames` | pintos/src/lib/ustar.c:108-112 | the fields behind the checksum |
| `Ustar.MakeHeader` | pintos/src/lib/ustar.c:82-118 | equals Make, the buffer being left alone on failure |
| `Ustar.IsAllZeros` | pintos/src/lib/ustar.c:166-173 | true of a block of zeros only |
| `Ustar.ParseHeader` | pintos/src/lib/ustar.c:181-227 | equals Parse, error by error |

## Left out

- HeapModel.Heap.Insert: does not model what a store past the buffer overwrites; it reports it and leaves the heap as it was.
- KernelObject.Kernel.Queue: is stated for a push that is stored, which `EveryEventHasRoom` gives below 2048 threads; what the kernel does after an overrun is not modelled.
- KernelTheorems.StepKeepsInv: does not cover condition variables, which are built from the semaphores and locks it covers.
- KernelRuns.EveryRunStamped: is stated up to 2^31 pushes, where entry_ord, an int, wraps around.
- KernelClock.AlarmClock: does not model the overflow of the 64-bit wake time.
- Mlfqs.StepOk: takes nice values between -20 and 20; thread_set_nice does not check them.
- Inodes.FileSystem.InodeCreate: does not write the inode and its zeros to the device; `FileData.Format` does.
- InodeIo.Inode.ReadAt: takes offsets of at least 0, as file_seek asserts.
- InodeIo.Inode.WriteAt: takes offsets of at least 0, likewise.
- LinkedList.List.Splice: does not cover splices from one list into another, nor a place inside the stretch that is moved.
- KernelTurns.FirstInFirstOut: is stated below 2^31 pushes; `YielderRunsAfter` says for all counters what the stamps decide.
- FileData.FileKept: the write of the free map file that goes with an allocation is an action of its own.
- Interleavings inside lock_acquire and lock_release: each interrupts-off region is one step, and so is the blocking path of lock_acquire up to the switch and after it; a thread switched back into a sema_down loop tests again before the next tick.
- The start of the kernel up to the end of thread_start, and page allocation failure in thread_create.
- Thread identifiers are given to thread_create by the environment; allocate_tid is an ordinary use of a lock.
- Runs in which a thread exits while it holds a lock, or sets itself a priority off the scale: `ExitKeepsIff` and `SetPriorityKeepsIff` say that they leave the invariant at that step.
- Semaphores and locks are initialized once; re-initialization of one in use is outside the model.
- Aliasing of threads, locks, semaphores, inodes and files: they are entries of tables, not objects on the heap. List nodes, buffers, bitmaps and heaps are objects.
- The heap keeps its comparison function in a field; here it is an argument of each operation, because it reads the threads.
- The order of the ready heap in MLFQS mode: thread_tick changes priorities without rebuilding it.
- hash_clear, hash_apply and the FNV functions; list_insert, list_remove, list_reverse, list_unique and list_insert_ordered.
- calloc and realloc, which combine malloc, free and copying.
- bitmap_flip, bitmap_count and bitmap file input and output.
- File positions: file_read, file_write and file_seek only add to an offset passed to the inode operations.
- Directories, filesys_create and its failure path, and the contents of the free map file.
- printf formatting other than zero-padded octal, and console output.
- Device drivers, interrupts, the context switch, user programs, the partition table, and the host utilities.
