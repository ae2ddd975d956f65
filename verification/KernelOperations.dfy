/** The operations of the kernel keep the invariant. */
module KernelOperations {
  import opened Common
  import opened HeapModel
  import opened KernelModel
  import opened KernelInvariant
  import opened KernelSteps

  // ---- Threads --------------------------------------------------------------------------

  lemma AddThreadLists(s: State, t: Tid, priority: int)
    requires ReadyQueue(s) && SleepQueue(s) && HeapsOrdered(s) && IdleThread(s) && t !in s.threads
    ensures var s' := Enqueue(s.(threads := s.threads[t := NewThread(priority)]), t);
            ReadyQueue(s') && SleepQueue(s') && HeapsOrdered(s') && IdleThread(s')
  {
    var s1 := s.(threads := s.threads[t := NewThread(priority)]);
    var s' := Enqueue(s1, t);
    OrderedUnder(s.ready, ReadyLess(s.threads), ReadyLess(s1.threads));
    EnqueueKeeps(s1, t);
    OrderedUnder(s.sleepers, SleepLess(s.threads), SleepLess(s'.threads));
  }

  lemma AddThreadWaiters(s: State, t: Tid, priority: int)
    requires WaitLists(s) && Permits(s) && t !in s.threads
    ensures var s' := Enqueue(s.(threads := s.threads[t := NewThread(priority)]), t);
            WaitLists(s') && Permits(s')
  {
    var s' := Enqueue(s.(threads := s.threads[t := NewThread(priority)]), t);
    WaitFrame(s, s');
  }

  lemma AddThreadLocks(s: State, t: Tid, priority: int)
    requires HeldLists(s) && WaitingLocks(s) && Priorities(s) && PRI_MIN <= priority && t !in s.threads
    ensures var s' := Enqueue(s.(threads := s.threads[t := NewThread(priority)]), t);
            HeldLists(s') && WaitingLocks(s') && Priorities(s')
  {
    var s' := Enqueue(s.(threads := s.threads[t := NewThread(priority)]), t);
    forall u: Tid | u in s'.threads
      ensures HoldsExactly(s'.threads[u].held, u, s'.locks)
    {
      assert u != t ==> HoldsExactly(s.threads[u].held, u, s.locks);
    }
    forall l: LockId | l in s'.locks
      ensures DonationOk(s'.locks[l], s'.threads)
    {
      assert DonationOk(s.locks[l], s.threads);
    }
  }

  lemma AddThreadRunning(s: State, t: Tid, priority: int)
    requires OneRunning(s) && Dominates(s) && ReadyQueue(s) && LockSemas(s) && t !in s.threads
    ensures var s' := Enqueue(s.(threads := s.threads[t := NewThread(priority)]), t);
            OneRunning(s') && LockSemas(s') && (priority <= Current(s).priority ==> Dominates(s'))
  {
    var s' := Enqueue(s.(threads := s.threads[t := NewThread(priority)]), t);
    forall u: Tid | u in s'.ready
      ensures u in s.ready || u == t
    {
      PushMember(s.ready, t, ReadyLess(s'.threads), u);
    }
  }

  lemma CreateKeeps(s: State, t: Tid, priority: int)
    requires Inv(s) && t !in s.threads && PRI_MIN <= priority
    ensures Inv(Create(s, t, priority))
  {
    hide ReadyQueue, SleepQueue, HeapsOrdered, WaitLists, LockSemas, HeldLists, WaitingLocks, Priorities,
         IdleThread, Permits, OneRunning, Dominates, Yield, Enqueue;
    var s1 := s.(threads := s.threads[t := NewThread(priority)]);
    var s' := Enqueue(s1, t);
    AddThreadLists(s, t, priority);
    AddThreadWaiters(s, t, priority);
    AddThreadLocks(s, t, priority);
    AddThreadRunning(s, t, priority);
    if priority > Current(s).priority {
      YieldKeeps(s');
    }
  }

  lemma RemoveThreadLists(s: State)
    requires ReadyQueue(s) && SleepQueue(s) && HeapsOrdered(s) && IdleThread(s) && OneRunning(s) && s.running != s.idle
    ensures var s' := s.(threads := s.threads - {s.running});
            ReadyQueue(s') && SleepQueue(s') && HeapsOrdered(s') && IdleThread(s') && NoneRunning(s')
  {
    var s' := s.(threads := s.threads - {s.running});
    OrderedUnder(s.ready, ReadyLess(s.threads), ReadyLess(s'.threads));
    OrderedUnder(s.sleepers, SleepLess(s.threads), SleepLess(s'.threads));
  }

  lemma RemoveThreadWaiters(s: State)
    requires WaitLists(s) && Permits(s) && OneRunning(s) && Current(s).downing.None?
    ensures var s' := s.(threads := s.threads - {s.running});
            WaitLists(s') && Permits(s')
  {
    var s' := s.(threads := s.threads - {s.running});
    WaitFrame(s, s');
  }

  lemma RemoveThreadLocks(s: State)
    requires HeldLists(s) && WaitingLocks(s) && Priorities(s) && OneRunning(s) && Current(s).held == []
    ensures var s' := s.(threads := s.threads - {s.running});
            HeldLists(s') && WaitingLocks(s') && Priorities(s')
  {
    var s' := s.(threads := s.threads - {s.running});
    assert HoldsExactly(Current(s).held, s.running, s.locks);
    forall l: LockId | l in s'.locks
      ensures DonationOk(s'.locks[l], s'.threads)
    {
      assert DonationOk(s.locks[l], s.threads);
    }
  }

  lemma ExitKeeps(s: State)
    requires Inv(s) && s.running != s.idle && Current(s).downing.None? && Current(s).held == []
    ensures Inv(Exit(s))
  {
    RemoveThreadLists(s);
    RemoveThreadWaiters(s);
    RemoveThreadLocks(s);
    ScheduleKeeps(s.(threads := s.threads - {s.running}));
  }

  lemma ExitLeavesHolder(s: State)
    requires Inv(s) && s.running != s.idle && Current(s).held != []
    ensures !HeldLists(Exit(s))
  {
    var l, s1 := Current(s).held[0], s.(threads := s.threads - {s.running});
    assert l in Current(s).held;
    assert s.locks[l].holder == Some(s.running);
    assert s.ready != [] ==> s.ready[0] in s.ready;
    hide Pop;
    assert Exit(s).locks == s.locks && s.running !in Exit(s).threads;
  }

  /** thread_exit() keeps the invariant exactly when the thread holds no lock: it releases none. */
  lemma ExitKeepsIff(s: State)
    requires Inv(s) && s.running != s.idle && Current(s).downing.None?
    ensures Inv(Exit(s)) <==> Current(s).held == []
  {
    if Current(s).held == [] {
      ExitKeeps(s);
    } else {
      ExitLeavesHolder(s);
      hide HeldLists;
    }
  }

  // ---- Priorities -----------------------------------------------------------------------

  /** A change of the running thread's own priority, and of locks it does not hold. */
  lemma RepriorityKeeps(s: State, th: Thread)
    requires Settled(s) && OneRunning(s) && s.running != s.idle
    requires SameThread(th, Current(s).(priority := th.priority, base := th.base)) && th.status == Running
    requires PriorityOk(th) && forall l: LockId :: l in th.held ==> GetLock(s.locks, l).donate <= th.priority
    ensures Settled(SetRunning(s, th)) && OneRunning(SetRunning(s, th))
  {
    var s' := SetRunning(s, th);
    RunningFrameQueues(s, s');
    RunningFrameWaiters(s, s');
    RepriorityLocks(s, th);
    RunningFramePermits(s, s');
  }

  lemma RepriorityLocks(s: State, th: Thread)
    requires HeldLists(s) && WaitingLocks(s) && Priorities(s) && OneRunning(s)
    requires SameThread(th, Current(s).(priority := th.priority, base := th.base))
    requires PriorityOk(th) && forall l: LockId :: l in th.held ==> GetLock(s.locks, l).donate <= th.priority
    ensures var s' := SetRunning(s, th);
            HeldLists(s') && WaitingLocks(s') && Priorities(s')
  {
    var s' := SetRunning(s, th);
    forall t: Tid | t in s'.threads
      ensures HoldsExactly(s'.threads[t].held, t, s'.locks)
    {
      assert HoldsExactly(s.threads[t].held, t, s.locks);
    }
    forall l: LockId | l in s'.locks
      ensures DonationOk(s'.locks[l], s'.threads)
    {
      assert DonationOk(s.locks[l], s.threads);
      assert HoldsExactly(Current(s).held, s.running, s.locks);
    }
  }

  /** The running thread's priority covers its own and the donations it holds. */
  lemma CurrentFacts(s: State)
    requires HeldLists(s) && Priorities(s) && OneRunning(s)
    ensures PriorityOk(Current(s)) && Current(s).status == Running
    ensures forall l: LockId :: l in Current(s).held ==> GetLock(s.locks, l).donate <= Current(s).priority
  {
    assert HoldsExactly(Current(s).held, s.running, s.locks);
    forall l: LockId | l in Current(s).held
      ensures GetLock(s.locks, l).donate <= Current(s).priority
    {
      assert DonationOk(s.locks[l], s.threads);
    }
  }

  lemma SetPriorityKeeps(s: State, p: int)
    requires Inv(s) && s.running != s.idle && PRI_MIN <= p
    ensures Inv(SetPriority(s, p))
  {
    hide ReadyQueue, SleepQueue, HeapsOrdered, WaitLists, LockSemas, HeldLists, WaitingLocks, Priorities,
         IdleThread, Permits, OneRunning, Yield;
    CurrentFacts(s);
    var cur := Current(s);
    var priority := if cur.priority < p || cur.held == [] then p else cur.priority;
    var th := cur.(base := p, priority := priority);
    RepriorityKeeps(s, th);
    if priority < cur.priority {
      YieldKeeps(SetRunning(s, th));
    }
  }

  lemma SetPriorityBase(s: State, p: int)
    requires s.running in s.threads && s.idle != s.running && s.running !in s.ready
    ensures s.running in SetPriority(s, p).threads && SetPriority(s, p).threads[s.running].base == p
  {
    hide Push, Pop, ReadyLess;
  }

  /** thread_set_priority() does not check its argument, and keeps the invariant exactly for priorities
      not below PRI_MIN. */
  lemma SetPriorityKeepsIff(s: State, p: int)
    requires Inv(s) && s.running != s.idle
    ensures Inv(SetPriority(s, p)) <==> PRI_MIN <= p
  {
    if PRI_MIN <= p {
      SetPriorityKeeps(s, p);
    } else {
      SetPriorityBase(s, p);
      BaseInRange(SetPriority(s, p), s.running);
    }
  }

  lemma BaseInRange(s: State, t: Tid)
    requires t in s.threads
    ensures Inv(s) ==> PRI_MIN <= s.threads[t].base
  {
  }

  // ---- lock_release() -------------------------------------------------------------------

  lemma {:induction false} WithoutKeeps(xs: seq<LockId>, x: LockId)
    requires x in xs
    ensures OneMore(xs, Without(xs, x), x)
  {
    assert xs == [xs[0]] + xs[1..];
    if xs[0] != x {
      WithoutKeeps(xs[1..], x);
    }
  }

  /** thread_update_priority() computes the larger of the thread's own priority and the
      donations to the locks it holds. */
  lemma RecomputedIsEffective(locks: map<LockId, Lock>, th: Thread)
    ensures var p := Recomputed(locks, th).priority;
            && th.base <= p && (forall l :: l in th.held ==> GetLock(locks, l).donate <= p)
            && (p == th.base || exists l :: l in th.held && GetLock(locks, l).donate == p)
  {
    if th.held != [] {
      var n := |th.held|;
      MaxIndexIsFirstMaximum(th.held, n, DonateOf(locks));
      assert th.held[MaxIndex(th.held, n, DonateOf(locks))] in th.held;
    }
  }

  lemma RelinquishHeld(s: State, l: LockId)
    requires HeldLists(s) && WaitingLocks(s) && s.running in s.threads
    requires l in s.locks && s.locks[l].holder == Some(s.running)
    ensures HeldLists(Relinquish(s, l)) && WaitingLocks(Relinquish(s, l))
  {
    hide Without, MaxIndex, DonateOf;
    var s', cur := Relinquish(s, l), Current(s);
    assert HoldsExactly(cur.held, s.running, s.locks);
    WithoutKeeps(cur.held, l);
    OneMoreMembers(cur.held, Without(cur.held, l), l);
    forall t: Tid | t in s'.threads
      ensures HoldsExactly(s'.threads[t].held, t, s'.locks)
    {
      assert HoldsExactly(s.threads[t].held, t, s.locks);
    }
  }

  lemma RelinquishPriorities(s: State, l: LockId)
    requires HeldLists(s) && Priorities(s) && s.running in s.threads
    requires l in s.locks && s.locks[l].holder == Some(s.running)
    ensures Priorities(Relinquish(s, l))
  {
    hide Without, MaxIndex, DonateOf;
    var s', cur := Relinquish(s, l), Current(s);
    assert HoldsExactly(cur.held, s.running, s.locks) && PriorityOk(cur);
    WithoutKeeps(cur.held, l);
    OneMoreMembers(cur.held, Without(cur.held, l), l);
    RecomputedIsEffective(s'.locks, cur.(held := Without(cur.held, l)));
    forall k: LockId | k in s'.locks
      ensures DonationOk(s'.locks[k], s'.threads)
    {
      assert DonationOk(s.locks[k], s.threads);
    }
  }

  lemma RelinquishLocks(s: State, l: LockId)
    requires HeldLists(s) && WaitingLocks(s) && Priorities(s) && OneRunning(s)
    requires l in s.locks && s.locks[l].holder == Some(s.running)
    ensures var s' := Relinquish(s, l);
            HeldLists(s') && WaitingLocks(s') && Priorities(s')
  {
    hide HeldLists, WaitingLocks, Priorities, Relinquish;
    RelinquishHeld(s, l);
    RelinquishPriorities(s, l);
  }

  lemma RelinquishKeeps(s: State, l: LockId)
    requires Settled(s) && OneRunning(s) && s.running != s.idle
    requires l in s.locks && s.locks[l].holder == Some(s.running)
    ensures Core(Relinquish(s, l)) && OneRunning(Relinquish(s, l))
  {
    var s' := Relinquish(s, l);
    RunningFrameQueues(s, s');
    RunningFrameWaiters(s, s');
    RunningFramePermits(s, s');
    RelinquishLocks(s, l);
  }

  /** Only the released lock's semaphore changes between Settled states. */
  lemma ReleaseLockSemas(s: State, l: LockId)
    requires LockSemas(s) && l in s.locks && s.locks[l].holder.Some?
    ensures LockSemas(Signal(Relinquish(s, l), LockSema(l)))
  {
    var s' := Signal(Relinquish(s, l), LockSema(l));
    forall k: LockId | k in s'.locks
      ensures LockSemaOk(s'.locks[k], s'.semas[LockSema(k)])
    {
      assert LockSemaOk(s.locks[k], s.semas[LockSema(k)]);
    }
  }

  lemma LockReleaseKeeps(s: State, l: LockId)
    requires Inv(s) && s.running != s.idle && l in s.locks && s.locks[l].holder == Some(s.running)
    ensures Inv(LockRelease(s, l))
  {
    RelinquishKeeps(s, l);
    SignalKeeps(Relinquish(s, l), LockSema(l));
    ReleaseLockSemas(s, l);
    YieldKeeps(Signal(Relinquish(s, l), LockSema(l)));
  }

  lemma SemaUpKeeps(s: State, i: nat)
    requires Inv(s) && Named(i) in s.semas
    ensures Inv(SemaUp(s, Named(i)))
  {
    hide Core, LockSemas, OneRunning, Dominates, Signal, Yield;
    SignalKeeps(s, Named(i));
    SignalLockSemas(s, i);
    YieldKeeps(Signal(s, Named(i)));
  }

  lemma SignalLockSemas(s: State, i: nat)
    requires LockSemas(s) && Named(i) in s.semas
    ensures LockSemas(Signal(s, Named(i)))
  {
    assert forall k :: k in s.locks ==> LockSemaOk(s.locks[k], s.semas[LockSema(k)]);
  }

  // ---- donate_priority() ----------------------------------------------------------------

  /** Donation only raises priorities, and only the donations of held locks. */
  ghost predicate OnlyRaised(s: State, s': State) {
    && s' == s.(threads := s'.threads, locks := s'.locks)
    && s'.threads.Keys == s.threads.Keys && s'.locks.Keys == s.locks.Keys
    && (forall t: Tid :: t in s.threads ==>
                         && s'.threads[t] == s.threads[t].(priority := s'.threads[t].priority)
                         && s.threads[t].priority <= s'.threads[t].priority)
    && (forall l: LockId :: l in s.locks ==>
                            && s'.locks[l].holder == s.locks[l].holder
                            && s.locks[l].donate <= s'.locks[l].donate
                            && (s.locks[l].holder.None? ==> s'.locks[l] == s.locks[l]))
  }

  lemma OnlyRaisedTransitive(s: State, s1: State, s2: State)
    requires OnlyRaised(s, s1) && OnlyRaised(s1, s2)
    ensures OnlyRaised(s, s2)
  {
  }

  /** What donate_priority() relies on. */
  ghost predicate DonationReady(s: State) {
    && HeldLists(s) && Priorities(s)
    && (forall t: Tid :: t in s.threads && s.threads[t].waiting.Some? ==> s.threads[t].waiting.value in s.locks)
  }

  /** One level of the recursion. */
  function Hand(s: State, t: Tid): State
    requires t in s.threads && s.threads[t].waiting.Some?
    requires var l := s.threads[t].waiting.value; l in s.locks && s.locks[l].holder.Some?
  {
    var donor := s.threads[t];
    var l := donor.waiting.value;
    var h := s.locks[l].holder.value;
    var holder := Get(s.threads, h);
    s.(locks := s.locks[l := s.locks[l].(donate := donor.priority)],
       threads := s.threads[h := holder.(priority := Max(holder.priority, donor.priority))])
  }

  lemma HandKeeps(s: State, t: Tid)
    requires DonationReady(s) && t in s.threads && s.threads[t].waiting.Some?
    requires var l := s.threads[t].waiting.value;
             s.locks[l].holder.Some? && s.locks[l].donate < s.threads[t].priority
    ensures DonationReady(Hand(s, t)) && OnlyRaised(s, Hand(s, t))
  {
    var s' := Hand(s, t);
    HandThreads(s, t);
    forall k: LockId | k in s'.locks
      ensures DonationOk(s'.locks[k], s'.threads)
    {
      assert DonationOk(s.locks[k], s.threads);
    }
  }

  lemma HandThreads(s: State, t: Tid)
    requires DonationReady(s) && t in s.threads && s.threads[t].waiting.Some?
    requires s.locks[s.threads[t].waiting.value].holder.Some?
    ensures forall u :: u in Hand(s, t).threads ==>
              HoldsExactly(Hand(s, t).threads[u].held, u, Hand(s, t).locks) && PriorityOk(Hand(s, t).threads[u])
  {
    var l, s' := s.threads[t].waiting.value, Hand(s, t);
    var h := s.locks[l].holder.value;
    assert HoldsExactly(s.threads[h].held, h, s.locks);
    forall u: Tid | u in s'.threads
      ensures HoldsExactly(s'.threads[u].held, u, s'.locks) && PriorityOk(s'.threads[u])
    {
      assert HoldsExactly(s.threads[u].held, u, s.locks) && PriorityOk(s.threads[u]);
    }
  }

  /** donate_priority() lowers no priority, keeps every holder at or above the donations
      made to its locks, and changes nothing else. */
  lemma {:induction false} DonateKeeps(s: State, t: Tid, dep: int)
    requires DonationReady(s) && t in s.threads && Donate(s, t, dep).Some?
    ensures var s' := Donate(s, t, dep).value;
            DonationReady(s') && OnlyRaised(s, s')
    decreases DONATE_MAX_DEPTH + 1 - dep
  {
    var donor := s.threads[t];
    if dep <= DONATE_MAX_DEPTH && donor.waiting.Some? && s.locks[donor.waiting.value].donate < donor.priority {
      var s1, h := Hand(s, t), s.locks[donor.waiting.value].holder.value;
      HandKeeps(s, t);
      DonateKeeps(s1, h, dep + 1);
      OnlyRaisedTransitive(s, s1, Donate(s, t, dep).value);
    }
  }

  // ---- lock_acquire() -------------------------------------------------------------------

  /** Rebuilding the ready heap makes up for the keys that donation changed inside it. */
  lemma RaisedQueues(s: State, s1: State)
    requires OnlyRaised(s, s1) && ReadyQueue(s) && SleepQueue(s) && IdleThread(s) && OneRunning(s)
    requires Ordered(s.sleepers, SleepLess(s.threads))
    ensures var s' := SortReady(s1);
            ReadyQueue(s') && SleepQueue(s') && HeapsOrdered(s') && IdleThread(s') && OneRunning(s')
  {
    var s' := SortReady(s1);
    LessFunctionsAreOrders(s1.threads);
    RebuildRestores(s1.ready, ReadyLess(s1.threads));
    assert multiset(s'.ready) == multiset(s.ready);
    DistinctByCount(s'.ready);
    DistinctByCount(s.ready);
    assert forall t: Tid :: t in s'.ready <==> t in multiset(s'.ready);
    assert forall t: Tid :: t in s.ready <==> t in multiset(s.ready);
    OrderedUnder(s.sleepers, SleepLess(s.threads), SleepLess(s1.threads));
  }

  lemma RaisedWaiters(s: State, s1: State)
    requires OnlyRaised(s, s1) && WaitLists(s) && Permits(s)
    ensures WaitLists(s1) && Permits(s1)
  {
    WaitFrame(s, s1);
  }

  lemma RaisedLocks(s: State, s1: State)
    requires OnlyRaised(s, s1) && LockSemas(s)
    ensures LockSemas(s1)
  {
    forall l: LockId | l in s1.locks
      ensures LockSemaOk(s1.locks[l], s1.semas[LockSema(l)])
    {
      assert LockSemaOk(s.locks[l], s.semas[LockSema(l)]);
    }
  }

  /** The state in which lock_acquire() calls donate_priority(). */
  function Wanting(s: State, l: LockId): State {
    SetRunning(s, Current(s).(waiting := Some(l)))
  }

  lemma WaitedLocksExist(s: State)
    requires WaitingLocks(s) && WaitLists(s) && LockSemas(s)
    ensures forall t :: t in s.threads && s.threads[t].waiting.Some? ==> s.threads[t].waiting.value in s.locks
  {
  }

  lemma WantingReady(s: State, l: LockId)
    requires OneRunning(s) && l in s.locks && HeldLists(s) && Priorities(s)
    requires forall t :: t in s.threads && s.threads[t].waiting.Some? ==> s.threads[t].waiting.value in s.locks
    ensures DonationReady(Wanting(s, l))
  {
    var s' := Wanting(s, l);
    forall t: Tid | t in s'.threads
      ensures HoldsExactly(s'.threads[t].held, t, s'.locks)
    {
      assert HoldsExactly(s.threads[t].held, t, s.locks);
    }
    forall k: LockId | k in s'.locks
      ensures DonationOk(s'.locks[k], s'.threads)
    {
      assert DonationOk(s.locks[k], s.threads);
    }
  }

  lemma WantingCore(s: State, l: LockId)
    requires Settled(s) && OneRunning(s) && s.running != s.idle && Current(s).downing.None? && l in s.locks
    ensures var s' := Wanting(s, l);
            && ReadyQueue(s') && SleepQueue(s') && HeapsOrdered(s') && OneRunning(s') && WaitLists(s')
            && Permits(s') && IdleThread(s') && LockSemas(s') && DonationReady(s')
  {
    hide ReadyQueue, SleepQueue, HeapsOrdered, WaitLists, LockSemas, HeldLists, WaitingLocks, Priorities,
         IdleThread, Permits, OneRunning, OnlyRunningChanged, Wanting, DonationReady;
    var s' := Wanting(s, l);
    WantingChanges(s, l);
    WaitedLocksExist(s);
    RunningFrameQueues(s, s');
    RunningFrameWaiters(s, s');
    RunningFramePermits(s, s');
    WantingReady(s, l);
  }

  lemma WantingChanges(s: State, l: LockId)
    requires OneRunning(s) && Current(s).downing.None? && IdleThread(s) && LockSemas(s) && s.running != s.idle
    ensures var s' := Wanting(s, l);
            && OnlyRunningChanged(s, s') && s'.semas == s.semas && s.running in s'.threads
            && s'.threads[s.running].downing == Current(s).downing && IdleThread(s') && LockSemas(s')
  {
  }

  /** What the donation of lock_acquire() amounts to. */
  lemma AcquireRaises(s: State, l: LockId)
    requires Inv(s) && s.running != s.idle && Current(s).downing.None? && l in s.locks
    requires Donate(Wanting(s, l), s.running, 0).Some?
    ensures OnlyRaised(Wanting(s, l), Donate(Wanting(s, l), s.running, 0).value)
  {
    WantingCore(s, l);
    DonateKeeps(Wanting(s, l), s.running, 0);
  }

  lemma DonatedWaiting(s: State, l: LockId, s1: State)
    requires WaitingLocks(s) && s.running in s.threads && OnlyRaised(Wanting(s, l), s1)
    ensures WaitingLocks(SetRunning(SortReady(s1), Current(SortReady(s1)).(downing := Some(LockSema(l)))))
  {
  }

  lemma BlockOnLock(s: State, l: LockId)
    requires Inv(s) && s.running != s.idle && Current(s).downing.None?
    requires l in s.locks && s.semas[LockSema(l)].value == 0
    requires Donate(Wanting(s, l), s.running, 0).Some?
    ensures var s1 := Donate(Wanting(s, l), s.running, 0).value;
            Inv(Schedule(Park(SortReady(s1), LockSema(l))))
  {
    var s0 := Wanting(s, l);
    var s1 := Donate(s0, s.running, 0).value;
    WantingCore(s, l);
    DonateKeeps(s0, s.running, 0);
    RaisedQueues(s0, s1);
    RaisedWaiters(s0, s1);
    RaisedLocks(s0, s1);
    DonatedWaiting(s, l, s1);
    ParkKeeps(SortReady(s1), LockSema(l));
    ScheduleKeeps(Park(SortReady(s1), LockSema(l)));
  }

  lemma LockAcquireKeeps(s: State, l: LockId)
    requires Inv(s) && s.running != s.idle && Current(s).downing.None? && l in s.locks
    ensures LockAcquire(s, l).Some? ==> Inv(LockAcquire(s, l).value)
  {
    if s.semas[LockSema(l)].value > 0 {
      TakeKeeps(s, LockSema(l));
    } else if Donate(Wanting(s, l), s.running, 0).Some? {
      BlockOnLock(s, l);
    }
  }

  // ---- timer.c --------------------------------------------------------------------------

  /** timer_sleep() up to the switch. */
  function Doze(s: State, x: int): State {
    var s1 := SetRunning(s, Current(s).(status := Blocked, wakeTime := s.ticks + x));
    s1.(sleepers := Push(s.sleepers, s.running, SleepLess(s1.threads)))
  }

  lemma DozeLists(s: State, x: int)
    requires ReadyQueue(s) && SleepQueue(s) && HeapsOrdered(s) && IdleThread(s) && OneRunning(s)
    requires s.running != s.idle && Current(s).downing.None?
    ensures var s' := Doze(s, x);
            ReadyQueue(s') && SleepQueue(s') && HeapsOrdered(s') && IdleThread(s') && NoneRunning(s')
  {
    var s' := Doze(s, x);
    LessFunctionsAreOrders(s'.threads);
    OrderedUnder(s.ready, ReadyLess(s.threads), ReadyLess(s'.threads));
    OrderedUnder(s.sleepers, SleepLess(s.threads), SleepLess(s'.threads));
    PushKeeps(s.sleepers, s.running, SleepLess(s'.threads));
    PushOrders(s.sleepers, s.running, SleepLess(s'.threads));
    OneMoreMembers(s'.sleepers, s.sleepers, s.running);
  }

  /** A thread outside every sema_down loop goes to sleep or wakes up. */
  ghost predicate OnlyOneChanged(s: State, s': State, t: Tid) {
    && t in s.threads && s.threads[t].downing.None?
    && s'.threads == s.threads[t := Get(s'.threads, t)]
    && SameThread(s.threads[t].(wakeTime := Get(s'.threads, t).wakeTime), Get(s'.threads, t))
    && s'.locks == s.locks && s'.semas == s.semas && s'.running == s.running && s'.idle == s.idle
  }

  lemma OneChangedWaiters(s: State, s': State, t: Tid)
    requires OnlyOneChanged(s, s', t) && WaitLists(s) && Permits(s)
    ensures WaitLists(s') && Permits(s')
  {
    WaitFrame(s, s');
  }

  lemma OneChangedLocks(s: State, s': State, t: Tid)
    requires OnlyOneChanged(s, s', t) && HeldLists(s) && WaitingLocks(s) && Priorities(s) && LockSemas(s)
    ensures HeldLists(s') && WaitingLocks(s') && Priorities(s') && LockSemas(s')
  {
    assert forall u :: u in s.threads ==> HoldsExactly(s.threads[u].held, u, s.locks);
    assert forall l :: l in s.locks ==> DonationOk(s.locks[l], s.threads);
  }

  lemma SleepKeeps(s: State, x: int)
    requires Inv(s) && s.running != s.idle && Current(s).downing.None?
    ensures Inv(Sleep(s, x))
  {
    if x >= 0 {
      DozeLists(s, x);
      OneChangedWaiters(s, Doze(s, x), s.running);
      OneChangedLocks(s, Doze(s, x), s.running);
      ScheduleKeeps(Doze(s, x));
    }
  }

  lemma PopSleeper(s: State)
    requires SleepQueue(s) && Ordered(s.sleepers, SleepLess(s.threads)) && s.sleepers != []
    ensures var t, rest := s.sleepers[0], Pop(s.sleepers, SleepLess(s.threads));
            && Distinct(rest) && (forall u :: u in rest <==> u in s.sleepers && u != t)
            && (forall u :: u in s.sleepers ==> Get(s.threads, t).wakeTime <= Get(s.threads, u).wakeTime)
            && Ordered(rest, SleepLess(s.threads))
  {
    var t, rest := s.sleepers[0], Pop(s.sleepers, SleepLess(s.threads));
    LessFunctionsAreOrders(s.threads);
    PopKeeps(s.sleepers, SleepLess(s.threads));
    PopOrders(s.sleepers, SleepLess(s.threads));
    RootIsMaximum(s.sleepers, SleepLess(s.threads));
    OneMoreMembers(s.sleepers, rest, t);
    forall u | u in s.sleepers
      ensures Get(s.threads, t).wakeTime <= Get(s.threads, u).wakeTime
    {
      assert !SleepLess(s.threads)(t, u);
    }
  }

  lemma WakeTopLists(s: State)
    requires ReadyQueue(s) && SleepQueue(s) && HeapsOrdered(s) && IdleThread(s) && s.sleepers != []
    ensures var s' := WakeTop(s);
            ReadyQueue(s') && SleepQueue(s') && HeapsOrdered(s') && IdleThread(s')
  {
    var s1, t := s.(sleepers := Pop(s.sleepers, SleepLess(s.threads))), s.sleepers[0];
    assert t in s.sleepers;
    PopSleeper(s);
    UnblockReady(s1, t);
    OrderedUnder(s1.sleepers, SleepLess(s.threads), SleepLess(WakeTop(s).threads));
  }

  lemma WakeTopOthers(s: State)
    requires Settled(s) && OneRunning(s) && s.sleepers != []
    ensures var s' := WakeTop(s);
            && WaitLists(s') && Permits(s') && HeldLists(s') && WaitingLocks(s') && Priorities(s')
            && LockSemas(s') && OneRunning(s')
  {
    var t := s.sleepers[0];
    assert t in s.sleepers;
    OneChangedWaiters(s, WakeTop(s), t);
    OneChangedLocks(s, WakeTop(s), t);
  }

  /** The running thread outranks every ready one, or a yield was asked for. */
  ghost predicate DominatesUnless(s: State, preempt: bool) {
    preempt || Dominates(s)
  }

  lemma WakeTopDominates(s: State, preempt: bool)
    requires ReadyQueue(s) && OneRunning(s) && SleepQueue(s) && s.sleepers != []
    requires DominatesUnless(s, preempt)
    ensures DominatesUnless(WakeTop(s), preempt || Get(s.threads, s.sleepers[0]).priority > Current(s).priority)
  {
    var s', t := WakeTop(s), s.sleepers[0];
    assert t in s.sleepers;
    PushKeeps(s.ready, t, ReadyLess(s'.threads));
    OneMoreMembers(s'.ready, s.ready, t);
  }

  /** Everything an iteration of timer_wake() keeps. */
  ghost predicate Waking(s: State, preempt: bool) {
    Settled(s) && OneRunning(s) && DominatesUnless(s, preempt)
  }

  lemma WakeTopKeeps(s: State, preempt: bool)
    requires Waking(s, preempt) && s.sleepers != []
    ensures Waking(WakeTop(s), preempt || Get(s.threads, s.sleepers[0]).priority > Current(s).priority)
  {
    WakeTopLists(s);
    WakeTopOthers(s);
    WakeTopDominates(s, preempt);
  }

  lemma WakeTopShorter(s: State)
    requires s.sleepers != []
    ensures |WakeTop(s).sleepers| == |s.sleepers| - 1
  {
    PopKeeps(s.sleepers, SleepLess(s.threads));
  }

  lemma {:induction false} WakeAllKeeps(s: State, preempt: bool)
    requires Waking(s, preempt)
    ensures Waking(WakeAll(s, preempt).0, WakeAll(s, preempt).1)
    decreases |s.sleepers|
  {
    hide Waking, SleepLess, ReadyLess, Enqueue;
    if s.sleepers != [] && Get(s.threads, s.sleepers[0]).wakeTime <= s.ticks {
      WakeTopShorter(s);
      WakeTopKeeps(s, preempt);
      WakeAllKeeps(WakeTop(s), preempt || Get(s.threads, s.sleepers[0]).priority > Current(s).priority);
    }
  }

  lemma ClockFrame(s: State, s': State, preempt: bool)
    requires Waking(s, preempt) && s' == s.(ticks := s'.ticks, slice := s'.slice)
    ensures Waking(s', preempt)
  {
    ClockQueues(s, s');
    ClockLocks(s, s');
  }

  lemma ClockQueues(s: State, s': State)
    requires s' == s.(ticks := s'.ticks, slice := s'.slice)
    requires ReadyQueue(s) && SleepQueue(s) && WaitLists(s) && HeapsOrdered(s) && Permits(s)
    ensures ReadyQueue(s') && SleepQueue(s') && WaitLists(s') && HeapsOrdered(s') && Permits(s')
  {
    hide Lists, Ordered;
  }

  lemma ClockLocks(s: State, s': State)
    requires s' == s.(ticks := s'.ticks, slice := s'.slice)
    requires HeldLists(s) && WaitingLocks(s) && Priorities(s) && IdleThread(s) && LockSemas(s)
    ensures HeldLists(s') && WaitingLocks(s') && Priorities(s') && IdleThread(s') && LockSemas(s')
  {
    hide HoldsExactly, PriorityOk, DonationOk, LockSemaOk;
  }

  lemma EndTickKeeps(s: State, preempt: bool)
    requires Waking(s, preempt)
    ensures Inv(EndTick(s, preempt))
  {
    hide Settled, OneRunning, Dominates, Yield;
    var s1 := s.(slice := s.slice + 1);
    ClockFrame(s, s1, preempt);
    if preempt || s1.slice >= TIME_SLICE {
      YieldKeeps(s1);
    }
  }

  lemma WakingAll(s: State)
    requires Inv(s)
    ensures var w := WakeAll(s.(ticks := s.ticks + 1), false);
            Waking(w.0, w.1)
  {
    var s0 := s.(ticks := s.ticks + 1);
    assert Waking(s0, false) by {
      ClockFrame(s, s0, false);
    }
    WakeAllKeeps(s0, false);
  }

  lemma TickKeeps(s: State)
    requires Inv(s)
    ensures Inv(Tick(s))
  {
    hide Inv, Waking, EndTick;
    var w := WakeAll(s.(ticks := s.ticks + 1), false);
    WakingAll(s);
    EndTickKeeps(w.0, w.1);
  }

  // ---- The remaining steps --------------------------------------------------------------

  lemma SemaInitKeeps(s: State, r: SemaRef, q: Sema)
    requires WaitLists(s) && Permits(s) && r !in s.semas && q.waiters == []
    ensures WaitLists(s.(semas := s.semas[r := q])) && Permits(s.(semas := s.semas[r := q]))
  {
    var s' := s.(semas := s.semas[r := q]);
    forall x: SemaRef | x in s'.semas
      ensures Lists(s'.semas[x].waiters, WaitsFor(s'.threads, x))
    {
      assert x != r ==> Lists(s.semas[x].waiters, WaitsFor(s.threads, x));
    }
  }

  lemma LockInitKeeps(s: State, l: LockId)
    requires LockSemas(s) && HeldLists(s) && WaitingLocks(s) && Priorities(s) && l !in s.locks
    ensures var s' := s.(locks := s.locks[l := Lock(None, PRI_MIN)], semas := s.semas[LockSema(l) := Sema(1, [])]);
            LockSemas(s') && HeldLists(s') && WaitingLocks(s') && Priorities(s')
  {
    var s' := s.(locks := s.locks[l := Lock(None, PRI_MIN)], semas := s.semas[LockSema(l) := Sema(1, [])]);
    forall k: LockId | k in s'.locks
      ensures LockSemaOk(s'.locks[k], s'.semas[LockSema(k)]) && DonationOk(s'.locks[k], s'.threads)
    {
      assert k != l ==> LockSemaOk(s.locks[k], s.semas[LockSema(k)]) && DonationOk(s.locks[k], s.threads);
    }
    forall t: Tid | t in s'.threads
      ensures HoldsExactly(s'.threads[t].held, t, s'.locks)
    {
      assert HoldsExactly(s.threads[t].held, t, s.locks);
    }
  }

  lemma IdleKeeps(s: State)
    requires Inv(s) && s.running == s.idle
    ensures Inv(Schedule(SetRunning(s, Current(s).(status := Blocked))))
  {
    var s' := SetRunning(s, Current(s).(status := Blocked));
    IdleQueue(s);
    hide Settled, OneRunning, Dominates, SameButQueue, Schedule, ReadyQueue, Ordered, NoneRunning;
    QueueFrame(s, s');
    ScheduleKeeps(s');
  }

  lemma IdleQueue(s: State)
    requires ReadyQueue(s) && Ordered(s.ready, ReadyLess(s.threads)) && OneRunning(s) && s.running == s.idle
    ensures var s' := SetRunning(s, Current(s).(status := Blocked));
            && ReadyQueue(s') && Ordered(s'.ready, ReadyLess(s'.threads)) && SameButQueue(s, s') && NoneRunning(s')
  {
    OrderedUnder(s.ready, ReadyLess(s.threads), ReadyLess(SetRunning(s, Current(s).(status := Blocked)).threads));
  }
}
