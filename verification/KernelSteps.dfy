/** Each building block of the kernel's operations keeps the invariant. */
module KernelSteps {
  import opened Common
  import opened HeapModel
  import opened KernelModel
  import opened KernelInvariant

  // ---- list_max() -----------------------------------------------------------------------

  /** list_max() returns the earliest of the largest elements. */
  lemma {:induction false} MaxIndexIsFirstMaximum<T>(xs: seq<T>, n: nat, key: T -> int)
    requires 1 <= n <= |xs|
    ensures var m := MaxIndex(xs, n, key);
            && (forall i :: 0 <= i < n ==> key(xs[i]) <= key(xs[m]))
            && (forall i :: 0 <= i < m ==> key(xs[i]) < key(xs[m]))
  {
    if n > 1 {
      MaxIndexIsFirstMaximum(xs, n - 1, key);
    }
  }

  lemma RemoveAtKeeps<T>(xs: seq<T>, i: nat)
    requires i < |xs|
    ensures OneMore(xs, RemoveAt(xs, i), xs[i])
  {
    assert xs == xs[..i] + [xs[i]] + xs[i + 1..];
  }

  // ---- The running thread's own fields --------------------------------------------------

  /** Only fields of the running thread, locks and semaphore values may have changed. */
  ghost predicate OnlyRunningChanged(s: State, s': State) {
    && s.running in s.threads && s.running in s'.threads
    && s'.threads == s.threads[s.running := s'.threads[s.running]]
    && s'.threads[s.running].status == Running
    && s'.running == s.running && s'.idle == s.idle && s'.ready == s.ready && s'.sleepers == s.sleepers
    && s'.semas.Keys == s.semas.Keys
    && (forall r :: r in s.semas ==> s'.semas[r].waiters == s.semas[r].waiters)
    && (s'.threads[s.running].downing.Some? ==> s'.threads[s.running].downing.value in s.semas)
  }

  lemma RunningFrameQueues(s: State, s': State)
    requires OneRunning(s) && OnlyRunningChanged(s, s')
    requires ReadyQueue(s) && SleepQueue(s) && HeapsOrdered(s)
    ensures ReadyQueue(s') && SleepQueue(s') && HeapsOrdered(s') && OneRunning(s')
  {
    OrderedUnder(s.ready, ReadyLess(s.threads), ReadyLess(s'.threads));
    OrderedUnder(s.sleepers, SleepLess(s.threads), SleepLess(s'.threads));
  }

  lemma RunningWaits(s: State, s': State, r: SemaRef)
    requires OneRunning(s) && OnlyRunningChanged(s, s')
    requires r in s.semas && Lists(s.semas[r].waiters, WaitsFor(s.threads, r))
    ensures Lists(s'.semas[r].waiters, WaitsFor(s'.threads, r))
  {
    assert forall t: Tid :: WaitsFor(s'.threads, r)(t) == WaitsFor(s.threads, r)(t);
  }

  lemma RunningFrameWaiters(s: State, s': State)
    requires OneRunning(s) && OnlyRunningChanged(s, s') && WaitLists(s)
    ensures WaitLists(s')
  {
    forall r: SemaRef | r in s'.semas
      ensures Lists(s'.semas[r].waiters, WaitsFor(s'.threads, r))
    {
      RunningWaits(s, s', r);
    }
  }

  lemma RunningFramePermits(s: State, s': State)
    requires OneRunning(s) && OnlyRunningChanged(s, s') && Permits(s)
    requires s'.semas == s.semas && s'.threads[s.running].downing == Current(s).downing
    ensures Permits(s')
  {
    forall r: SemaRef
      ensures Woken(s'.threads, r) == Woken(s.threads, r)
    {
    }
  }

  // ---- sema_up() ------------------------------------------------------------------------

  /** Moving blocked thread w to the ready heap, whatever list it is taken from. */
  lemma UnblockReady(s: State, w: Tid)
    requires ReadyQueue(s) && Ordered(s.ready, ReadyLess(s.threads))
    requires w in s.threads && s.threads[w].status == Blocked && w != s.idle
    ensures var s' := Enqueue(s, w);
            ReadyQueue(s') && Ordered(s'.ready, ReadyLess(s'.threads))
  {
    EnqueueKeeps(s, w);
  }

  lemma UnblockSleepers(s: State, w: Tid)
    requires SleepQueue(s) && Ordered(s.sleepers, SleepLess(s.threads)) && IdleThread(s)
    requires w in s.threads && s.threads[w].downing.Some? && w != s.idle
    ensures var s' := Enqueue(s, w);
            SleepQueue(s') && Ordered(s'.sleepers, SleepLess(s'.threads)) && IdleThread(s')
  {
    OrderedUnder(s.sleepers, SleepLess(s.threads), SleepLess(Enqueue(s, w).threads));
  }

  /** Taking w off r's wait list and making it ready. */
  lemma UnblockWaiters(s: State, r: SemaRef, i: nat, value: nat)
    requires WaitLists(s) && r in s.semas && i < |s.semas[r].waiters|
    ensures var waiters := s.semas[r].waiters;
            WaitLists(Enqueue(s.(semas := s.semas[r := Sema(value, RemoveAt(waiters, i))]), waiters[i]))
  {
    hide Push, ReadyLess, Lists;
    var waiters := s.semas[r].waiters;
    var s' := Enqueue(s.(semas := s.semas[r := Sema(value, RemoveAt(waiters, i))]), waiters[i]);
    forall x: SemaRef | x in s'.semas
      ensures Lists(s'.semas[x].waiters, WaitsFor(s'.threads, x))
    {
      UnblockWaits(s, r, i, value, x);
    }
    IsListed(s, r, i);
  }

  lemma IsListed(s: State, r: SemaRef, i: nat)
    requires r in s.semas && Lists(s.semas[r].waiters, WaitsFor(s.threads, r)) && i < |s.semas[r].waiters|
    ensures WaitsFor(s.threads, r)(s.semas[r].waiters[i])
  {
    assert s.semas[r].waiters[i] in s.semas[r].waiters;
  }

  lemma UnblockWaits(s: State, r: SemaRef, i: nat, value: nat, x: SemaRef)
    requires r in s.semas && i < |s.semas[r].waiters| && Lists(s.semas[r].waiters, WaitsFor(s.threads, r))
    requires x in s.semas && Lists(s.semas[x].waiters, WaitsFor(s.threads, x))
    ensures var waiters := s.semas[r].waiters;
            var s' := Enqueue(s.(semas := s.semas[r := Sema(value, RemoveAt(waiters, i))]), waiters[i]);
            Lists(s'.semas[x].waiters, WaitsFor(s'.threads, x))
  {
    hide Push, ReadyLess;
    var waiters := s.semas[r].waiters;
    assert waiters[i] in waiters;
    RemoveAtKeeps(waiters, i);
    OneMoreMembers(waiters, RemoveAt(waiters, i), waiters[i]);
  }

  lemma SignalLists(s: State, r: SemaRef)
    requires ReadyQueue(s) && WaitLists(s) && SleepQueue(s) && HeapsOrdered(s) && IdleThread(s)
    requires r in s.semas
    ensures var s' := Signal(s, r);
            ReadyQueue(s') && WaitLists(s') && SleepQueue(s') && HeapsOrdered(s') && IdleThread(s')
  {
    var q := s.semas[r];
    if q.waiters != [] {
      var i := MaxIndex(q.waiters, |q.waiters|, PriorityOf(s.threads));
      var value := Increment(q.value);
      var s1 := s.(semas := s.semas[r := Sema(value, RemoveAt(q.waiters, i))]);
      assert q.waiters[i] in q.waiters;
      UnblockReady(s1, q.waiters[i]);
      UnblockSleepers(s1, q.waiters[i]);
      UnblockWaiters(s, r, i, value);
    } else {
      assert forall x :: x in s.semas ==> Lists(s.semas[x].waiters, WaitsFor(s.threads, x));
    }
  }

  lemma SignalLocks(s: State, r: SemaRef)
    requires WaitLists(s) && HeldLists(s) && WaitingLocks(s) && Priorities(s) && r in s.semas
    ensures var s' := Signal(s, r);
            HeldLists(s') && WaitingLocks(s') && Priorities(s')
  {
  }

  lemma UnblockWoken(s: State, w: Tid, x: SemaRef)
    requires w in s.threads && s.threads[w].status == Blocked
    ensures Woken(Enqueue(s, w).threads, x) == Woken(s.threads, x) + (if s.threads[w].downing == Some(x) then {w} else {})
    ensures w !in Woken(s.threads, x)
  {
  }

  lemma UnblockPermits(s: State, r: SemaRef, w: Tid, q: Sema)
    requires Permits(s) && r in s.semas && s.semas[r].waiters != [] && q.value <= s.semas[r].value + 1
    requires w in s.threads && s.threads[w].status == Blocked && s.threads[w].downing == Some(r)
    ensures Permits(Enqueue(s.(semas := s.semas[r := q]), w))
  {
    var s1 := s.(semas := s.semas[r := q]);
    var s' := Enqueue(s1, w);
    forall x: SemaRef | x in s'.semas && s'.semas[x].waiters != []
      ensures s'.semas[x].value <= |Woken(s'.threads, x)|
    {
      UnblockWoken(s1, w, x);
    }
  }

  lemma SignalPermits(s: State, r: SemaRef)
    requires WaitLists(s) && Permits(s) && r in s.semas
    ensures Permits(Signal(s, r))
  {
    var q := s.semas[r];
    if q.waiters != [] {
      var i := MaxIndex(q.waiters, |q.waiters|, PriorityOf(s.threads));
      assert q.waiters[i] in q.waiters;
      UnblockPermits(s, r, q.waiters[i], Sema(Increment(q.value), RemoveAt(q.waiters, i)));
    }
  }

  /** The part of sema_up() before its yield. */
  lemma SignalKeeps(s: State, r: SemaRef)
    requires Core(s) && OneRunning(s) && r in s.semas
    ensures Core(Signal(s, r)) && OneRunning(Signal(s, r))
  {
    hide ReadyQueue, SleepQueue, WaitLists, HeapsOrdered, HeldLists, WaitingLocks, Priorities, IdleThread, Permits,
         OneRunning, Signal;
    SignalLists(s, r);
    SignalLocks(s, r);
    SignalPermits(s, r);
    SignalRunning(s, r);
  }

  lemma SignalRunning(s: State, r: SemaRef)
    requires WaitLists(s) && OneRunning(s) && r in s.semas
    ensures OneRunning(Signal(s, r))
  {
    hide Push, ReadyLess, Int32, MaxIndex, PriorityOf;
    var q := s.semas[r];
    if q.waiters != [] {
      IsListed(s, r, MaxIndex(q.waiters, |q.waiters|, PriorityOf(s.threads)));
    }
  }

  // ---- sema_down() ----------------------------------------------------------------------

  /** The running thread is inside no sema_down loop, or inside r's. */
  predicate MayTest(s: State, r: SemaRef) {
    && s.running != s.idle && r in s.semas
    && (Current(s).downing.None? || Current(s).downing == Some(r))
  }

  lemma ParkLists(s: State, r: SemaRef)
    requires ReadyQueue(s) && SleepQueue(s) && HeapsOrdered(s) && IdleThread(s)
    requires OneRunning(s) && MayTest(s, r)
    ensures var s' := Park(s, r);
            ReadyQueue(s') && SleepQueue(s') && HeapsOrdered(s') && IdleThread(s')
  {
    var s' := Park(s, r);
    OrderedUnder(s.ready, ReadyLess(s.threads), ReadyLess(s'.threads));
    OrderedUnder(s.sleepers, SleepLess(s.threads), SleepLess(s'.threads));
  }

  lemma ParkWaiters(s: State, r: SemaRef)
    requires WaitLists(s) && OneRunning(s) && MayTest(s, r)
    ensures WaitLists(Park(s, r))
  {
    var s' := Park(s, r);
    forall x: SemaRef | x in s'.semas
      ensures Lists(s'.semas[x].waiters, WaitsFor(s'.threads, x))
    {
      ParkWaits(s, r, x);
    }
  }

  lemma ParkWaits(s: State, r: SemaRef, x: SemaRef)
    requires OneRunning(s) && MayTest(s, r) && x in s.semas && Lists(s.semas[x].waiters, WaitsFor(s.threads, x))
    ensures Lists(Park(s, r).semas[x].waiters, WaitsFor(Park(s, r).threads, x))
  {
    var s' := Park(s, r);
    if x == r {
      OneMoreMembers(s'.semas[r].waiters, s.semas[r].waiters, s.running);
    }
    forall t: Tid
      ensures WaitsFor(s'.threads, x)(t) <==> WaitsFor(s.threads, x)(t) || (x == r && t == s.running)
    {
    }
  }

  lemma ParkLocks(s: State, r: SemaRef)
    requires HeldLists(s) && Priorities(s) && s.running in s.threads && MayTest(s, r)
    requires WaitingLocks(SetRunning(s, Current(s).(downing := Some(r))))
    ensures var s' := Park(s, r);
            HeldLists(s') && WaitingLocks(s') && Priorities(s')
  {
    var s1, s' := SetRunning(s, Current(s).(downing := Some(r))), Park(s, r);
    assert forall t :: t in s'.threads ==> s'.threads[t].waiting == s1.threads[t].waiting && s'.threads[t].downing == s1.threads[t].downing;
  }

  lemma ParkPermits(s: State, r: SemaRef)
    requires Permits(s) && OneRunning(s) && MayTest(s, r) && s.semas[r].value == 0
    ensures Permits(Park(s, r))
  {
    var s' := Park(s, r);
    forall x: SemaRef | x != r
      ensures Woken(s'.threads, x) == Woken(s.threads, x)
    {
    }
  }

  lemma ParkRunning(s: State, r: SemaRef)
    requires OneRunning(s) && LockSemas(s) && MayTest(s, r)
    ensures NoneRunning(Park(s, r)) && LockSemas(Park(s, r))
  {
    assert forall l :: l in s.locks ==> LockSemaOk(s.locks[l], s.semas[LockSema(l)]);
  }

  /** Joining a wait list when the value is zero. */
  lemma ParkKeeps(s: State, r: SemaRef)
    requires OneRunning(s) && MayTest(s, r) && GetSema(s.semas, r).value == 0
    requires ReadyQueue(s) && SleepQueue(s) && WaitLists(s) && HeapsOrdered(s) && IdleThread(s)
    requires HeldLists(s) && Priorities(s) && Permits(s) && LockSemas(s)
    requires WaitingLocks(SetRunning(s, Current(s).(downing := Some(r))))
    ensures Settled(Park(s, r)) && NoneRunning(Park(s, r))
  {
    ParkLists(s, r);
    ParkWaiters(s, r);
    ParkLocks(s, r);
    ParkPermits(s, r);
    ParkRunning(s, r);
  }

  lemma TakeHeld(s: State, r: SemaRef)
    requires HeldLists(s) && LockSemas(s) && OneRunning(s) && MayTest(s, r)
    requires GetSema(s.semas, r).value > 0
    ensures HeldLists(Take(s, r))
  {
    var s' := Take(s, r);
    if r.LockSema? {
      assert LockSemaOk(s.locks[r.lock], s.semas[r]);
      OneMoreMembers(s'.threads[s.running].held, Current(s).held, r.lock);
    }
    forall t: Tid | t in s'.threads
      ensures HoldsExactly(s'.threads[t].held, t, s'.locks)
    {
      assert HoldsExactly(s.threads[t].held, t, s.locks);
    }
  }

  lemma TakeLocks(s: State, r: SemaRef)
    requires LockSemas(s) && HeldLists(s) && WaitingLocks(s) && Priorities(s)
    requires OneRunning(s) && MayTest(s, r) && GetSema(s.semas, r).value > 0
    ensures var s' := Take(s, r);
            LockSemas(s') && WaitingLocks(s') && Priorities(s')
  {
    var s' := Take(s, r);
    if r.LockSema? {
      assert LockSemaOk(s.locks[r.lock], s.semas[r]);
    }
    forall l: LockId | l in s'.locks
      ensures DonationOk(s'.locks[l], s'.threads) && LockSemaOk(s'.locks[l], s'.semas[LockSema(l)])
    {
      assert LockSemaOk(s.locks[l], s.semas[LockSema(l)]);
      assert DonationOk(s.locks[l], s.threads);
    }
  }

  lemma TakePermits(s: State, r: SemaRef)
    requires Permits(s) && OneRunning(s) && MayTest(s, r) && GetSema(s.semas, r).value > 0
    ensures Permits(Take(s, r))
  {
    var s' := Take(s, r);
    forall x: SemaRef
      ensures Woken(s'.threads, x) == if x == r then Woken(s.threads, x) - {s.running} else Woken(s.threads, x)
    {
    }
    forall x: SemaRef | x in s'.semas && s'.semas[x].waiters != []
      ensures s'.semas[x].value <= |Woken(s'.threads, x)|
    {
      assert x == r && s.running in Woken(s.threads, r) ==> Woken(s.threads, r) == Woken(s'.threads, r) + {s.running};
    }
  }

  lemma TakeRunning(s: State, r: SemaRef)
    requires OneRunning(s) && Dominates(s) && GetSema(s.semas, r).value > 0
    ensures OneRunning(Take(s, r)) && Dominates(Take(s, r))
  {
  }

  lemma TakeChanges(s: State, r: SemaRef)
    requires OneRunning(s) && MayTest(s, r) && GetSema(s.semas, r).value > 0 && IdleThread(s)
    ensures OnlyRunningChanged(s, Take(s, r)) && IdleThread(Take(s, r))
  {
  }

  /** Taking a unit, and the lock that goes with it. */
  lemma TakeKeeps(s: State, r: SemaRef)
    requires Inv(s) && MayTest(s, r) && GetSema(s.semas, r).value > 0
    ensures Inv(Take(s, r))
  {
    hide ReadyQueue, SleepQueue, HeapsOrdered, WaitLists, LockSemas, HeldLists, WaitingLocks, Priorities,
         IdleThread, Permits, OneRunning, Dominates, Take, OnlyRunningChanged, MayTest;
    TakeChanges(s, r);
    RunningFrameQueues(s, Take(s, r));
    RunningFrameWaiters(s, Take(s, r));
    TakeHeld(s, r);
    TakeLocks(s, r);
    TakePermits(s, r);
    TakeRunning(s, r);
  }

  /** One test of the sema_down loop. */
  lemma TestOrParkKeeps(s: State, r: SemaRef)
    requires Inv(s) && MayTest(s, r)
    requires Current(s).downing.None? ==> r.Named?
    ensures Inv(TestOrPark(s, r))
  {
    if s.semas[r].value == 0 {
      ParkKeeps(s, r);
      ScheduleKeeps(Park(s, r));
    } else {
      TakeKeeps(s, r);
    }
  }
}
