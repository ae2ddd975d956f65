/** Donations are backed: what a lock carries, some thread that waits for it still has to give. */
module KernelBacking {
  import opened Common
  import opened HeapModel
  import opened KernelModel
  import opened KernelInvariant
  import opened KernelOperations

  ghost predicate IsBacked(threads: Threads, l: LockId, donate: int) {
    donate > PRI_MIN ==> exists t :: t in threads && threads[t].waiting == Some(l) && threads[t].priority >= donate
  }

  ghost predicate Backed(s: State) {
    forall l :: l in s.locks ==> IsBacked(s.threads, l, s.locks[l].donate)
  }

  /** Whoever waited for a lock still does, at no less than its priority, and no lock carries a
      donation it did not carry. */
  ghost predicate NoMoreLent(s: State, s': State) {
    && (forall t :: t in s.threads && s.threads[t].waiting.Some? ==>
          t in s'.threads && s'.threads[t].waiting == s.threads[t].waiting && s'.threads[t].priority >= s.threads[t].priority)
    && (forall l :: l in s'.locks ==> s'.locks[l].donate == PRI_MIN || (l in s.locks && s'.locks[l].donate == s.locks[l].donate))
  }

  lemma NoMoreLentBacked(s: State, s': State)
    requires Backed(s) && NoMoreLent(s, s')
    ensures Backed(s')
  {
    forall l | l in s'.locks && s'.locks[l].donate > PRI_MIN
      ensures IsBacked(s'.threads, l, s'.locks[l].donate)
    {
      assert IsBacked(s.threads, l, s.locks[l].donate);
      var t :| t in s.threads && s.threads[t].waiting == Some(l) && s.threads[t].priority >= s.locks[l].donate;
      assert t in s'.threads && s'.threads[t].waiting == Some(l);
    }
  }

  lemma EnqueueBacked(s: State, t: Tid)
    requires Backed(s)
    ensures Backed(Enqueue(s, t))
  {
    hide Push, ReadyLess, Int32;
    NoMoreLentBacked(s, Enqueue(s, t));
  }

  lemma ScheduleBacked(s: State)
    requires Backed(s)
    ensures Backed(Schedule(s))
  {
    hide Pop, ReadyLess;
    NoMoreLentBacked(s, Schedule(s));
  }

  lemma RunningBacked(s: State, th: Thread)
    requires Backed(s) && (Current(s).waiting.Some? ==> th.waiting == Current(s).waiting && th.priority >= Current(s).priority)
    ensures Backed(SetRunning(s, th))
  {
    NoMoreLentBacked(s, SetRunning(s, th));
  }

  lemma YieldBacked(s: State)
    requires Backed(s)
    ensures Backed(Yield(s))
  {
    hide Enqueue, Schedule, Backed;
    EnqueueBacked(s, s.running);
    RunningBacked(s, Current(s).(status := Ready));
    ScheduleBacked(Requeue(s));
  }

  lemma SameLentBacked(s: State, s': State)
    requires Backed(s) && s'.threads == s.threads && s'.locks == s.locks
    ensures Backed(s')
  {
  }

  lemma SignalBacked(s: State, r: SemaRef)
    requires Backed(s)
    ensures Backed(Signal(s, r))
  {
    hide Enqueue, MaxIndex, PriorityOf;
    var q := GetSema(s.semas, r);
    if q.waiters != [] {
      var i := MaxIndex(q.waiters, |q.waiters|, PriorityOf(s.threads));
      var s1 := s.(semas := s.semas[r := Sema(Increment(q.value), RemoveAt(q.waiters, i))]);
      SameLentBacked(s, s1);
      EnqueueBacked(s1, q.waiters[i]);
    }
  }

  lemma CreateBacked(s: State, t: Tid, p: int)
    requires Backed(s) && t !in s.threads
    ensures Backed(Create(s, t, p))
  {
    hide Enqueue, Yield;
    var s0 := s.(threads := s.threads[t := NewThread(p)]);
    NoMoreLentBacked(s, s0);
    EnqueueBacked(s0, t);
    YieldBacked(Enqueue(s0, t));
  }

  lemma ExitBacked(s: State)
    requires Backed(s) && Current(s).waiting.None?
    ensures Backed(Exit(s))
  {
    hide Schedule;
    var s1 := s.(threads := s.threads - {s.running});
    NoMoreLentBacked(s, s1);
    ScheduleBacked(s1);
  }

  lemma SetPriorityBacked(s: State, p: int)
    requires Backed(s) && Current(s).waiting.None?
    ensures Backed(SetPriority(s, p))
  {
    hide Yield, SetRunning, Backed;
    var cur := Current(s);
    var priority := if cur.priority < p || cur.held == [] then p else cur.priority;
    RunningBacked(s, cur.(base := p, priority := priority));
    YieldBacked(SetRunning(s, cur.(base := p, priority := priority)));
  }

  lemma ParkBacked(s: State, r: SemaRef)
    requires Backed(s)
    ensures Backed(Park(s, r))
  {
    NoMoreLentBacked(s, Park(s, r));
  }

  /** A lock that is taken was free, and carried nothing. */
  lemma TakeBacked(s: State, r: SemaRef)
    requires Backed(s) && GetSema(s.semas, r).value > 0
    requires r.LockSema? ==> GetLock(s.locks, r.lock).donate == PRI_MIN && (Current(s).waiting.None? || Current(s).waiting == Some(r.lock))
    ensures Backed(Take(s, r))
  {
    var s' := Take(s, r);
    forall l | l in s'.locks && s'.locks[l].donate > PRI_MIN
      ensures IsBacked(s'.threads, l, s'.locks[l].donate)
    {
      assert IsBacked(s.threads, l, s.locks[l].donate);
      var t :| t in s.threads && s.threads[t].waiting == Some(l) && s.threads[t].priority >= s.locks[l].donate;
      assert t in s'.threads && s'.threads[t].waiting == Some(l);
    }
  }

  lemma TestOrParkBacked(s: State, r: SemaRef)
    requires Backed(s)
    requires r.LockSema? && GetSema(s.semas, r).value > 0 ==>
               GetLock(s.locks, r.lock).donate == PRI_MIN && (Current(s).waiting.None? || Current(s).waiting == Some(r.lock))
    ensures Backed(TestOrPark(s, r))
  {
    hide Schedule, Park, Take;
    if GetSema(s.semas, r).value == 0 {
      ParkBacked(s, r);
      ScheduleBacked(Park(s, r));
    } else {
      TakeBacked(s, r);
    }
  }

  /** Each donation is backed by its donor. */
  lemma {:induction false} DonateBacked(s: State, t: Tid, dep: int)
    requires Backed(s) && t in s.threads
    ensures Donate(s, t, dep).Some? ==> Backed(Donate(s, t, dep).value)
    decreases DONATE_MAX_DEPTH + 1 - dep
  {
    var donor := Get(s.threads, t);
    if dep <= DONATE_MAX_DEPTH && donor.waiting.Some? {
      var l := donor.waiting.value;
      var lock := GetLock(s.locks, l);
      if lock.donate < donor.priority && lock.holder.Some? {
        var h := lock.holder.value;
        var holder := Get(s.threads, h);
        var s1 := s.(locks := s.locks[l := lock.(donate := donor.priority)],
                     threads := s.threads[h := holder.(priority := Max(holder.priority, donor.priority))]);
        HandedBacked(s, t, s1);
        DonateBacked(s1, h, dep + 1);
      }
    }
  }

  lemma HandedBacked(s: State, t: Tid, s1: State)
    requires Backed(s) && t in s.threads && s.threads[t].waiting.Some?
    requires var l := s.threads[t].waiting.value;
             && GetLock(s.locks, l).holder.Some?
             && s1.locks == s.locks[l := GetLock(s.locks, l).(donate := s.threads[t].priority)]
             && var h := GetLock(s.locks, l).holder.value;
                s1.threads == s.threads[h := Get(s.threads, h).(priority := Max(Get(s.threads, h).priority, s.threads[t].priority))]
    ensures Backed(s1)
  {
    var l := s.threads[t].waiting.value;
    assert t in s1.threads && s1.threads[t].waiting == Some(l) && s1.threads[t].priority >= s.threads[t].priority;
    forall k | k in s1.locks && k != l && s1.locks[k].donate > PRI_MIN
      ensures IsBacked(s1.threads, k, s1.locks[k].donate)
    {
      assert IsBacked(s.threads, k, s.locks[k].donate);
      var u :| u in s.threads && s.threads[u].waiting == Some(k) && s.threads[u].priority >= s.locks[k].donate;
      assert u in s1.threads && s1.threads[u].waiting == Some(k);
    }
  }

  lemma AcquireBacked(s: State, l: LockId)
    requires Backed(s) && s.running in s.threads && Current(s).waiting.None? && LockAcquire(s, l).Some?
    requires GetSema(s.semas, LockSema(l)).value > 0 ==> GetLock(s.locks, l).donate == PRI_MIN
    ensures Backed(LockAcquire(s, l).value)
  {
    hide Donate, Schedule, Park, Take, Rebuild, Backed;
    if GetSema(s.semas, LockSema(l)).value > 0 {
      TakeBacked(s, LockSema(l));
    } else {
      var s0 := Wanting(s, l);
      RunningBacked(s, Current(s).(waiting := Some(l)));
      DonateBacked(s0, s.running, 0);
      var s1 := Donate(s0, s.running, 0).value;
      SameLentBacked(s1, SortReady(s1));
      ParkBacked(SortReady(s1), LockSema(l));
      ScheduleBacked(Park(SortReady(s1), LockSema(l)));
    }
  }

  lemma ReleaseBacked(s: State, l: LockId)
    requires Backed(s) && Current(s).waiting.None?
    ensures Backed(LockRelease(s, l))
  {
    hide Signal, Yield, Recomputed;
    var s1 := Relinquish(s, l);
    assert Recomputed(s1.locks, Current(s).(held := Without(Current(s).held, l))).waiting.None? by {
      RecomputedWaits(s1.locks, Current(s).(held := Without(Current(s).held, l)));
    }
    NoMoreLentBacked(s, s1);
    SignalBacked(s1, LockSema(l));
    YieldBacked(Signal(s1, LockSema(l)));
  }

  lemma RecomputedWaits(locks: map<LockId, Lock>, th: Thread)
    ensures Recomputed(locks, th).waiting == th.waiting
  {
  }

  lemma SleepBacked(s: State, x: int)
    requires Backed(s)
    ensures Backed(Sleep(s, x))
  {
    hide Schedule, Push, SleepLess;
    if x >= 0 {
      NoMoreLentBacked(s, Doze(s, x));
      ScheduleBacked(Doze(s, x));
    }
  }

  lemma {:induction false} WakeAllBacked(s: State, preempt: bool)
    requires Backed(s)
    ensures Backed(WakeAll(s, preempt).0)
    decreases |s.sleepers|
  {
    hide Enqueue, Backed, SleepLess;
    if s.sleepers != [] && Get(s.threads, s.sleepers[0]).wakeTime <= s.ticks {
      var s1 := s.(sleepers := Pop(s.sleepers, SleepLess(s.threads)));
      SameLentBacked(s, s1);
      EnqueueBacked(s1, s.sleepers[0]);
      WakeTopShorter(s);
      WakeAllBacked(WakeTop(s), preempt || Get(s.threads, s.sleepers[0]).priority > Current(s).priority);
    }
  }

  lemma TickBacked(s: State)
    requires Backed(s)
    ensures Backed(Tick(s))
  {
    hide WakeAll, Yield, Backed;
    var s0 := s.(ticks := s.ticks + 1);
    SameLentBacked(s, s0);
    WakeAllBacked(s0, false);
    var w := WakeAll(s0, false);
    SameLentBacked(w.0, w.0.(slice := w.0.slice + 1));
    YieldBacked(w.0.(slice := w.0.slice + 1));
  }

  lemma InitBacked(s: State, e: Event)
    requires Backed(s) && (e.ESemaInit? || e.ELockInit?)
    ensures Backed(Step(s, e).value)
  {
    NoMoreLentBacked(s, Step(s, e).value);
  }

  /** The facts about the running thread and its lock that the steps need. */
  lemma FreeCarriesNothing(s: State, l: LockId)
    requires Inv(s) && l in s.locks && s.semas[LockSema(l)].value > 0
    ensures GetLock(s.locks, l).donate == PRI_MIN
  {
    assert LockSemaOk(s.locks[l], s.semas[LockSema(l)]);
  }

  lemma RunningWaits(s: State)
    requires Inv(s)
    ensures s.running in s.threads && Current(s).waiting == LockOf(Current(s).downing)
    ensures Current(s).downing.Some? ==> Current(s).downing.value in s.semas
    ensures forall l :: LockSema(l) in s.semas ==> l in s.locks
  {
  }

  lemma ResumeBacked(s: State, r: SemaRef)
    requires Inv(s) && Backed(s) && Current(s).downing == Some(r)
    ensures Backed(TestOrPark(s, r))
  {
    RunningWaits(s);
    if r.LockSema? && s.semas[r].value > 0 {
      FreeCarriesNothing(s, r.lock);
    }
    hide Inv;
    TestOrParkBacked(s, r);
  }

  lemma LockStepBacked(s: State, e: Event)
    requires Inv(s) && Backed(s) && Enabled(s, e) && Step(s, e).Some? && (e.ELockAcquire? || e.ELockTryAcquire?)
    ensures Backed(Step(s, e).value)
  {
    RunningWaits(s);
    var l := e.lock;
    if s.semas[LockSema(l)].value > 0 {
      FreeCarriesNothing(s, l);
    }
    hide Inv, LockAcquire, Take, Backed;
    if e.ELockAcquire? {
      AcquireBacked(s, l);
    } else if s.semas[LockSema(l)].value > 0 {
      TakeBacked(s, LockSema(l));
    }
  }

  lemma StepKeepsBacked(s: State, e: Event)
    requires Inv(s) && Backed(s) && Enabled(s, e) && Step(s, e).Some?
    ensures Backed(Step(s, e).value)
  {
    RunningWaits(s);
    hide Inv, Backed, Create, Yield, Exit, SetPriority, TestOrPark, Take, SemaUp, LockAcquire, LockRelease, Sleep, Tick, Schedule;
    match e
    case ECreate(t, p) => CreateBacked(s, t, p);
    case EYield => YieldBacked(s);
    case EExit => ExitBacked(s);
    case ESetPriority(p) => SetPriorityBacked(s, p);
    case ESemaDown(i) => TestOrParkBacked(s, Named(i));
    case ESemaTryDown(i) => if s.semas[Named(i)].value > 0 { TakeBacked(s, Named(i)); }
    case ESemaUp(i) => SemaUpBacked(s, Named(i));
    case ELockAcquire(_) => LockStepBacked(s, e);
    case ELockTryAcquire(_) => LockStepBacked(s, e);
    case ELockRelease(l) => ReleaseBacked(s, l);
    case ESleep(x) => SleepBacked(s, x);
    case ETick => TickBacked(s);
    case EResume => ResumeBacked(s, Current(s).downing.value);
    case EIdle => IdleBacked(s);
    case _ => InitBacked(s, e);
  }

  lemma SemaUpBacked(s: State, r: SemaRef)
    requires Backed(s)
    ensures Backed(SemaUp(s, r))
  {
    hide Signal, Yield;
    SignalBacked(s, r);
    YieldBacked(Signal(s, r));
  }

  lemma IdleBacked(s: State)
    requires Backed(s)
    ensures Backed(Schedule(SetRunning(s, Current(s).(status := Blocked))))
  {
    RunningBacked(s, Current(s).(status := Blocked));
    ScheduleBacked(SetRunning(s, Current(s).(status := Blocked)));
  }
}
