/** The stamps of the ready queue: while the push counter fits an int, queued threads carry distinct
    stamps of pushes already made, and the scheduler takes them first in, first out. */
module KernelRuns {
  import opened Common
  import opened HeapModel
  import opened KernelModel
  import opened KernelInvariant
  import opened KernelOperations
  import opened KernelTheorems

  // ---- First in, first out --------------------------------------------------------------

  ghost predicate DistinctStamps(s: State) {
    forall t, u :: t in s.ready && u in s.ready && t != u ==>
                   Get(s.threads, t).entryOrd != Get(s.threads, u).entryOrd
  }

  /** Queued threads carry distinct stamps of pushes already made. */
  ghost predicate Stamped(s: State) {
    DistinctStamps(s) && forall t :: t in s.ready ==> 0 <= Get(s.threads, t).entryOrd < s.pushCnt
  }

  /** entry_ord is an int; the conversion from the int64_t counter wraps here. */
  const STAMP_LIMIT: nat := 0x8000_0000

  ghost predicate SameStamps(s: State, s': State) {
    && s.pushCnt <= s'.pushCnt
    && forall t :: t in s'.ready ==> t in s.ready && Get(s'.threads, t).entryOrd == Get(s.threads, t).entryOrd
  }

  lemma StampedFrame(s: State, s': State)
    requires Stamped(s) && SameStamps(s, s')
    ensures Stamped(s')
  {
  }

  lemma EnqueueStamped(s: State, t: Tid)
    requires Stamped(s) && s.pushCnt < STAMP_LIMIT
    ensures Stamped(Enqueue(s, t))
  {
    var s' := Enqueue(s, t);
    forall u: Tid | u in s'.ready
      ensures u == t || (u in s.ready && Get(s'.threads, u) == Get(s.threads, u))
    {
      PushMember(s.ready, t, ReadyLess(s'.threads), u);
    }
    assert Get(s'.threads, t).entryOrd == s.pushCnt;
  }

  lemma ScheduleStamped(s: State)
    requires Stamped(s)
    ensures Stamped(Schedule(s)) && Schedule(s).pushCnt == s.pushCnt
  {
    if s.ready != [] {
      PopKeeps(s.ready, ReadyLess(s.threads));
      assert forall u :: u in s.ready <==> u in multiset(s.ready);
      assert forall u :: u in Schedule(s).ready <==> u in multiset(Schedule(s).ready);
    }
    StampedFrame(s, Schedule(s));
  }

  lemma YieldStamped(s: State)
    requires Stamped(s) && Yield(s).pushCnt <= STAMP_LIMIT && s.running !in s.ready
    ensures Stamped(Yield(s)) && s.pushCnt <= Yield(s).pushCnt
  {
    if s.running != s.idle {
      EnqueueStamped(s, s.running);
      ScheduleStamped(Enqueue(s, s.running));
    } else {
      var s1 := SetRunning(s, Current(s).(status := Ready));
      StampedFrame(s, s1);
      ScheduleStamped(s1);
    }
  }

  lemma YieldPushes(s: State)
    ensures s.pushCnt <= Yield(s).pushCnt
  {
  }

  /** schedule() picks the one thread that is ahead of all others: larger priority first,
      among equals the one queued first. */
  lemma NextIsOldestOfHighest(s: State)
    requires ReadyQueue(s) && Ordered(s.ready, ReadyLess(s.threads)) && DistinctStamps(s) && s.ready != []
    ensures var t := Schedule(s).running;
            t in s.ready && forall u :: u in s.ready && u != t ==>
              var a, b := Get(s.threads, t), Get(s.threads, u);
              b.priority < a.priority || (b.priority == a.priority && a.entryOrd < b.entryOrd)
  {
    PopReady(s);
    var t := s.ready[0];
    assert t in s.ready;
    forall u | u in s.ready && u != t
      ensures var a, b := Get(s.threads, t), Get(s.threads, u);
              b.priority < a.priority || (b.priority == a.priority && a.entryOrd < b.entryOrd)
    {
      assert !ReadyLess(s.threads)(t, u);
    }
  }

  // ---- Stamps over runs -----------------------------------------------------------------

  lemma {:induction false} WakeAllStamped(s: State, preempt: bool)
    requires Stamped(s) && WakeAll(s, preempt).0.pushCnt <= STAMP_LIMIT
    ensures Stamped(WakeAll(s, preempt).0)
    decreases |s.sleepers|
  {
    if s.sleepers != [] && Get(s.threads, s.sleepers[0]).wakeTime <= s.ticks {
      PopKeeps(s.sleepers, SleepLess(s.threads));
      var p := preempt || Get(s.threads, s.sleepers[0]).priority > Current(s).priority;
      WakeAllPushes(WakeTop(s), p);
      EnqueueStamped(s.(sleepers := Pop(s.sleepers, SleepLess(s.threads))), s.sleepers[0]);
      WakeAllStamped(WakeTop(s), p);
    }
  }

  lemma {:induction false} WakeAllPushes(s: State, preempt: bool)
    ensures s.pushCnt <= WakeAll(s, preempt).0.pushCnt
    decreases |s.sleepers|
  {
    if s.sleepers != [] && Get(s.threads, s.sleepers[0]).wakeTime <= s.ticks {
      PopKeeps(s.sleepers, SleepLess(s.threads));
      WakeAllPushes(WakeTop(s), preempt || Get(s.threads, s.sleepers[0]).priority > Current(s).priority);
    }
  }

  lemma SignalStamped(s: State, r: SemaRef)
    requires Stamped(s) && s.running !in s.ready && OneRunning(s) && WaitLists(s) && r in s.semas
    requires Signal(s, r).pushCnt <= STAMP_LIMIT
    ensures Stamped(Signal(s, r)) && s.running !in Signal(s, r).ready
  {
    var q := s.semas[r];
    if q.waiters != [] {
      var i := MaxIndex(q.waiters, |q.waiters|, PriorityOf(s.threads));
      var s1 := s.(semas := s.semas[r := Sema(Increment(q.value), RemoveAt(q.waiters, i))]);
      assert q.waiters[i] in q.waiters;
      EnqueueStamped(s1, q.waiters[i]);
      PushMember(s.ready, q.waiters[i], ReadyLess(Signal(s, r).threads), s.running);
    }
  }

  lemma SemaUpStamped(s: State, r: SemaRef)
    requires Stamped(s) && s.running !in s.ready && OneRunning(s) && WaitLists(s) && r in s.semas
    requires SemaUp(s, r).pushCnt <= STAMP_LIMIT
    ensures Stamped(SemaUp(s, r))
  {
    SignalStamped(s, r);
    YieldStamped(Signal(s, r));
  }

  lemma CreateStamped(s: State, t: Tid, p: int)
    requires Stamped(s) && s.running !in s.ready && s.running != t && t !in s.ready
    requires Create(s, t, p).pushCnt <= STAMP_LIMIT
    ensures Stamped(Create(s, t, p))
  {
    var s0 := s.(threads := s.threads[t := NewThread(p)]);
    StampedFrame(s, s0);
    EnqueueStamped(s0, t);
    PushMember(s.ready, t, ReadyLess(Enqueue(s0, t).threads), s.running);
    if p > Current(s).priority {
      YieldStamped(Enqueue(s0, t));
    }
  }

  lemma TestOrParkStamped(s: State, r: SemaRef)
    requires Stamped(s) && s.running !in s.ready
    ensures Stamped(TestOrPark(s, r))
  {
    if GetSema(s.semas, r).value == 0 {
      StampedFrame(s, Park(s, r));
      ScheduleStamped(Park(s, r));
    } else {
      StampedFrame(s, Take(s, r));
    }
  }

  lemma DonateStamped(s: State, l: LockId)
    requires Inv(s) && Enabled(s, ELockAcquire(l)) && Donate(Wanting(s, l), s.running, 0).Some?
    ensures var s1 := Donate(Wanting(s, l), s.running, 0).value;
            SameStamps(s, s1) && s1.running == s.running && s1.ready == s.ready
  {
    hide Inv, Donate;
    AcquireRaises(s, l);
  }

  lemma BlockStamped(s: State, r: SemaRef)
    requires Stamped(s) && s.running !in s.ready
    ensures Stamped(Schedule(Park(SortReady(s), r)))
  {
    SortStamped(s);
    StampedFrame(SortReady(s), Park(SortReady(s), r));
    ScheduleStamped(Park(SortReady(s), r));
  }

  lemma LockAcquireStamped(s: State, l: LockId)
    requires Inv(s) && Enabled(s, ELockAcquire(l)) && Stamped(s) && LockAcquire(s, l).Some?
    ensures Stamped(LockAcquire(s, l).value)
  {
    if s.semas[LockSema(l)].value > 0 {
      TestOrParkStamped(s, LockSema(l));
    } else {
      var s1 := Donate(Wanting(s, l), s.running, 0).value;
      assert Stamped(s1) && s1.running !in s1.ready by {
        DonateStamped(s, l);
        StampedFrame(s, s1);
      }
      BlockStamped(s1, LockSema(l));
    }
  }

  lemma SortStamped(s: State)
    requires Stamped(s)
    ensures Stamped(SortReady(s)) && forall t :: t in SortReady(s).ready ==> t in s.ready
  {
    RebuildFromKeeps(s.ready, |s.ready|, ReadyLess(s.threads));
    forall t: Tid | t in SortReady(s).ready
      ensures t in s.ready
    {
      assert t in multiset(SortReady(s).ready);
    }
    StampedFrame(s, SortReady(s));
  }

  lemma EndTickPushes(s: State, preempt: bool)
    ensures s.pushCnt <= EndTick(s, preempt).pushCnt
  {
    YieldPushes(s.(slice := s.slice + 1));
  }

  lemma EndTickStamped(s: State, preempt: bool)
    requires Stamped(s) && s.running !in s.ready && EndTick(s, preempt).pushCnt <= STAMP_LIMIT
    ensures Stamped(EndTick(s, preempt))
  {
    var s1 := s.(slice := s.slice + 1);
    StampedFrame(s, s1);
    if preempt || s1.slice >= TIME_SLICE {
      YieldStamped(s1);
    }
  }

  lemma TickStamped(s: State)
    requires Inv(s) && Stamped(s) && Tick(s).pushCnt <= STAMP_LIMIT
    ensures Stamped(Tick(s))
  {
    hide EndTick, WakeAll;
    var s0 := s.(ticks := s.ticks + 1);
    var w := WakeAll(s0, false);
    assert w.0.running !in w.0.ready by {
      WakingAll(s);
    }
    StampedFrame(s, s0);
    EndTickPushes(w.0, w.1);
    WakeAllStamped(s0, false);
    EndTickStamped(w.0, w.1);
  }

  lemma ExitStamped(s: State)
    requires Stamped(s) && s.running !in s.ready
    ensures Stamped(Exit(s))
  {
    var s1 := s.(threads := s.threads - {s.running});
    StampedFrame(s, s1);
    ScheduleStamped(s1);
  }

  lemma SetPriorityStamped(s: State, p: int)
    requires Stamped(s) && s.running !in s.ready && SetPriority(s, p).pushCnt <= STAMP_LIMIT
    ensures Stamped(SetPriority(s, p))
  {
    var cur := Current(s);
    var s1 := SetRunning(s, cur.(base := p, priority := if cur.priority < p || cur.held == [] then p else cur.priority));
    StampedFrame(s, s1);
    if s1.threads[s.running].priority < cur.priority {
      YieldStamped(s1);
    }
  }

  lemma SleepStamped(s: State, x: int)
    requires Stamped(s) && s.running !in s.ready
    ensures Stamped(Sleep(s, x))
  {
    if x >= 0 {
      StampedFrame(s, Doze(s, x));
      ScheduleStamped(Doze(s, x));
    }
  }

  lemma IdleStamped(s: State)
    requires Stamped(s) && s.running !in s.ready
    ensures Stamped(Schedule(SetRunning(s, Current(s).(status := Blocked))))
  {
    var s1 := SetRunning(s, Current(s).(status := Blocked));
    StampedFrame(s, s1);
    ScheduleStamped(s1);
  }

  lemma QuietStamped(s: State, e: Event)
    requires Stamped(s) && s.running !in s.ready && Step(s, e).Some?
    requires e.ESemaInit? || e.ESemaTryDown? || e.ELockInit? || e.ELockTryAcquire?
    ensures Stamped(Step(s, e).value)
  {
    StampedFrame(s, Step(s, e).value);
  }

  /** The steps that queue nobody but the running thread. */
  lemma LocalStepStamped(s: State, e: Event)
    requires Stamped(s) && s.running !in s.ready && Step(s, e).Some? && Step(s, e).value.pushCnt <= STAMP_LIMIT
    requires !(e.ECreate? || e.ESemaUp? || e.ELockAcquire? || e.ELockRelease? || e.ETick?)
    ensures Stamped(Step(s, e).value)
  {
    hide Stamped, Exit, SetPriority, Sleep, Yield, Schedule, TestOrPark, Take;
    match e
    case EYield => YieldStamped(s);
    case EExit => ExitStamped(s);
    case ESetPriority(p) => SetPriorityStamped(s, p);
    case ESemaDown(i) => TestOrParkStamped(s, Named(i));
    case ESleep(x) => SleepStamped(s, x);
    case EResume => if Current(s).downing.Some? { TestOrParkStamped(s, Current(s).downing.value); }
    case EIdle => IdleStamped(s);
    case _ => QuietStamped(s, e);
  }

  lemma ReleaseStamped(s: State, l: LockId)
    requires Inv(s) && Enabled(s, ELockRelease(l)) && Stamped(s) && LockRelease(s, l).pushCnt <= STAMP_LIMIT
    ensures Stamped(LockRelease(s, l))
  {
    var s1 := Relinquish(s, l);
    StampedFrame(s, s1);
    assert OneRunning(s1) && WaitLists(s1) by {
      RelinquishKeeps(s, l);
    }
    SemaUpStamped(s1, LockSema(l));
  }

  /** Every step keeps the stamps in order while the counter fits an int. */
  lemma StepKeepsStamped(s: State, e: Event)
    requires Inv(s) && Enabled(s, e) && Stamped(s) && Step(s, e).Some? && Step(s, e).value.pushCnt <= STAMP_LIMIT
    ensures Stamped(Step(s, e).value)
  {
    assert s.running !in s.ready;
    if e.ECreate? {
      CreateStamped(s, e.tid, e.priority);
    } else if e.ESemaUp? {
      SemaUpStamped(s, Named(e.id));
    } else if e.ELockAcquire? {
      LockAcquireStamped(s, e.lock);
    } else if e.ELockRelease? {
      ReleaseStamped(s, e.lock);
    } else if e.ETick? {
      TickStamped(s);
    } else {
      LocalStepStamped(s, e);
    }
  }

  /** In every run from boot in which fewer than 2^31 threads have been queued, queued
      threads are stamped in order. */
  lemma {:induction false} EveryRunStamped(trace: seq<State>, events: seq<Event>, n: nat)
    requires IsRun(trace, events) && Inv(trace[0]) && Stamped(trace[0]) && n < |trace|
    requires forall i :: 0 <= i <= n ==> trace[i].pushCnt <= STAMP_LIMIT
    ensures Stamped(trace[n])
  {
    hide Inv, Enabled, Step, Stamped;
    if n > 0 {
      EveryRunStamped(trace, events, n - 1);
      EveryRunKeepsInv(trace, events, n - 1);
      assert StepsAt(trace, events, n - 1);
      StepKeepsStamped(trace[n - 1], events[n - 1]);
    }
  }
}
