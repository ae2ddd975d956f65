/** Who keeps the CPU: exactly when each operation calls the scheduler, what becomes of the thread
    that gives way, and that a thread nobody outranks runs for a whole time slice. */
module KernelCpu {
  import opened Common
  import opened HeapModel
  import opened KernelModel
  import opened KernelInvariant
  import opened KernelSteps
  import opened KernelOperations
  import opened KernelTheorems
  import opened KernelTurns
  import opened KernelClock

  /** A sleeper that is due by the time `now` has a higher priority than the running thread. */
  ghost predicate DueAbove(s: State, now: int) {
    exists t :: t in s.sleepers && Get(s.threads, t).wakeTime <= now && Get(s.threads, t).priority > Current(s).priority
  }

  /** The event takes the CPU from the running thread, if only to choose it again. */
  ghost predicate Reschedules(s: State, e: Event) {
    match e
    case ECreate(_, p) => p > Current(s).priority
    case ESetPriority(p) => p < Current(s).priority && Current(s).held == []
    case ESemaInit(_, _) => false
    case ESemaDown(i) => GetSema(s.semas, Named(i)).value == 0
    case ESemaTryDown(_) => false
    case ELockInit(_) => false
    case ELockAcquire(l) => GetLock(s.locks, l).holder.Some?
    case ELockTryAcquire(_) => false
    case ESleep(x) => x >= 0
    case ETick => s.slice + 1 >= 4 || DueAbove(s, s.ticks + 1)
    case EResume => Current(s).downing.Some? && GetSema(s.semas, Current(s).downing.value).value == 0
    case EYield => true
    case EExit => true
    case ESemaUp(_) => true
    case ELockRelease(_) => true
    case EIdle => true
  }

  /** The event queues the running thread when it takes the CPU from it. */
  predicate Requeues(e: Event) {
    e.ECreate? || e.EYield? || e.ESetPriority? || e.ESemaUp? || e.ELockRelease? || e.ETick?
  }

  /** The semaphore the event may block on. */
  function BlocksOn(s: State, e: Event): Option<SemaRef> {
    match e
    case ESemaDown(i) => Some(Named(i))
    case ELockAcquire(l) => Some(LockSema(l))
    case EResume => Current(s).downing
    case _ => None
  }

  /** How many threads the event makes ready. */
  function Unblocked(s: State, e: Event, s': State): int {
    match e
    case ECreate(_, _) => 1
    case ESemaUp(i) => if GetSema(s.semas, Named(i)).waiters == [] then 0 else 1
    case ELockRelease(l) => if GetSema(s.semas, LockSema(l)).waiters == [] then 0 else 1
    case ETick => |s.sleepers| - |s'.sleepers|
    case _ => 0
  }

  /** The running thread goes on, with its stamp and what is left of its time slice. */
  ghost predicate RunsOn(s: State, e: Event, s': State) {
    var was, now := Current(s), Get(s'.threads, s.running);
    && s'.running == s.running && now.status == Running && now.entryOrd == was.entryOrd && now.downing.None?
    && s'.slice == s.slice + (if e == ETick then 1 else 0)
    && s'.pushCnt == s.pushCnt + Unblocked(s, e, s')
  }

  /** The running thread gives way, and a new time slice begins.  It is queued behind all others, waits
      for a semaphore, sleeps, or is gone. */
  ghost predicate GivesWay(s: State, e: Event, s': State) {
    var now := Get(s'.threads, s.running);
    var queued := if Requeues(e) && s.running != s.idle then 1 else 0;
    && s'.slice == 0 && s'.pushCnt == s.pushCnt + Unblocked(s, e, s') + queued
    && (queued == 1 ==> now.status != Blocked && now.entryOrd == Int32(s'.pushCnt - 1))
    && (BlocksOn(s, e).Some? ==> s'.running != s.running && now.status == Blocked && now.downing == BlocksOn(s, e))
    && (e.ESleep? ==> s'.running != s.running && now.status == Blocked && now.wakeTime == s.ticks + e.duration)
    && (e.EExit? ==> s.running !in s'.threads)
  }

  // ---- The parts --------------------------------------------------------------------------------

  lemma ScheduleIs(s: State, t: Tid)
    ensures var s' := Schedule(s);
            && s'.slice == 0 && s'.pushCnt == s.pushCnt && s'.sleepers == s.sleepers && s'.ticks == s.ticks
            && Get(s'.threads, t) == (if t == s'.running then Get(s.threads, t).(status := Running) else Get(s.threads, t))
            && (t !in s.ready && t != s.idle ==> s'.running != t)
            && (t != s'.running ==> (t in s'.threads <==> t in s.threads))
  {
    hide Pop, ReadyLess;
    assert s.ready != [] ==> s.ready[0] in s.ready;
  }

  lemma EnqueueIs(s: State, t: Tid, u: Tid)
    ensures var s' := Enqueue(s, t);
            && s'.pushCnt == s.pushCnt + 1 && s'.running == s.running && s'.idle == s.idle && s'.slice == s.slice
            && s'.sleepers == s.sleepers && s'.ticks == s.ticks
            && Get(s'.threads, u) == if u == t then Get(s.threads, t).(status := Ready, entryOrd := Int32(s.pushCnt))
                                     else Get(s.threads, u)
  {
    hide Push, ReadyLess, Int32;
  }

  /** thread_yield() */
  lemma YieldIs(s: State)
    ensures var s', now := Yield(s), Get(Yield(s).threads, s.running);
            && s'.slice == 0 && s'.sleepers == s.sleepers
            && s'.pushCnt == s.pushCnt + (if s.running != s.idle then 1 else 0)
            && (s.running != s.idle ==> now.status != Blocked && now.entryOrd == Int32(s.pushCnt))
  {
    hide Schedule, Enqueue, Int32;
    EnqueueIs(s, s.running, s.running);
    ScheduleIs(Requeue(s), s.running);
  }

  lemma CreateCpu(s: State, t: Tid, p: int)
    requires Inv(s) && Enabled(s, ECreate(t, p))
    ensures var e, s' := ECreate(t, p), Create(s, t, p);
            if Reschedules(s, e) then GivesWay(s, e, s') else RunsOn(s, e, s')
  {
    hide Inv, Yield, Enqueue, Int32;
    QueueFacts(s);
    InvOrderly(s);
    var s0 := s.(threads := s.threads[t := NewThread(p)]);
    EnqueueIs(s0, t, s.running);
    YieldIs(Enqueue(s0, t));
  }

  lemma SetPriorityCpu(s: State, p: int)
    requires Inv(s) && Enabled(s, ESetPriority(p))
    ensures var e, s' := ESetPriority(p), SetPriority(s, p);
            if Reschedules(s, e) then GivesWay(s, e, s') else RunsOn(s, e, s')
  {
    hide Inv, Yield, Int32;
    InvOrderly(s);
    var cur := Current(s);
    YieldIs(SetRunning(s, cur.(base := p, priority := if cur.priority < p || cur.held == [] then p else cur.priority)));
  }

  lemma SignalIs(s: State, r: SemaRef)
    ensures var s' := Signal(s, r);
            && s'.running == s.running && s'.idle == s.idle && s'.slice == s.slice
            && s'.pushCnt == s.pushCnt + if GetSema(s.semas, r).waiters == [] then 0 else 1
  {
    hide Push, ReadyLess, Int32, MaxIndex, PriorityOf;
  }

  lemma SemaUpCpu(s: State, s1: State, r: SemaRef, e: Event)
    requires s1.running == s.running && s1.idle == s.idle && s1.pushCnt == s.pushCnt && s1.semas == s.semas
    requires (e.ESemaUp? && r == Named(e.id)) || (e.ELockRelease? && r == LockSema(e.lock))
    ensures GivesWay(s, e, SemaUp(s1, r))
  {
    hide Signal, Yield, Int32;
    SignalIs(s1, r);
    YieldIs(Signal(s1, r));
  }

  lemma ParkCpu(s: State, s1: State, r: SemaRef, e: Event)
    requires s1.running == s.running && s1.idle == s.idle && s1.pushCnt == s.pushCnt && s.running !in s1.ready
    requires s.running != s.idle && BlocksOn(s, e) == Some(r)
    ensures GivesWay(s, e, Schedule(Park(s1, r)))
  {
    hide Schedule;
    ScheduleIs(Park(s1, r), s.running);
  }

  lemma TestOrParkCpu(s: State, r: SemaRef, e: Event)
    requires Inv(s) && s.running != s.idle && BlocksOn(s, e) == Some(r) && !e.ELockAcquire?
    ensures if GetSema(s.semas, r).value == 0 then GivesWay(s, e, TestOrPark(s, r)) else RunsOn(s, e, TestOrPark(s, r))
  {
    hide Inv, GivesWay, Schedule;
    QueueFacts(s);
    InvOrderly(s);
    if GetSema(s.semas, r).value == 0 {
      ParkCpu(s, s, r, e);
    }
  }

  lemma HeldIff(s: State, l: LockId)
    requires Inv(s) && l in s.locks
    ensures GetSema(s.semas, LockSema(l)).value == 0 <==> s.locks[l].holder.Some?
  {
    assert LockSemaOk(s.locks[l], s.semas[LockSema(l)]);
  }

  lemma AcquireCpu(s: State, l: LockId)
    requires Inv(s) && Enabled(s, ELockAcquire(l)) && LockAcquire(s, l).Some?
    ensures var e, s' := ELockAcquire(l), LockAcquire(s, l).value;
            if Reschedules(s, e) then GivesWay(s, e, s') else RunsOn(s, e, s')
  {
    hide Inv, Donate, GivesWay, Schedule, Park, Rebuild;
    QueueFacts(s);
    InvOrderly(s);
    HeldIff(s, l);
    if s.locks[l].holder.Some? {
      var s1 := Donate(Wanting(s, l), s.running, 0).value;
      AcquireRaises(s, l);
      DonatedStamps(s, l);
      RaisedStays(s, s1);
      ParkCpu(s, SortReady(s1), LockSema(l), ELockAcquire(l));
    }
  }

  lemma SleepCpu(s: State, x: int)
    requires Inv(s) && Enabled(s, ESleep(x))
    ensures var e, s' := ESleep(x), Sleep(s, x);
            if Reschedules(s, e) then GivesWay(s, e, s') else s' == s
  {
    hide Inv, Push, SleepLess, Schedule;
    QueueFacts(s);
    ScheduleIs(Doze(s, x), s.running);
  }

  lemma ExitCpu(s: State)
    requires Inv(s) && Enabled(s, EExit)
    ensures GivesWay(s, EExit, Exit(s))
  {
    hide Inv, Schedule;
    QueueFacts(s);
    ScheduleIs(s.(threads := s.threads - {s.running}), s.running);
  }

  // ---- The tick ---------------------------------------------------------------------------------

  lemma TopDue(s: State, preempt: bool)
    requires Waking(s, preempt) && s.sleepers != [] && Get(s.threads, s.sleepers[0]).wakeTime <= s.ticks
    ensures DueAbove(s, s.ticks) <==>
            Get(s.threads, s.sleepers[0]).priority > Current(s).priority || DueAbove(WakeTop(s), s.ticks)
    ensures WakeTop(s).pushCnt == s.pushCnt + 1 && WakeTop(s).slice == s.slice
    ensures WakeTop(s).running == s.running && WakeTop(s).idle == s.idle && WakeTop(s).ticks == s.ticks
    ensures Current(WakeTop(s)) == Current(s)
  {
    PopSleeper(s);
    assert s.sleepers[0] in s.sleepers;
    hide Push, Pop, ReadyLess, SleepLess, Int32;
    var s', top := WakeTop(s), s.sleepers[0];
    assert forall t :: t != top ==> Get(s'.threads, t) == Get(s.threads, t);
    assert Current(s') == Current(s);
    if t :| t in s.sleepers && Get(s.threads, t).wakeTime <= s.ticks && Get(s.threads, t).priority > Current(s).priority {
      assert t != top ==> t in s'.sleepers;
    }
    if t :| t in s'.sleepers && Get(s'.threads, t).wakeTime <= s.ticks && Get(s'.threads, t).priority > Current(s').priority {
      assert t in s.sleepers;
    }
  }

  lemma NoneDue(s: State, preempt: bool)
    requires Waking(s, preempt) && (s.sleepers == [] || Get(s.threads, s.sleepers[0]).wakeTime > s.ticks)
    ensures !DueAbove(s, s.ticks)
  {
    if s.sleepers != [] {
      PopSleeper(s);
    }
  }

  /** timer_wake() asks for a yield exactly when a sleeper that is due outranks the running thread. */
  lemma {:induction false} WakeAllIs(s: State, preempt: bool)
    requires Waking(s, preempt)
    ensures var (s', p) := WakeAll(s, preempt);
            && (p <==> preempt || DueAbove(s, s.ticks))
            && s'.running == s.running && s'.idle == s.idle && s'.slice == s.slice && Current(s') == Current(s)
            && s'.pushCnt == s.pushCnt + |s.sleepers| - |s'.sleepers|
    decreases |s.sleepers|
  {
    hide Waking, DueAbove, WakeTop, SleepLess;
    if s.sleepers != [] && Get(s.threads, s.sleepers[0]).wakeTime <= s.ticks {
      TopDue(s, preempt);
      WakeTopShorter(s);
      WakeTopKeeps(s, preempt);
      WakeAllIs(WakeTop(s), preempt || Get(s.threads, s.sleepers[0]).priority > Current(s).priority);
    } else {
      NoneDue(s, preempt);
    }
  }

  lemma EndTickIs(s: State, preempt: bool)
    requires Current(s).status == Running
    ensures var s', now := EndTick(s, preempt), Get(EndTick(s, preempt).threads, s.running);
            s'.sleepers == s.sleepers &&
            if preempt || s.slice + 1 >= 4 then
              && s'.slice == 0 && s'.pushCnt == s.pushCnt + (if s.running != s.idle then 1 else 0)
              && (s.running != s.idle ==> now.status != Blocked && now.entryOrd == Int32(s.pushCnt))
            else s'.running == s.running && s'.slice == s.slice + 1 && s'.pushCnt == s.pushCnt && now == Current(s)
  {
    hide Yield, Int32;
    YieldIs(s.(slice := s.slice + 1));
  }

  lemma DueNow(s: State)
    ensures DueAbove(s.(ticks := s.ticks + 1), s.ticks + 1) <==> DueAbove(s, s.ticks + 1)
  {
  }

  /** A tick takes the CPU from the running thread exactly when it is the fourth of its time slice, or
      a sleeper that is due outranks it. */
  lemma TickCpu(s: State)
    requires Inv(s) && Enabled(s, ETick)
    ensures if Reschedules(s, ETick) then GivesWay(s, ETick, Tick(s)) else RunsOn(s, ETick, Tick(s))
  {
    hide Inv, Waking, DueAbove, EndTick, WakeAll, GivesWay, RunsOn;
    InvOrderly(s);
    TickWaking(s);
    var s0 := s.(ticks := s.ticks + 1);
    var w := WakeAll(s0, false);
    WakeAllIs(s0, false);
    DueNow(s);
    EndTickIs(w.0, w.1);
    TickAdds(s, w.0, w.1, Tick(s));
  }

  /** The two halves of a tick together. */
  lemma TickAdds(s: State, w: State, preempt: bool, s': State)
    requires w.running == s.running && w.idle == s.idle && w.slice == s.slice && Current(w) == Current(s)
    requires Current(s).status == Running && Current(s).downing.None? && w.pushCnt == s.pushCnt + |s.sleepers| - |w.sleepers|
    requires s' == EndTick(w, preempt) && (preempt <==> DueAbove(s, s.ticks + 1))
    ensures if Reschedules(s, ETick) then GivesWay(s, ETick, s') else RunsOn(s, ETick, s')
  {
    hide DueAbove, EndTick, Int32;
    EndTickIs(w, preempt);
  }

  // ---- Every step -------------------------------------------------------------------------------

  lemma QuietCpu(s: State, e: Event)
    requires (e.ESemaInit? || e.ESemaTryDown? || e.ELockInit? || e.ELockTryAcquire?) && Step(s, e).Some? && Inv(s) && Enabled(s, e)
    ensures RunsOn(s, e, Step(s, e).value)
  {
    hide Inv;
    InvOrderly(s);
  }

  lemma IdleCpu(s: State)
    ensures GivesWay(s, EIdle, Schedule(SetRunning(s, Current(s).(status := Blocked))))
  {
    hide Schedule;
    ScheduleIs(SetRunning(s, Current(s).(status := Blocked)), s.running);
  }

  lemma ReleaseCpu(s: State, l: LockId)
    ensures GivesWay(s, ELockRelease(l), LockRelease(s, l))
  {
    hide SemaUp, GivesWay, Recomputed;
    SemaUpCpu(s, Relinquish(s, l), LockSema(l), ELockRelease(l));
  }

  lemma SleepRunsOn(s: State, x: int)
    requires Inv(s) && Enabled(s, ESleep(x)) && x < 0
    ensures RunsOn(s, ESleep(x), s)
  {
    InvOrderly(s);
  }

  lemma ResumeFacts(s: State)
    requires Inv(s) && Enabled(s, EResume)
    ensures s.running != s.idle && Current(s).downing.Some?
  {
  }

  /** Every step of the kernel leaves the CPU with the running thread, or takes it, exactly as
      Reschedules says; and then the thread is where it should be. */
  lemma StepCpu(s: State, e: Event)
    requires Inv(s) && Enabled(s, e) && Step(s, e).Some?
    ensures var s' := Step(s, e).value;
            if Reschedules(s, e) then GivesWay(s, e, s') else RunsOn(s, e, s')
  {
    hide GivesWay, RunsOn, Inv, Exit, SetPriority, TestOrPark, Sleep, SemaUp, LockRelease, LockAcquire, Tick, Create, Schedule,
         DueAbove;
    match e
    case ECreate(t, p) => CreateCpu(s, t, p);
    case EYield => YieldCpu(s);
    case EExit => ExitCpu(s);
    case ESetPriority(p) => SetPriorityCpu(s, p);
    case ESemaDown(i) => TestOrParkCpu(s, Named(i), e);
    case ESemaUp(i) => SemaUpCpu(s, s, Named(i), e);
    case ELockAcquire(l) => AcquireCpu(s, l);
    case ELockRelease(l) => ReleaseCpu(s, l);
    case ESleep(x) =>
      SleepCpu(s, x);
      if x < 0 {
        SleepRunsOn(s, x);
      }
    case ETick => TickCpu(s);
    case EResume =>
      ResumeFacts(s);
      TestOrParkCpu(s, Current(s).downing.value, e);
    case EIdle => IdleCpu(s);
    case _ => QuietCpu(s, e);
  }

  lemma YieldCpu(s: State)
    ensures GivesWay(s, EYield, Yield(s))
  {
    hide Yield, Int32;
    YieldIs(s);
  }

  /** thread_set_priority() that does not lower the effective priority, and timer_sleep() of a negative
      number: the thread runs on, and the latter changes nothing at all. */
  lemma HarmlessSteps(s: State, p: int, x: int)
    requires Inv(s)
    ensures Enabled(s, ESetPriority(p)) && (p >= Current(s).priority || Current(s).held != []) ==>
              RunsOn(s, ESetPriority(p), SetPriority(s, p))
    ensures x < 0 ==> Sleep(s, x) == s
  {
    hide Inv, SetPriority, RunsOn;
    if Enabled(s, ESetPriority(p)) {
      SetPriorityCpu(s, p);
    }
  }

  // ---- Time slices, over runs ---------------------------------------------------------------------

  /** Nobody takes the CPU from the running thread, and it does not give it up. */
  ghost predicate Undisputed(s: State, e: Event) {
    if e == ETick then !DueAbove(s, s.ticks + 1) else !Reschedules(s, e)
  }

  lemma StepTicks(s: State, e: Event)
    requires Inv(s) && Enabled(s, e) && Step(s, e).Some?
    ensures Step(s, e).value.ticks == s.ticks + if e == ETick then 1 else 0
  {
    if e == ETick {
      TickWakesExactly(s, s.running);
    } else {
      OtherStepsUndisturbed(s, e);
    }
  }

  /** In every run: a thread whose CPU nobody disputes keeps it, with its stamp, as long as less than four
      ticks of its time slice have passed, every tick counting once; and the fourth tick queues it. */
  lemma {:induction false} RunsItsSlice(trace: seq<State>, events: seq<Event>, i: nat, k: nat)
    requires IsRun(trace, events) && Inv(trace[0]) && i <= k < |trace|
    requires forall m :: i <= m < k ==> Undisputed(trace[m], events[m])
    requires trace[i].slice + trace[k].ticks - trace[i].ticks < 4
    ensures trace[k].running == trace[i].running && Current(trace[k]).entryOrd == Current(trace[i]).entryOrd
    ensures trace[k].slice == trace[i].slice + trace[k].ticks - trace[i].ticks
    ensures k < |events| && events[k] == ETick && trace[k].slice == 3 ==> GivesWay(trace[k], ETick, trace[k + 1])
    decreases k - i
  {
    hide Inv, Enabled, Step, GivesWay, DueAbove;
    if i < k {
      var s, e := trace[k - 1], events[k - 1];
      EveryRunKeepsInv(trace, events, k - 1);
      assert StepsAt(trace, events, k - 1);
      StepTicks(s, e);
      RunsItsSlice(trace, events, i, k - 1);
      StepCpu(s, e);
    }
    if k < |events| && events[k] == ETick && trace[k].slice == 3 {
      EveryRunKeepsInv(trace, events, k);
      assert StepsAt(trace, events, k);
      StepCpu(trace[k], ETick);
    }
  }
}
