/** The alarm clock: when sleeping threads wake up. */
module KernelClock {
  import opened Common
  import opened HeapModel
  import opened KernelModel
  import opened KernelInvariant
  import opened KernelOperations
  import opened KernelTheorems

  function WakeTimeOf(s: State, t: Tid): int {
    Get(s.threads, t).wakeTime
  }

  /** No time passes and no sleeper leaves the sleep heap. */
  ghost predicate Undisturbed(s: State, s': State) {
    && s'.ticks == s.ticks
    && forall t :: t in s.sleepers ==> t in s'.sleepers && WakeTimeOf(s', t) == WakeTimeOf(s, t)
  }

  lemma UndisturbedTransitive(s: State, s1: State, s2: State)
    requires Undisturbed(s, s1) && Undisturbed(s1, s2)
    ensures Undisturbed(s, s2)
  {
  }

  lemma EnqueueUndisturbed(s: State, t: Tid)
    ensures Undisturbed(s, Enqueue(s, t))
  {
    hide Push, ReadyLess;
  }

  lemma ScheduleUndisturbed(s: State)
    ensures Undisturbed(s, Schedule(s))
  {
    hide Pop, ReadyLess;
  }

  lemma YieldUndisturbed(s: State)
    ensures Undisturbed(s, Yield(s))
  {
    ScheduleUndisturbed(Requeue(s));
    assert Undisturbed(s, Requeue(s));
  }

  lemma SignalUndisturbed(s: State, r: SemaRef)
    ensures Undisturbed(s, Signal(s, r))
  {
  }

  lemma SemaUpUndisturbed(s: State, r: SemaRef)
    ensures Undisturbed(s, SemaUp(s, r))
  {
    SignalUndisturbed(s, r);
    YieldUndisturbed(Signal(s, r));
    UndisturbedTransitive(s, Signal(s, r), SemaUp(s, r));
  }

  lemma TestOrParkUndisturbed(s: State, r: SemaRef)
    ensures Undisturbed(s, TestOrPark(s, r))
  {
    if GetSema(s.semas, r).value == 0 {
      ScheduleUndisturbed(Park(s, r));
    }
  }

  lemma CreateUndisturbed(s: State, t: Tid, p: int)
    requires t !in s.sleepers
    ensures Undisturbed(s, Create(s, t, p))
  {
    var s0 := s.(threads := s.threads[t := NewThread(p)]);
    EnqueueUndisturbed(s0, t);
    UndisturbedTransitive(s, s0, Enqueue(s0, t));
    if p > Current(s).priority {
      YieldUndisturbed(Enqueue(s0, t));
      UndisturbedTransitive(s, Enqueue(s0, t), Create(s, t, p));
    }
  }

  lemma SetPriorityUndisturbed(s: State, p: int)
    ensures Undisturbed(s, SetPriority(s, p))
  {
    var cur := Current(s);
    var s1 := SetRunning(s, cur.(base := p, priority := if cur.priority < p || cur.held == [] then p else cur.priority));
    YieldUndisturbed(s1);
    UndisturbedTransitive(s, s1, Yield(s1));
  }

  lemma ReleaseUndisturbed(s: State, l: LockId)
    ensures Undisturbed(s, LockRelease(s, l))
  {
    SemaUpUndisturbed(Relinquish(s, l), LockSema(l));
    UndisturbedTransitive(s, Relinquish(s, l), LockRelease(s, l));
  }

  lemma AcquireUndisturbed(s: State, l: LockId)
    requires Inv(s) && Enabled(s, ELockAcquire(l)) && LockAcquire(s, l).Some?
    ensures Undisturbed(s, LockAcquire(s, l).value)
  {
    hide Undisturbed, Schedule, Park, SortReady, Donate, Take;
    if s.semas[LockSema(l)].value == 0 {
      var s1 := Donate(Wanting(s, l), s.running, 0).value;
      AcquireRaises(s, l);
      RaisedUndisturbed(s, l, s1);
      BlockUndisturbed(s1, LockSema(l));
      UndisturbedTransitive(s, s1, Schedule(Park(SortReady(s1), LockSema(l))));
    } else {
      TestOrParkUndisturbed(s, LockSema(l));
    }
  }

  lemma RaisedUndisturbed(s: State, l: LockId, s1: State)
    requires s.running in s.threads && OnlyRaised(Wanting(s, l), s1)
    ensures Undisturbed(s, s1)
  {
    forall t | t in s.sleepers
      ensures WakeTimeOf(s1, t) == WakeTimeOf(s, t)
    {
      assert t in s1.threads <==> t in s.threads;
    }
  }

  lemma BlockUndisturbed(s: State, r: SemaRef)
    ensures Undisturbed(s, Schedule(Park(SortReady(s), r)))
  {
    hide Rebuild, Pop, ReadyLess;
  }

  lemma SleepUndisturbed(s: State, x: int)
    requires s.running !in s.sleepers
    ensures Undisturbed(s, Sleep(s, x))
  {
    if x >= 0 {
      forall t: Tid | t in s.sleepers
        ensures t in Doze(s, x).sleepers
      {
        PushMember(s.sleepers, s.running, SleepLess(Doze(s, x).threads), t);
      }
      ScheduleUndisturbed(Doze(s, x));
      UndisturbedTransitive(s, Doze(s, x), Sleep(s, x));
    }
  }

  /** The steps that involve no other thread than the running one. */
  lemma LocalStepUndisturbed(s: State, e: Event)
    requires s.running !in s.sleepers && Step(s, e).Some?
    requires e.EExit? || e.ESemaInit? || e.ESemaTryDown? || e.ELockInit? || e.ELockTryAcquire? || e.EIdle?
    ensures Undisturbed(s, Step(s, e).value)
  {
    match e
    case EExit =>
      var s1 := s.(threads := s.threads - {s.running});
      ScheduleUndisturbed(s1);
      UndisturbedTransitive(s, s1, Schedule(s1));
    case EIdle => ScheduleUndisturbed(SetRunning(s, Current(s).(status := Blocked)));
    case _ =>
  }

  /** Only a tick moves the clock or wakes a sleeper. */
  lemma OtherStepsUndisturbed(s: State, e: Event)
    requires Inv(s) && Enabled(s, e) && !e.ETick? && Step(s, e).Some?
    ensures Undisturbed(s, Step(s, e).value)
  {
    assert s.running !in s.sleepers;
    match e
    case ECreate(t, p) => CreateUndisturbed(s, t, p);
    case EYield => YieldUndisturbed(s);
    case ESetPriority(p) => SetPriorityUndisturbed(s, p);
    case ESemaDown(i) => TestOrParkUndisturbed(s, Named(i));
    case ESemaUp(i) => SemaUpUndisturbed(s, Named(i));
    case ELockAcquire(l) => AcquireUndisturbed(s, l);
    case ELockRelease(l) => ReleaseUndisturbed(s, l);
    case ESleep(x) => SleepUndisturbed(s, x);
    case EResume => TestOrParkUndisturbed(s, Current(s).downing.value);
    case _ => LocalStepUndisturbed(s, e);
  }

  // ---- Ticks ----------------------------------------------------------------------------

  /** What a tick leaves alone in thread t. */
  predicate SameSleeper(s: State, s': State, t: Tid) {
    && (t in s.threads <==> t in s'.threads)
    && Get(s'.threads, t).wakeTime == Get(s.threads, t).wakeTime
    && Get(s'.threads, t).downing == Get(s.threads, t).downing
  }

  /** timer_wake() removes from the sleep heap exactly the threads whose time has come. */
  lemma {:induction false} WakeAllExact(s: State, preempt: bool, t: Tid)
    requires SleepQueue(s) && Ordered(s.sleepers, SleepLess(s.threads)) && ReadyQueue(s) && HeapsOrdered(s) && IdleThread(s)
    ensures var s' := WakeAll(s, preempt).0;
            && s'.ticks == s.ticks && s'.idle == s.idle && SameSleeper(s, s', t)
            && (t in s'.sleepers <==> t in s.sleepers && WakeTimeOf(s, t) > s.ticks)
    decreases |s.sleepers|
  {
    if s.sleepers != [] {
      PopSleeper(s);
      if WakeTimeOf(s, s.sleepers[0]) <= s.ticks {
        assert s.sleepers[0] in s.sleepers;
        PopKeeps(s.sleepers, SleepLess(s.threads));
        WakeTopLists(s);
        WakeAllExact(WakeTop(s), preempt || Get(s.threads, s.sleepers[0]).priority > Current(s).priority, t);
      }
    }
  }

  lemma ScheduleSame(s: State, t: Tid)
    requires s.idle in s.threads && (s.ready != [] ==> s.ready[0] in s.threads)
    ensures var s' := Schedule(s);
            s'.ticks == s.ticks && s'.sleepers == s.sleepers && s'.idle == s.idle && SameSleeper(s, s', t)
  {
  }

  lemma EndTickSame(s: State, preempt: bool, t: Tid)
    requires Waking(s, preempt)
    ensures var s' := EndTick(s, preempt);
            s'.ticks == s.ticks && s'.sleepers == s.sleepers && s'.idle == s.idle && SameSleeper(s, s', t)
  {
    hide Waking, Schedule, Enqueue;
    var s1 := s.(slice := s.slice + 1);
    ClockFrame(s, s1, preempt);
    RequeueSame(s1, preempt, t);
    ScheduleSame(Requeue(s1), t);
  }

  lemma RequeueSame(s: State, preempt: bool, t: Tid)
    requires Waking(s, preempt)
    ensures var s' := Requeue(s);
            && s'.ticks == s.ticks && s'.sleepers == s.sleepers && s'.idle == s.idle && SameSleeper(s, s', t)
            && s'.idle in s'.threads && (s'.ready != [] ==> s'.ready[0] in s'.threads)
  {
    hide Push, ReadyLess;
    RequeueQueue(s);
    var s' := Requeue(s);
    assert s'.ready != [] ==> s'.ready[0] in s'.ready;
  }

  /** A tick advances the clock by one and wakes exactly the threads due by then. */
  lemma TickWakesExactly(s: State, t: Tid)
    requires Inv(s)
    ensures var s' := Tick(s);
            && s'.ticks == s.ticks + 1 && WakeTimeOf(s', t) == WakeTimeOf(s, t)
            && (t in s'.sleepers <==> t in s.sleepers && WakeTimeOf(s, t) > s.ticks + 1)
            && (t in s.sleepers && t !in s'.sleepers ==> t in s'.threads && s'.threads[t].status != Blocked)
  {
    var s0 := s.(ticks := s.ticks + 1);
    var w := WakeAll(s0, false);
    assert SleepQueue(s0) && HeapsOrdered(s0) && ReadyQueue(s0) && IdleThread(s0);
    WakeAllExact(s0, false, t);
    assert Waking(w.0, w.1) by {
      WakingAll(s);
    }
    EndTickSame(w.0, w.1, t);
    TickAwake(s, t);
  }

  lemma TickAwake(s: State, t: Tid)
    requires Inv(s) && Tick(s).idle == s.idle && SameSleeper(s, Tick(s), t)
    ensures t in s.sleepers && t !in Tick(s).sleepers ==> t in Tick(s).threads && Tick(s).threads[t].status != Blocked
  {
    assert SleepQueue(Tick(s)) by {
      TickKeeps(s);
    }
  }

  // ---- The alarm clock ------------------------------------------------------------------

  /** A thread that calls timer_sleep(x) joins the sleep heap until time ticks + x. */
  lemma SleepStarts(s: State, x: int)
    requires Inv(s) && x >= 0
    ensures var s' := Sleep(s, x);
            s.running in s'.sleepers && WakeTimeOf(s', s.running) == s.ticks + x && s'.ticks == s.ticks
  {
    PushMember(s.sleepers, s.running, SleepLess(Doze(s, x).threads), s.running);
  }

  /** Over any run, a thread that went to sleep for x ticks at time `now` stays asleep in
      every state whose clock is below now + max(x, 1), and the tick that brings the clock
      there unblocks it. */
  lemma {:induction false} AlarmClock(trace: seq<State>, events: seq<Event>, i: nat, k: nat, t: Tid, x: int)
    requires IsRun(trace, events) && Inv(trace[0]) && i < k < |trace|
    requires events[i] == ESleep(x) && x >= 0 && t == trace[i].running
    ensures trace[i].ticks <= trace[k].ticks
    ensures trace[k].ticks < trace[i].ticks + Max(x, 1) ==>
              t in trace[k].sleepers && WakeTimeOf(trace[k], t) == trace[i].ticks + x
    ensures trace[k].ticks == trace[i].ticks + Max(x, 1) && events[k - 1] == ETick ==>
              && t in trace[k - 1].sleepers && t !in trace[k].sleepers
              && t in trace[k].threads && trace[k].threads[t].status != Blocked
  {
    hide Inv, Enabled, Step, Sleep, Tick;
    var s, e := trace[k - 1], events[k - 1];
    EveryRunKeepsInv(trace, events, k - 1);
    assert StepsAt(trace, events, k - 1);
    StepsToFunctions(s, x);
    if k == i + 1 {
      SleepStarts(s, x);
    } else {
      AlarmClock(trace, events, i, k - 1, t, x);
      if e.ETick? {
        TickWakesExactly(s, t);
      } else {
        OtherStepsUndisturbed(s, e);
      }
    }
  }

  lemma StepsToFunctions(s: State, x: int)
    ensures Step(s, ESleep(x)) == Some(Sleep(s, x)) && Step(s, ETick) == Some(Tick(s))
  {
  }

  // ---- Time slices ----------------------------------------------------------------------

  lemma {:induction false} WakeAllSlice(s: State, preempt: bool)
    ensures WakeAll(s, preempt).0.slice == s.slice
    decreases |s.sleepers|
  {
    hide Push, ReadyLess;
    if s.sleepers != [] && Get(s.threads, s.sleepers[0]).wakeTime <= s.ticks {
      WakeTopShorter(s);
      WakeAllSlice(WakeTop(s), preempt || Get(s.threads, s.sleepers[0]).priority > Current(s).priority);
    }
  }

  lemma {:induction false} DonateSlice(s: State, t: Tid, dep: int)
    ensures Donate(s, t, dep).Some? ==> Donate(s, t, dep).value.slice == s.slice
    decreases DONATE_MAX_DEPTH + 1 - dep
  {
    var donor := Get(s.threads, t);
    if dep <= DONATE_MAX_DEPTH && donor.waiting.Some? {
      var l := donor.waiting.value;
      var lock := GetLock(s.locks, l);
      if lock.donate < donor.priority && lock.holder.Some? {
        var h := lock.holder.value;
        var holder := Get(s.threads, h);
        DonateSlice(s.(locks := s.locks[l := lock.(donate := donor.priority)],
                       threads := s.threads[h := holder.(priority := Max(holder.priority, donor.priority))]),
                    h, dep + 1);
      }
    }
  }

  lemma YieldSlice(s: State)
    ensures Yield(s).slice == 0
  {
    hide Push, Pop, ReadyLess;
  }

  /** A tick uses up part of the time slice, or ends it. */
  lemma TickSlice(s: State)
    requires s.slice < 4
    ensures Tick(s).slice == 0 || Tick(s).slice == s.slice + 1 < 4
  {
    hide Yield, WakeAll;
    var w := WakeAll(s.(ticks := s.ticks + 1), false);
    WakeAllSlice(s.(ticks := s.ticks + 1), false);
    YieldSlice(w.0.(slice := w.0.slice + 1));
  }

  lemma AcquireSlice(s: State, l: LockId)
    requires LockAcquire(s, l).Some?
    ensures LockAcquire(s, l).value.slice == s.slice || LockAcquire(s, l).value.slice == 0
  {
    hide Donate, Rebuild, Pop, ReadyLess;
    DonateSlice(SetRunning(s, Current(s).(waiting := Some(l))), s.running, 0);
  }

  lemma SwitchSlices(s: State)
    ensures Schedule(s).slice == 0
    ensures forall r: SemaRef :: TestOrPark(s, r).slice == s.slice || TestOrPark(s, r).slice == 0
  {
    hide Pop, ReadyLess;
  }

  /** No step but a tick uses up a time slice. */
  lemma StepSlice(s: State, e: Event)
    requires Step(s, e).Some? && s.slice < 4
    ensures var slice := Step(s, e).value.slice;
            slice == 0 || slice == s.slice || (e == ETick && slice == s.slice + 1 < 4)
  {
    hide Yield, Schedule, TestOrPark, LockAcquire, Tick, Push, ReadyLess, Recomputed, MaxIndex;
    match e
    case ECreate(t, p) =>
      YieldSlice(Enqueue(s.(threads := s.threads[t := NewThread(p)]), t));
    case EYield => YieldSlice(s);
    case EExit => SwitchSlices(s.(threads := s.threads - {s.running}));
    case ESetPriority(p) =>
      var cur := Current(s);
      var priority := if cur.priority < p || cur.held == [] then p else cur.priority;
      YieldSlice(SetRunning(s, cur.(base := p, priority := priority)));
    case ESemaDown(i) => SwitchSlices(s);
    case ESemaUp(i) => YieldSlice(Signal(s, Named(i)));
    case ELockAcquire(l) => AcquireSlice(s, l);
    case ELockRelease(l) => YieldSlice(Signal(Relinquish(s, l), LockSema(l)));
    case ESleep(x) => SwitchSlices(Doze(s, x));
    case ETick => TickSlice(s);
    case EResume => SwitchSlices(s);
    case EIdle => SwitchSlices(SetRunning(s, Current(s).(status := Blocked)));
    case _ =>
  }

  /** In every run, no thread is ever left running for four ticks without a rescheduling. */
  lemma {:induction false} EveryRunSliced(trace: seq<State>, events: seq<Event>, n: nat)
    requires IsRun(trace, events) && trace[0].slice == 0 && n < |trace|
    ensures trace[n].slice < 4
  {
    hide Enabled, Step;
    if n > 0 {
      EveryRunSliced(trace, events, n - 1);
      assert StepsAt(trace, events, n - 1);
      StepSlice(trace[n - 1], events[n - 1]);
    }
  }
}
