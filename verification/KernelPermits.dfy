/** Accounting for semaphores over runs. */
module KernelPermits {
  import opened Common
  import opened HeapModel
  import opened KernelModel
  import opened KernelInvariant
  import opened KernelOperations
  import opened KernelTheorems

  function ValueOf(s: State, r: SemaRef): nat {
    GetSema(s.semas, r).value
  }

  /** sema_up() calls of event e on r. */
  function Ups(e: Event, r: SemaRef): nat {
    if (e.ESemaUp? && r == Named(e.id)) || (e.ELockRelease? && r == LockSema(e.lock)) then 1 else 0
  }

  /** The semaphore whose value event e tests, if any. */
  function Tested(s: State, e: Event): Option<SemaRef> {
    match e
    case ESemaDown(i) => Some(Named(i))
    case ESemaTryDown(i) => Some(Named(i))
    case ELockAcquire(l) => Some(LockSema(l))
    case ELockTryAcquire(l) => Some(LockSema(l))
    case EResume => Current(s).downing
    case _ => None
  }

  /** Downs on r that event e completes. */
  function Downs(s: State, e: Event, r: SemaRef): nat {
    if Tested(s, e) == Some(r) && ValueOf(s, r) > 0 then 1 else 0
  }

  /** Ups of event e that carry r's value past the largest unsigned int. */
  function Overflows(s: State, e: Event, r: SemaRef): nat {
    if Ups(e, r) == 1 && ValueOf(s, r) == UINT_RANGE - 1 then 1 else 0
  }

  lemma ScheduleValues(s: State)
    ensures Schedule(s).semas == s.semas && Yield(s).semas == s.semas
  {
    hide Push, Pop, ReadyLess;
  }

  lemma {:induction false} WakeAllValues(s: State, preempt: bool)
    ensures WakeAll(s, preempt).0.semas == s.semas
    decreases |s.sleepers|
  {
    if s.sleepers != [] && Get(s.threads, s.sleepers[0]).wakeTime <= s.ticks {
      PopKeeps(s.sleepers, SleepLess(s.threads));
      WakeAllValues(WakeTop(s), preempt || Get(s.threads, s.sleepers[0]).priority > Current(s).priority);
    }
  }

  lemma TickValues(s: State)
    ensures Tick(s).semas == s.semas
  {
    hide WakeAll, Yield;
    var w := WakeAll(s.(ticks := s.ticks + 1), false);
    WakeAllValues(s.(ticks := s.ticks + 1), false);
    ScheduleValues(w.0.(slice := w.0.slice + 1));
  }

  lemma SemaUpValue(s: State, x: SemaRef, r: SemaRef)
    requires r in s.semas
    ensures ValueOf(SemaUp(s, x), r) == if r == x then Increment(ValueOf(s, r)) else ValueOf(s, r)
    ensures r in SemaUp(s, x).semas
  {
    ScheduleValues(Signal(s, x));
  }

  lemma TestOrParkValue(s: State, x: SemaRef, r: SemaRef)
    requires r in s.semas
    ensures ValueOf(TestOrPark(s, x), r) == ValueOf(s, r) - (if r == x && ValueOf(s, r) > 0 then 1 else 0)
    ensures r in TestOrPark(s, x).semas
  {
    if ValueOf(s, x) == 0 {
      ScheduleValues(Park(s, x));
    }
  }

  lemma AcquireValue(s: State, l: LockId, r: SemaRef)
    requires Inv(s) && Enabled(s, ELockAcquire(l)) && LockAcquire(s, l).Some? && r in s.semas
    ensures var s' := LockAcquire(s, l).value;
            r in s'.semas && ValueOf(s', r) == ValueOf(s, r) - Downs(s, ELockAcquire(l), r)
  {
    hide Inv, Donate, Take, Schedule, Park, SortReady;
    if ValueOf(s, LockSema(l)) > 0 {
      TestOrParkValue(s, LockSema(l), r);
    } else {
      var s1 := Donate(Wanting(s, l), s.running, 0).value;
      assert s1.semas == s.semas by {
        AcquireRaises(s, l);
      }
      BlockValue(s1, LockSema(l), r);
    }
  }

  lemma BlockValue(s: State, x: SemaRef, r: SemaRef)
    requires r in s.semas
    ensures var s' := Schedule(Park(SortReady(s), x));
            r in s'.semas && ValueOf(s', r) == ValueOf(s, r)
  {
    hide Rebuild;
    ScheduleValues(Park(SortReady(s), x));
  }

  lemma PlainStepValue(s: State, e: Event, r: SemaRef)
    requires Enabled(s, e) && r in s.semas && Step(s, e).Some?
    requires e.ECreate? || e.EYield? || e.EExit? || e.ESetPriority? || e.ESleep? || e.EIdle? || e.ETick?
    ensures Step(s, e).value.semas == s.semas
  {
    match e
    case ECreate(t, p) => ScheduleValues(Enqueue(s.(threads := s.threads[t := NewThread(p)]), t));
    case ETick => TickValues(s);
    case _ =>
  }

  lemma DirectStepValue(s: State, e: Event, r: SemaRef)
    requires Enabled(s, e) && Step(s, e).Some? && r in s.semas
    requires e.ESemaInit? || e.ESemaTryDown? || e.ELockTryAcquire? || (e.ELockInit? && r != LockSema(e.lock))
    ensures var s' := Step(s, e).value;
            r in s'.semas && ValueOf(s', r) == ValueOf(s, r) - Downs(s, e, r)
  {
  }

  lemma LockSemaExists(s: State, l: LockId)
    requires Inv(s)
    ensures LockSema(l) in s.semas <==> l in s.locks
  {
  }

  /** Each step changes a semaphore's value by its ups minus its completed downs, up to
      unsigned overflow, and never removes a semaphore. */
  lemma StepValue(s: State, e: Event, r: SemaRef)
    requires Inv(s) && Enabled(s, e) && Step(s, e).Some? && r in s.semas
    ensures var s' := Step(s, e).value;
            && r in s'.semas
            && ValueOf(s', r) + UINT_RANGE * Overflows(s, e, r) == ValueOf(s, r) + Ups(e, r) - Downs(s, e, r)
  {
    hide Inv, TestOrPark, SemaUp, LockAcquire, Yield, Create, Sleep, Tick, Schedule, Exit, SetPriority;
    match e
    case ESemaInit(_, _) => DirectStepValue(s, e, r);
    case ESemaDown(i) => TestOrParkValue(s, Named(i), r);
    case ESemaTryDown(_) => DirectStepValue(s, e, r);
    case ESemaUp(i) => SemaUpValue(s, Named(i), r);
    case ELockInit(l) => LockSemaExists(s, l); DirectStepValue(s, e, r);
    case ELockAcquire(l) => AcquireValue(s, l, r);
    case ELockTryAcquire(_) => DirectStepValue(s, e, r);
    case ELockRelease(l) => SemaUpValue(Relinquish(s, l), LockSema(l), r);
    case EResume => TestOrParkValue(s, Current(s).downing.value, r);
    case _ => PlainStepValue(s, e, r);
  }

  /** Ups minus completed downs minus overflows on r between states i and n of a run. */
  ghost function Balance(trace: seq<State>, events: seq<Event>, r: SemaRef, i: nat, n: nat): int
    requires i <= n <= |events| && |trace| == |events| + 1
    decreases n
  {
    if n == i then 0
    else
      var s, e := trace[n - 1], events[n - 1];
      Balance(trace, events, r, i, n - 1) + Ups(e, r) - Downs(s, e, r) - UINT_RANGE * Overflows(s, e, r)
  }

  /** Conservation: over any stretch of any run, the value of a semaphore changes by ups
      minus completed downs, each overflow taking away the range of an unsigned int. */
  lemma {:induction false} PermitsConserved(trace: seq<State>, events: seq<Event>, r: SemaRef, i: nat, n: nat)
    requires IsRun(trace, events) && Inv(trace[0]) && i <= n <= |events| && r in trace[i].semas
    ensures r in trace[n].semas && ValueOf(trace[n], r) == ValueOf(trace[i], r) + Balance(trace, events, r, i, n)
    decreases n
  {
    hide Inv, Enabled, Step, Ups, Downs, Overflows;
    if i < n {
      PermitsConserved(trace, events, r, i, n - 1);
      EveryRunKeepsInv(trace, events, n - 1);
      assert StepsAt(trace, events, n - 1);
      StepValue(trace[n - 1], events[n - 1], r);
    }
  }
}
