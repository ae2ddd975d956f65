/** Main results about runs of the kernel machine. */
module KernelTheorems {
  import opened Common
  import opened HeapModel
  import opened KernelModel
  import opened KernelInvariant
  import opened KernelSteps
  import opened KernelOperations
  import opened KernelBacking

  // ---- Every run keeps the invariant ----------------------------------------------------

  lemma BootInv(pushCnt: nat, ticks: nat)
    ensures Inv(Boot(pushCnt, ticks))
  {
    var s := Boot(pushCnt, ticks);
    assert s.ready == [] && s.sleepers == [];
    assert ReadyQueue(s) && SleepQueue(s);
  }

  lemma InitKeeps(s: State, e: Event)
    requires Inv(s) && Enabled(s, e) && (e.ESemaInit? || e.ELockInit?)
    ensures Step(s, e).Some? && Inv(Step(s, e).value)
  {
    hide WaitLists, Permits, HeldLists, WaitingLocks, Priorities;
    match e
    case ESemaInit(i, v) =>
      SemaInitKeeps(s, Named(i), Sema(v, []));
      InitOthers(s, s.(semas := s.semas[Named(i) := Sema(v, [])]));
    case ELockInit(l) =>
      SemaInitKeeps(s, LockSema(l), Sema(1, []));
      LockInitKeeps(s, l);
      InitOthers(s, s.(semas := s.semas[LockSema(l) := Sema(1, [])]));
      InitPermits(s.(semas := s.semas[LockSema(l) := Sema(1, [])]), s.locks[l := Lock(None, PRI_MIN)]);
  }

  lemma InitOthers(s: State, s': State)
    requires s' == s.(semas := s'.semas) && HeldLists(s) && WaitingLocks(s) && Priorities(s)
    ensures HeldLists(s') && WaitingLocks(s') && Priorities(s')
  {
  }

  lemma InitPermits(s: State, locks: map<LockId, Lock>)
    requires WaitLists(s) && Permits(s)
    ensures WaitLists(s.(locks := locks)) && Permits(s.(locks := locks))
  {
  }

  /** Every step of the kernel keeps the invariant. */
  lemma StepKeepsInv(s: State, e: Event)
    requires Inv(s) && Enabled(s, e) && Step(s, e).Some?
    ensures Inv(Step(s, e).value)
  {
    match e
    case ECreate(t, p) => CreateKeeps(s, t, p);
    case EYield => YieldKeeps(s);
    case EExit => ExitKeeps(s);
    case ESetPriority(p) => SetPriorityKeeps(s, p);
    case ESemaInit(i, v) => InitKeeps(s, e);
    case ESemaDown(i) => TestOrParkKeeps(s, Named(i));
    case ESemaTryDown(i) => if s.semas[Named(i)].value > 0 { TakeKeeps(s, Named(i)); }
    case ESemaUp(i) => SemaUpKeeps(s, i);
    case ELockInit(l) => InitKeeps(s, e);
    case ELockAcquire(l) => LockAcquireKeeps(s, l);
    case ELockTryAcquire(l) => if s.semas[LockSema(l)].value > 0 { TakeKeeps(s, LockSema(l)); }
    case ELockRelease(l) => LockReleaseKeeps(s, l);
    case ESleep(x) => SleepKeeps(s, x);
    case ETick => TickKeeps(s);
    case EResume => TestOrParkKeeps(s, Current(s).downing.value);
    case EIdle => IdleKeeps(s);
  }

  /** Every state of every run that starts at boot satisfies the invariant. */
  lemma {:induction false} EveryRunKeepsInv(trace: seq<State>, events: seq<Event>, n: nat)
    requires IsRun(trace, events) && Inv(trace[0]) && n < |trace|
    ensures Inv(trace[n])
  {
    hide Inv, Enabled, Step;
    if n > 0 {
      EveryRunKeepsInv(trace, events, n - 1);
      assert StepsAt(trace, events, n - 1);
      StepKeepsInv(trace[n - 1], events[n - 1]);
    }
  }

  lemma BootReachable()
    ensures Reachable(Boot(2, 0))
  {
    assert IsRun([Boot(2, 0)], []);
  }

  lemma ReachableStep(s: State, e: Event)
    requires Reachable(s) && Enabled(s, e) && Step(s, e).Some?
    ensures Reachable(Step(s, e).value)
  {
    hide Enabled, Step, Boot;
    var trace: seq<State>, events: seq<Event> :| IsRun(trace, events) && trace[0] == Boot(2, 0) && trace[|events|] == s;
    var trace', events' := trace + [Step(s, e).value], events + [e];
    forall i: nat | i < |events'|
      ensures StepsAt(trace', events', i)
    {
      assert i < |events| ==> StepsAt(trace, events, i);
    }
    assert IsRun(trace', events') && trace'[|events'|] == Step(s, e).value;
  }

  lemma ReachableInv(s: State)
    requires Reachable(s)
    ensures Inv(s)
  {
    hide Inv, Boot;
    var trace: seq<State>, events: seq<Event> :| IsRun(trace, events) && trace[0] == Boot(2, 0) && trace[|events|] == s;
    BootInv(2, 0);
    EveryRunKeepsInv(trace, events, |events|);
  }

  /** What every state of every run from boot guarantees about scheduling. */
  lemma SchedulingSafety(trace: seq<State>, events: seq<Event>, n: nat, pushCnt: nat, ticks: nat)
    requires IsRun(trace, events) && trace[0] == Boot(pushCnt, ticks) && n < |trace|
    ensures var s := trace[n];
            && s.running in s.threads && s.threads[s.running].status == Running
            && (forall t :: t in s.ready ==> t in s.threads && s.threads[t].priority <= s.threads[s.running].priority)
            && Ordered(s.ready, ReadyLess(s.threads))
            && (forall t :: t in s.threads && s.threads[t].status == Ready && t != s.idle ==> t in s.ready)
            && (s.running == s.idle ==> forall t :: t in s.ready ==> s.threads[t].priority == PRI_MIN)
  {
    hide Inv, Boot;
    BootInv(pushCnt, ticks);
    EveryRunKeepsInv(trace, events, n);
    SchedulingFacts(trace[n]);
  }

  lemma SchedulingFacts(s: State)
    requires Inv(s)
    ensures s.running in s.threads && s.threads[s.running].status == Running
    ensures forall t :: t in s.ready ==> t in s.threads && s.threads[t].priority <= s.threads[s.running].priority
    ensures Ordered(s.ready, ReadyLess(s.threads))
    ensures forall t :: t in s.threads && s.threads[t].status == Ready && t != s.idle ==> t in s.ready
    ensures s.running == s.idle ==> forall t :: t in s.ready ==> s.threads[t].priority == PRI_MIN
  {
    assert PriorityOk(s.threads[s.idle]);
  }

  lemma BootBacked(pushCnt: nat, ticks: nat)
    ensures Backed(Boot(pushCnt, ticks))
  {
  }

  /** In every state of every run, a thread that waits for a lock backs what the lock carries. */
  lemma {:induction false} EveryRunBacked(trace: seq<State>, events: seq<Event>, n: nat)
    requires IsRun(trace, events) && Inv(trace[0]) && Backed(trace[0]) && n < |trace|
    ensures Backed(trace[n])
  {
    hide Inv, Enabled, Step, Backed;
    if n > 0 {
      EveryRunBacked(trace, events, n - 1);
      EveryRunKeepsInv(trace, events, n - 1);
      assert StepsAt(trace, events, n - 1);
      StepKeepsBacked(trace[n - 1], events[n - 1]);
    }
  }

  /** What every state of every run from boot guarantees about locks and donations. */
  lemma LockSafety(trace: seq<State>, events: seq<Event>, n: nat, pushCnt: nat, ticks: nat)
    requires IsRun(trace, events) && trace[0] == Boot(pushCnt, ticks) && n < |trace|
    ensures var s := trace[n];
            && (forall t, l :: t in s.threads ==> (l in s.threads[t].held <==> l in s.locks && s.locks[l].holder == Some(t)))
            && (forall l :: l in s.locks && s.locks[l].holder.None? ==> s.locks[l].donate == PRI_MIN)
            && (forall l :: l in s.locks ==>
                  LockSema(l) in s.semas && s.semas[LockSema(l)].value == (if s.locks[l].holder.None? then 1 else 0))
            && (forall t :: t in s.threads ==> s.threads[t].base <= s.threads[t].priority)
            && (forall t, l :: t in s.threads && l in s.threads[t].held ==> s.locks[l].donate <= s.threads[t].priority)
            && (forall t :: t in s.threads && s.threads[t].held == [] ==> s.threads[t].priority == s.threads[t].base)
            && (forall l :: l in s.locks && s.locks[l].donate > PRI_MIN ==>
                  exists t :: t in s.threads && s.threads[t].waiting == Some(l) && s.threads[t].priority >= s.locks[l].donate)
  {
    hide Inv, Boot;
    BootInv(pushCnt, ticks);
    EveryRunKeepsInv(trace, events, n);
    BootBacked(pushCnt, ticks);
    EveryRunBacked(trace, events, n);
    assert forall l :: l in trace[n].locks ==> IsBacked(trace[n].threads, l, trace[n].locks[l].donate);
    LockFacts(trace[n]);
  }

  lemma LockFacts(s: State)
    requires Inv(s)
    ensures forall t, l :: t in s.threads ==> (l in s.threads[t].held <==> l in s.locks && s.locks[l].holder == Some(t))
    ensures forall l :: l in s.locks ==> LockSema(l) in s.semas && LockSemaOk(s.locks[l], s.semas[LockSema(l)])
    ensures forall t :: t in s.threads ==> PriorityOk(s.threads[t])
    ensures forall t, l :: t in s.threads && l in s.threads[t].held ==> s.locks[l].donate <= s.threads[t].priority
  {
    hide ReadyQueue, SleepQueue, WaitLists, HeapsOrdered, WaitingLocks, Permits, OneRunning, Dominates;
    forall t, l | t in s.threads
      ensures l in s.threads[t].held <==> l in s.locks && s.locks[l].holder == Some(t)
      ensures l in s.threads[t].held ==> s.locks[l].donate <= s.threads[t].priority
    {
      assert HoldsExactly(s.threads[t].held, t, s.locks);
      assert l in s.locks ==> DonationOk(s.locks[l], s.threads);
    }
  }

  /** No permit is stranded in any run: units of a semaphore with waiters are covered by
      woken threads that have yet to test it. */
  lemma NoStrandedPermit(trace: seq<State>, events: seq<Event>, n: nat, pushCnt: nat, ticks: nat, r: SemaRef)
    requires IsRun(trace, events) && trace[0] == Boot(pushCnt, ticks) && n < |trace|
    requires r in trace[n].semas && trace[n].semas[r].waiters != []
    ensures trace[n].semas[r].value <= |Woken(trace[n].threads, r)|
    ensures forall t :: t in Woken(trace[n].threads, r) ==> t in trace[n].ready || t == trace[n].running
  {
    hide Inv, Boot;
    BootInv(pushCnt, ticks);
    EveryRunKeepsInv(trace, events, n);
    PermitFacts(trace[n], r);
  }

  lemma PermitFacts(s: State, r: SemaRef)
    requires Inv(s) && r in s.semas && s.semas[r].waiters != []
    ensures s.semas[r].value <= |Woken(s.threads, r)|
    ensures forall t :: t in Woken(s.threads, r) ==> t in s.ready || t == s.running
  {
  }

  // ---- sema_up() ------------------------------------------------------------------------

  /** sema_up() makes ready the waiter of largest priority, the earliest among equals, and
      leaves the others waiting in their order. */
  lemma SignalWakesHighest(s: State, r: SemaRef)
    requires Inv(s) && r in s.semas && s.semas[r].waiters != []
    ensures var s', q := Signal(s, r), s.semas[r].waiters;
            exists i :: 0 <= i < |q|
              && (forall j :: 0 <= j < |q| ==> Get(s.threads, q[j]).priority <= Get(s.threads, q[i]).priority)
              && (forall j :: 0 <= j < i ==> Get(s.threads, q[j]).priority < Get(s.threads, q[i]).priority)
              && s'.semas[r].waiters == q[..i] + q[i + 1..] && q[i] in s'.ready
  {
    var q := s.semas[r].waiters;
    var i := MaxIndex(q, |q|, PriorityOf(s.threads));
    MaxIndexIsFirstMaximum(q, |q|, PriorityOf(s.threads));
    PushMember(s.ready, q[i], ReadyLess(Signal(s, r).threads), q[i]);
    forall j | 0 <= j < |q|
      ensures Get(s.threads, q[j]).priority == PriorityOf(s.threads)(q[j])
    {
    }
  }

  // ---- thread_set_priority() ------------------------------------------------------------

  /** thread_set_priority() leaves the thread at the larger of its new priority and the
      donations it holds exactly when it holds no lock or is not lowered below what it
      runs at: a donee that lowers itself keeps its old priority until it releases a lock. */
  lemma SetPriorityEffectiveIff(s: State, p: int)
    requires Inv(s) && s.running != s.idle
    ensures var cur := Current(s);
            var effective := Recomputed(s.locks, cur.(base := p)).priority;
            Get(SetPriority(s, p).threads, s.running).priority == effective
            <==> cur.held == [] || cur.priority <= effective
  {
    var cur := Current(s);
    var priority := if cur.priority < p || cur.held == [] then p else cur.priority;
    var s1 := SetRunning(s, cur.(base := p, priority := priority));
    assert HoldsExactly(cur.held, s.running, s.locks);
    RecomputedIsEffective(s.locks, cur.(base := p));
    forall l: LockId | l in cur.held
      ensures GetLock(s.locks, l).donate <= cur.priority
    {
      assert DonationOk(s.locks[l], s.threads);
    }
    YieldKeepsPriority(s1, s.running);
  }

  lemma YieldKeepsPriority(s: State, t: Tid)
    ensures Get(Yield(s).threads, t).priority == Get(s.threads, t).priority
  {
    hide Schedule, Enqueue;
    EnqueueKeepsPriority(s, s.running, t);
    ScheduleKeepsPriority(Requeue(s), t);
  }

  lemma EnqueueKeepsPriority(s: State, u: Tid, t: Tid)
    ensures Get(Enqueue(s, u).threads, t).priority == Get(s.threads, t).priority
  {
    hide Push, ReadyLess;
  }

  lemma ScheduleKeepsPriority(s: State, t: Tid)
    ensures Get(Schedule(s).threads, t).priority == Get(s.threads, t).priority
  {
    hide Pop, ReadyLess;
  }
}
