/** What every step does to priorities, to who holds a lock, and to wait lists. */
module KernelOwners {
  import opened Common
  import opened HeapModel
  import opened KernelModel
  import opened KernelInvariant
  import opened KernelSteps
  import opened KernelOperations
  import opened KernelTheorems
  import opened KernelTurns
  import opened KernelCpu
  import opened KernelPermits

  /** Thread t keeps its priorities. */
  ghost predicate SameRank(s: State, s': State, t: Tid) {
    Get(s'.threads, t).priority == Get(s.threads, t).priority && Get(s'.threads, t).base == Get(s.threads, t).base
  }

  /** p is the larger of base and the donations that the locks carry. */
  ghost predicate IsEffective(locks: map<LockId, Lock>, held: seq<LockId>, base: int, p: int) {
    && base <= p && (forall l :: l in held ==> GetLock(locks, l).donate <= p)
    && (p == base || exists l :: l in held && GetLock(locks, l).donate == p)
  }

  /** What event e makes of the priorities of thread t. */
  ghost predicate RankAfter(s: State, e: Event, s': State, t: Tid) {
    var was, now := Get(s.threads, t), Get(s'.threads, t);
    match e
    case ECreate(u, p) => if t == u then now.priority == now.base == p && now.held == [] else SameRank(s, s', t)
    case ESetPriority(p) =>
      if t == s.running then now.base == p && now.priority == (if was.held == [] || p > was.priority then p else was.priority)
      else SameRank(s, s', t)
    case EExit => t != s.running ==> SameRank(s, s', t)
    case ELockRelease(l) =>
      if t == s.running then
        && now.base == was.base && (forall k :: k in now.held <==> k in was.held && k != l)
        && IsEffective(s.locks, now.held, was.base, now.priority)
      else SameRank(s, s', t)
    case ELockAcquire(l) =>
      now.base == was.base && if HeldBy(s, l).None? then now.priority == was.priority else now.priority >= was.priority
    case _ => SameRank(s, s', t)
  }

  // ---- Priorities -------------------------------------------------------------------------------

  lemma ScheduleRank(s: State, t: Tid)
    ensures SameRank(s, Schedule(s), t) && Get(Schedule(s).threads, t).held == Get(s.threads, t).held
    ensures Schedule(s).locks == s.locks
  {
    ScheduleIs(s, t);
    hide Pop, ReadyLess;
  }

  lemma EnqueueRank(s: State, u: Tid, t: Tid)
    ensures SameRank(s, Enqueue(s, u), t) && Get(Enqueue(s, u).threads, t).held == Get(s.threads, t).held
    ensures Enqueue(s, u).locks == s.locks
  {
    EnqueueIs(s, u, t);
    hide Push, ReadyLess, Int32;
  }

  lemma YieldRank(s: State, t: Tid)
    ensures SameRank(s, Yield(s), t) && Get(Yield(s).threads, t).held == Get(s.threads, t).held
    ensures Yield(s).locks == s.locks
  {
    hide Enqueue, Schedule;
    EnqueueRank(s, s.running, t);
    ScheduleRank(Requeue(s), t);
  }

  lemma SemaUpRank(s: State, r: SemaRef, t: Tid)
    ensures SameRank(s, SemaUp(s, r), t) && Get(SemaUp(s, r).threads, t).held == Get(s.threads, t).held
    ensures SemaUp(s, r).locks == s.locks
  {
    hide Enqueue, Yield, MaxIndex, PriorityOf;
    YieldRank(Signal(s, r), t);
    var q := GetSema(s.semas, r);
    if q.waiters != [] {
      var i := MaxIndex(q.waiters, |q.waiters|, PriorityOf(s.threads));
      EnqueueRank(s.(semas := s.semas[r := Sema(Increment(q.value), RemoveAt(q.waiters, i))]), q.waiters[i], t);
    }
  }

  lemma TestOrParkRank(s: State, r: SemaRef, t: Tid)
    ensures SameRank(s, TestOrPark(s, r), t)
  {
    hide Schedule;
    if GetSema(s.semas, r).value == 0 {
      ScheduleRank(Park(s, r), t);
    }
  }

  lemma {:induction false} WakeAllRank(s: State, preempt: bool, t: Tid)
    ensures SameRank(s, WakeAll(s, preempt).0, t) && WakeAll(s, preempt).0.locks == s.locks
    decreases |s.sleepers|
  {
    hide Enqueue, SleepLess;
    if s.sleepers != [] && Get(s.threads, s.sleepers[0]).wakeTime <= s.ticks {
      EnqueueRank(s.(sleepers := Pop(s.sleepers, SleepLess(s.threads))), s.sleepers[0], t);
      WakeTopShorter(s);
      WakeAllRank(WakeTop(s), preempt || Get(s.threads, s.sleepers[0]).priority > Current(s).priority, t);
    }
  }

  lemma TickRank(s: State, t: Tid)
    ensures SameRank(s, Tick(s), t) && Tick(s).locks == s.locks
  {
    hide WakeAll, Yield;
    var w := WakeAll(s.(ticks := s.ticks + 1), false);
    WakeAllRank(s.(ticks := s.ticks + 1), false, t);
    YieldRank(w.0.(slice := w.0.slice + 1), t);
  }

  lemma CreateRank(s: State, u: Tid, p: int, t: Tid)
    ensures RankAfter(s, ECreate(u, p), Create(s, u, p), t) && Create(s, u, p).locks == s.locks
  {
    hide Enqueue, Yield;
    var s0 := s.(threads := s.threads[u := NewThread(p)]);
    EnqueueRank(s0, u, t);
    YieldRank(Enqueue(s0, u), t);
  }

  lemma SetPriorityRank(s: State, p: int, t: Tid)
    ensures RankAfter(s, ESetPriority(p), SetPriority(s, p), t) && SetPriority(s, p).locks == s.locks
  {
    hide Yield;
    var cur := Current(s);
    YieldRank(SetRunning(s, cur.(base := p, priority := if cur.priority < p || cur.held == [] then p else cur.priority)), t);
  }

  lemma ReleasedIsEffective(locks: map<LockId, Lock>, th: Thread)
    requires PRI_MIN <= th.base
    ensures var r := Recomputed(locks, th);
            r == th.(priority := r.priority) && IsEffective(locks, th.held, th.base, r.priority)
  {
    if th.held != [] {
      var m := MaxIndex(th.held, |th.held|, DonateOf(locks));
      MaxIndexIsFirstMaximum(th.held, |th.held|, DonateOf(locks));
      assert forall i :: 0 <= i < |th.held| ==> DonateOf(locks)(th.held[i]) == GetLock(locks, th.held[i]).donate;
      assert th.held[m] in th.held;
    }
  }

  lemma HoldsOnce(s: State, l: LockId)
    requires Inv(s) && Enabled(s, ELockRelease(l))
    ensures Distinct(Current(s).held) && PRI_MIN <= Current(s).base
  {
  }

  lemma ReleaseRank(s: State, l: LockId, t: Tid)
    requires Inv(s) && Enabled(s, ELockRelease(l))
    ensures RankAfter(s, ELockRelease(l), LockRelease(s, l), t)
    ensures LockRelease(s, l).locks == s.locks[l := Lock(None, PRI_MIN)]
  {
    hide Inv, SemaUp, Recomputed, IsEffective;
    var s1, cur := Relinquish(s, l), Current(s);
    SemaUpRank(s1, LockSema(l), t);
    HoldsOnce(s, l);
    WithoutIs(cur.held, l);
    ReleasedIsEffective(s1.locks, cur.(held := Without(cur.held, l)));
    SameDonations(s.locks, s1.locks, l, Without(cur.held, l), cur.base, Get(s1.threads, s.running).priority);
  }

  lemma SameDonations(locks: map<LockId, Lock>, locks': map<LockId, Lock>, l: LockId, held: seq<LockId>, base: int, p: int)
    requires l !in held && locks' == locks[l := Lock(None, PRI_MIN)] && IsEffective(locks', held, base, p)
    ensures IsEffective(locks, held, base, p)
  {
    assert forall k :: k in held ==> GetLock(locks', k) == GetLock(locks, k);
  }

  lemma AcquireRank(s: State, l: LockId, t: Tid)
    requires Inv(s) && Enabled(s, ELockAcquire(l)) && LockAcquire(s, l).Some?
    ensures RankAfter(s, ELockAcquire(l), LockAcquire(s, l).value, t)
  {
    hide Inv, Donate, Schedule, Rebuild;
    HeldIff(s, l);
    if s.locks[l].holder.Some? {
      var s1 := Donate(Wanting(s, l), s.running, 0).value;
      AcquireRaises(s, l);
      RaisedRank(Wanting(s, l), s1, t);
      ScheduleRank(Park(SortReady(s1), LockSema(l)), t);
    }
  }

  lemma RaisedRank(s: State, s': State, t: Tid)
    requires OnlyRaised(s, s')
    ensures Get(s'.threads, t).base == Get(s.threads, t).base && Get(s'.threads, t).priority >= Get(s.threads, t).priority
  {
  }

  lemma LocalRank(s: State, e: Event, t: Tid)
    requires Step(s, e).Some?
    requires e.EExit? || e.ESemaInit? || e.ESemaTryDown? || e.ELockInit? || e.ELockTryAcquire? || e.EIdle? || e.ESleep?
    ensures RankAfter(s, e, Step(s, e).value, t)
  {
    hide Schedule, Push, SleepLess;
    match e
    case EExit => ScheduleRank(s.(threads := s.threads - {s.running}), t);
    case EIdle => ScheduleRank(SetRunning(s, Current(s).(status := Blocked)), t);
    case ESleep(x) => ScheduleRank(Doze(s, x), t);
    case _ =>
  }

  /** No step changes a base priority but thread_set_priority() the caller's, and no step changes an
      effective priority but that one, a donation, which only raises, and lock_release() the caller's,
      to the larger of its base and the donations left. */
  lemma StepRanks(s: State, e: Event, t: Tid)
    requires Inv(s) && Enabled(s, e) && Step(s, e).Some?
    ensures RankAfter(s, e, Step(s, e).value, t)
  {
    hide Inv, Create, SetPriority, SemaUp, LockRelease, LockAcquire, Tick, TestOrPark, Yield, IsEffective;
    match e
    case ECreate(u, p) => CreateRank(s, u, p, t);
    case EYield => YieldRank(s, t);
    case ESetPriority(p) => SetPriorityRank(s, p, t);
    case ESemaDown(i) => TestOrParkRank(s, Named(i), t);
    case ESemaUp(i) => SemaUpRank(s, Named(i), t);
    case ELockAcquire(l) => AcquireRank(s, l, t);
    case ELockRelease(l) => ReleaseRank(s, l, t);
    case ETick => TickRank(s, t);
    case EResume => if Current(s).downing.Some? { TestOrParkRank(s, Current(s).downing.value, t); }
    case _ => LocalRank(s, e, t);
  }

  // ---- Holders ------------------------------------------------------------------------------------

  /** The event tries to take lock l. */
  predicate Wants(s: State, e: Event, l: LockId) {
    e == ELockAcquire(l) || e == ELockTryAcquire(l) || (e == EResume && Current(s).downing == Some(LockSema(l)))
  }

  function HeldBy(s: State, l: LockId): Option<Tid> {
    GetLock(s.locks, l).holder
  }

  /** Who holds lock l after event e. */
  function HolderAfter(s: State, e: Event, l: LockId): Option<Tid> {
    if Wants(s, e, l) && HeldBy(s, l).None? then Some(s.running)
    else if e == ELockRelease(l) || e == ELockInit(l) then None
    else HeldBy(s, l)
  }

  lemma TestedLock(s: State, e: Event, l: LockId)
    requires Inv(s) && Enabled(s, e) && Wants(s, e, l)
    ensures l in s.locks
  {
  }

  lemma TakeHolder(s: State, r: SemaRef, l: LockId)
    requires GetSema(s.semas, r).value > 0
    ensures HeldBy(Take(s, r), l) == if r == LockSema(l) then Some(s.running) else HeldBy(s, l)
  {
  }

  lemma TestOrParkHolder(s: State, r: SemaRef, l: LockId)
    ensures HeldBy(TestOrPark(s, r), l) ==
            if r == LockSema(l) && GetSema(s.semas, r).value > 0 then Some(s.running) else HeldBy(s, l)
  {
    hide Schedule;
    if GetSema(s.semas, r).value == 0 {
      ScheduleRank(Park(s, r), 0);
    }
  }

  lemma AcquireHolder(s: State, k: LockId, l: LockId)
    requires Inv(s) && Enabled(s, ELockAcquire(k)) && LockAcquire(s, k).Some?
    ensures HeldBy(LockAcquire(s, k).value, l) == HolderAfter(s, ELockAcquire(k), l)
  {
    hide Inv, Donate, Schedule, Rebuild;
    HeldIff(s, k);
    if s.locks[k].holder.Some? {
      var s1 := Donate(Wanting(s, k), s.running, 0).value;
      AcquireRaises(s, k);
      RaisedHolder(Wanting(s, k), s1, l);
      ScheduleRank(Park(SortReady(s1), LockSema(k)), 0);
    }
  }

  lemma RaisedHolder(s: State, s': State, l: LockId)
    requires OnlyRaised(s, s')
    ensures HeldBy(s', l) == HeldBy(s, l)
  {
  }

  lemma TryHolder(s: State, e: Event, l: LockId)
    requires (e.ELockTryAcquire? || e.ESemaTryDown?) && Step(s, e).Some? && Inv(s) && Enabled(s, e)
    ensures HeldBy(Step(s, e).value, l) == HolderAfter(s, e, l)
  {
    hide Inv, Take;
    if e.ELockTryAcquire? {
      HeldIff(s, e.lock);
      if GetSema(s.semas, LockSema(e.lock)).value > 0 {
        TakeHolder(s, LockSema(e.lock), l);
      }
    } else if GetSema(s.semas, Named(e.id)).value > 0 {
      TakeHolder(s, Named(e.id), l);
    }
  }

  lemma ResumeHolder(s: State, l: LockId)
    requires Inv(s) && Enabled(s, EResume)
    ensures HeldBy(TestOrPark(s, Current(s).downing.value), l) == HolderAfter(s, EResume, l)
  {
    hide Inv, TestOrPark;
    TestOrParkHolder(s, Current(s).downing.value, l);
    if Wants(s, EResume, l) {
      TestedLock(s, EResume, l);
      HeldIff(s, l);
    }
  }

  lemma LocalHolder(s: State, e: Event, l: LockId)
    requires Step(s, e).Some? && (e.EExit? || e.ESemaInit? || e.EIdle? || e.ESleep? || e.ELockInit?)
    ensures HeldBy(Step(s, e).value, l) == HolderAfter(s, e, l)
  {
    hide Schedule, Push, SleepLess;
    match e
    case EExit => ScheduleRank(s.(threads := s.threads - {s.running}), 0);
    case EIdle => ScheduleRank(SetRunning(s, Current(s).(status := Blocked)), 0);
    case ESleep(x) => ScheduleRank(Doze(s, x), 0);
    case _ =>
  }

  /** A free lock goes to the thread that takes it, a held one stays with its holder until that releases
      it, whatever else happens: no step but these changes who holds a lock. */
  lemma StepHolders(s: State, e: Event, l: LockId)
    requires Inv(s) && Enabled(s, e) && Step(s, e).Some?
    ensures HeldBy(Step(s, e).value, l) == HolderAfter(s, e, l)
  {
    hide Inv, Create, SetPriority, SemaUp, LockRelease, LockAcquire, Tick, TestOrPark, Yield;
    match e
    case ECreate(u, p) => CreateRank(s, u, p, 0);
    case EYield => YieldRank(s, 0);
    case ESetPriority(p) => SetPriorityRank(s, p, 0);
    case ESemaDown(i) => TestOrParkHolder(s, Named(i), l);
    case ESemaUp(i) => SemaUpRank(s, Named(i), 0);
    case ELockAcquire(k) => AcquireHolder(s, k, l);
    case ELockRelease(k) => ReleaseRank(s, k, 0);
    case ETick => TickRank(s, 0);
    case EResume => ResumeHolder(s, l);
    case ELockTryAcquire(_) => TryHolder(s, e, l);
    case ESemaTryDown(_) => TryHolder(s, e, l);
    case _ => LocalHolder(s, e, l);
  }

  /** Mutual exclusion over runs: from the time a thread holds a lock until it releases it, it holds it
      and nobody else does. */
  lemma {:induction false} HeldUntilReleased(trace: seq<State>, events: seq<Event>, i: nat, k: nat, l: LockId, t: Tid)
    requires IsRun(trace, events) && Inv(trace[0]) && i <= k < |trace| && HeldBy(trace[i], l) == Some(t)
    requires forall m :: i <= m < k ==> !(events[m] == ELockRelease(l) && trace[m].running == t)
    ensures HeldBy(trace[k], l) == Some(t)
    decreases k - i
  {
    hide Inv, Step, Wants;
    if i < k {
      var s, e := trace[k - 1], events[k - 1];
      HeldUntilReleased(trace, events, i, k - 1, l, t);
      EveryRunKeepsInv(trace, events, k - 1);
      assert StepsAt(trace, events, k - 1);
      StepHolders(s, e, l);
      assert e != ELockInit(l) && e != ELockRelease(l);
    }
  }

  // ---- Semaphores and wait lists --------------------------------------------------------------------

  /** The semaphore the event ups. */
  function Raises(e: Event): Option<SemaRef> {
    match e
    case ESemaUp(i) => Some(Named(i))
    case ELockRelease(l) => Some(LockSema(l))
    case _ => None
  }

  /** The first waiter of the highest priority. */
  ghost predicate FirstHighest(threads: Threads, waiters: seq<Tid>, i: nat) {
    && i < |waiters|
    && (forall j :: 0 <= j < |waiters| ==> Get(threads, waiters[j]).priority <= Get(threads, waiters[i]).priority)
    && (forall j :: 0 <= j < i ==> Get(threads, waiters[j]).priority < Get(threads, waiters[i]).priority)
  }

  /** What event e makes of the wait list of r. */
  ghost predicate WaitersAfter(s: State, e: Event, s': State, r: SemaRef) {
    var was, now := GetSema(s.semas, r), GetSema(s'.semas, r);
    if BlocksOn(s, e) == Some(r) && was.value == 0 then now.waiters == was.waiters + [s.running]
    else if Raises(e) == Some(r) && was.waiters != [] then
      exists i: nat :: FirstHighest(s.threads, was.waiters, i) && now.waiters == was.waiters[..i] + was.waiters[i + 1..]
    else if e.ESemaInit? && r == Named(e.id) then now == Sema(e.value, [])
    else if e.ELockInit? && r == LockSema(e.lock) then now == Sema(1, [])
    else now.waiters == was.waiters
  }

  lemma SignalWaiters(s: State, s1: State, r: SemaRef, x: SemaRef)
    requires s1.semas == s.semas
    requires forall i :: 0 <= i < |GetSema(s.semas, r).waiters| ==>
               var t := GetSema(s.semas, r).waiters[i]; Get(s1.threads, t).priority == Get(s.threads, t).priority
    ensures var was, now := GetSema(s.semas, x).waiters, GetSema(SemaUp(s1, r).semas, x).waiters;
            if x == r && was != [] then
              exists i: nat :: FirstHighest(s.threads, was, i) && now == was[..i] + was[i + 1..]
            else now == was
  {
    hide Yield, Signal, FirstHighest;
    ScheduleValues(Signal(s1, r));
    SignalSemas(s1, r, x);
    var q := GetSema(s.semas, r).waiters;
    if q != [] {
      MaxIsFirstHighest(s, s1, q);
    }
  }

  lemma SignalSemas(s: State, r: SemaRef, x: SemaRef)
    ensures var was, now := GetSema(s.semas, x).waiters, GetSema(Signal(s, r).semas, x).waiters;
            now == if x == r && was != [] then RemoveAt(was, MaxIndex(was, |was|, PriorityOf(s.threads))) else was
  {
    hide Push, ReadyLess, Int32, MaxIndex, PriorityOf;
  }

  lemma MaxIsFirstHighest(s: State, s1: State, q: seq<Tid>)
    requires q != [] && forall i :: 0 <= i < |q| ==> Get(s1.threads, q[i]).priority == Get(s.threads, q[i]).priority
    ensures FirstHighest(s.threads, q, MaxIndex(q, |q|, PriorityOf(s1.threads)))
  {
    MaxIndexIsFirstMaximum(q, |q|, PriorityOf(s1.threads));
    assert forall j :: 0 <= j < |q| ==> PriorityOf(s1.threads)(q[j]) == Get(s.threads, q[j]).priority;
  }

  lemma TestOrParkWaiters(s: State, r: SemaRef, x: SemaRef)
    ensures GetSema(TestOrPark(s, r).semas, x).waiters ==
            GetSema(s.semas, x).waiters + if r == x && GetSema(s.semas, r).value == 0 then [s.running] else []
  {
    ScheduleValues(Park(s, r));
    hide Schedule;
  }

  lemma AcquireWaiters(s: State, l: LockId, r: SemaRef)
    requires Inv(s) && Enabled(s, ELockAcquire(l)) && LockAcquire(s, l).Some?
    ensures WaitersAfter(s, ELockAcquire(l), LockAcquire(s, l).value, r)
  {
    hide Inv, Donate, Schedule, Park, SortReady, FirstHighest, OnlyRaised;
    if GetSema(s.semas, LockSema(l)).value == 0 {
      var s1 := Donate(Wanting(s, l), s.running, 0).value;
      AcquireRaises(s, l);
      BlockWaiters(s, l, s1, r);
    }
  }

  lemma BlockWaiters(s: State, l: LockId, s1: State, r: SemaRef)
    requires OnlyRaised(Wanting(s, l), s1)
    ensures GetSema(Schedule(Park(SortReady(s1), LockSema(l))).semas, r).waiters ==
            GetSema(s.semas, r).waiters + if r == LockSema(l) then [s.running] else []
  {
    hide Schedule, Rebuild;
    ScheduleValues(Park(SortReady(s1), LockSema(l)));
  }

  lemma ReleaseWaiters(s: State, l: LockId, r: SemaRef)
    requires Inv(s) && Enabled(s, ELockRelease(l))
    ensures WaitersAfter(s, ELockRelease(l), LockRelease(s, l), r)
  {
    hide Inv, SemaUp, Relinquish, FirstHighest;
    OthersKeepRank(s, l);
    SignalWaiters(s, Relinquish(s, l), LockSema(l), r);
  }

  lemma OthersKeepRank(s: State, l: LockId)
    requires Inv(s) && Enabled(s, ELockRelease(l))
    ensures Relinquish(s, l).semas == s.semas
    ensures forall i :: 0 <= i < |GetSema(s.semas, LockSema(l)).waiters| ==>
              var t := GetSema(s.semas, LockSema(l)).waiters[i];
              Get(Relinquish(s, l).threads, t).priority == Get(s.threads, t).priority
  {
    WaitersWait(s, LockSema(l));
    hide Inv, Recomputed;
    var q := GetSema(s.semas, LockSema(l)).waiters;
    forall i | 0 <= i < |q|
      ensures Get(Relinquish(s, l).threads, q[i]).priority == Get(s.threads, q[i]).priority
    {
      assert Waits(s, q[i]);
    }
  }

  lemma CreateSemas(s: State, t: Tid, p: int)
    ensures Create(s, t, p).semas == s.semas
  {
    hide Yield, Push, ReadyLess;
    ScheduleValues(Enqueue(s.(threads := s.threads[t := NewThread(p)]), t));
  }

  lemma SetPrioritySemas(s: State, p: int)
    ensures SetPriority(s, p).semas == s.semas
  {
    hide Yield;
    var cur := Current(s);
    ScheduleValues(SetRunning(s, cur.(base := p, priority := if cur.priority < p || cur.held == [] then p else cur.priority)));
  }

  lemma LocalSemas(s: State, e: Event, r: SemaRef)
    requires Step(s, e).Some?
    requires e.EExit? || e.ESemaInit? || e.ESemaTryDown? || e.ELockInit? || e.ELockTryAcquire? || e.EIdle? || e.ESleep?
    ensures WaitersAfter(s, e, Step(s, e).value, r)
  {
    hide Schedule, Push, SleepLess;
    match e
    case EExit => ScheduleValues(s.(threads := s.threads - {s.running}));
    case EIdle => ScheduleValues(SetRunning(s, Current(s).(status := Blocked)));
    case ESleep(x) => ScheduleValues(Doze(s, x));
    case _ =>
  }

  /** A thread that blocks on a semaphore joins the end of its wait list, an up takes off the first waiter
      of the highest priority, a new semaphore has its initial value and nobody waiting; and no step
      changes any other wait list. */
  lemma StepWaiters(s: State, e: Event, r: SemaRef)
    requires Inv(s) && Enabled(s, e) && Step(s, e).Some?
    ensures WaitersAfter(s, e, Step(s, e).value, r)
  {
    hide Inv, Create, SetPriority, SemaUp, LockRelease, LockAcquire, Tick, TestOrPark, Yield, FirstHighest;
    match e
    case ECreate(t, p) => CreateSemas(s, t, p);
    case EYield => ScheduleValues(s);
    case ESetPriority(p) => SetPrioritySemas(s, p);
    case ESemaDown(i) => TestOrParkWaiters(s, Named(i), r);
    case ESemaUp(i) => SignalWaiters(s, s, Named(i), r);
    case ELockAcquire(l) => AcquireWaiters(s, l, r);
    case ELockRelease(l) => ReleaseWaiters(s, l, r);
    case ETick => TickValues(s);
    case EResume => TestOrParkWaiters(s, Current(s).downing.value, r);
    case _ => LocalSemas(s, e, r);
  }
}
