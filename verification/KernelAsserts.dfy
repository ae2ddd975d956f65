/** The limits of the kernel: the fixed buffers of the two heaps, and the assertion in
    thread_unblock(). */
module KernelAsserts {
  import opened Common
  import opened HeapModel
  import opened KernelModel
  import opened KernelInvariant
  import opened KernelSteps
  import opened KernelOperations
  import opened KernelTheorems

  // ---- Room in the heaps ------------------------------------------------------------------

  lemma {:induction false} DistinctFits(xs: seq<Tid>, ts: set<Tid>)
    requires Distinct(xs) && forall t :: t in xs ==> t in ts
    ensures |xs| <= |ts|
  {
    if xs != [] {
      var t, rest := xs[0], xs[1..];
      assert xs == [t] + rest;
      OneMoreMembers(xs, rest, t);
      DistinctFits(rest, ts - {t});
    }
  }

  /** Room for so many pushes, on top of the one by each sleeper that wakes. */
  ghost predicate HasRoom(s: State, pushes: nat) {
    |s.ready| + |s.sleepers| + pushes < MAX_HEAP_SIZE
  }

  lemma RoomCount(xs: seq<Tid>, ys: seq<Tid>, ts: set<Tid>)
    requires Distinct(xs) && Distinct(ys) && forall t :: t in xs ==> t !in ys
    requires forall t :: t in xs || t in ys ==> t in ts
    ensures |xs| + |ys| <= |ts|
  {
    BothDistinct(xs, ys);
    DistinctFits(xs + ys, ts);
  }

  /** sema_up() queues the waiter it wakes, and the running thread. */
  function SignalPushes(s: State, r: SemaRef): nat {
    if GetSema(s.semas, r).waiters == [] then 1 else 2
  }

  /** How many threads an event puts on a heap before it takes one off, not counting sleepers that wake. */
  function PushesOf(s: State, e: Event): nat {
    match e
    case ECreate(_, _) => 2
    case EYield => 1
    case ESetPriority(_) => 1
    case ESemaUp(i) => SignalPushes(s, Named(i))
    case ELockRelease(l) => SignalPushes(s, LockSema(l))
    case ESleep(_) => 1
    case ETick => 1
    case _ => 0
  }

  ghost predicate RoomFor(s: State, e: Event) {
    HasRoom(s, PushesOf(s, e))
  }

  lemma OthersFit(s: State, w: Tid)
    requires Inv(s) && w in s.threads && w != s.running && w !in s.ready && w !in s.sleepers
    ensures |s.ready| + |s.sleepers| + 2 <= |s.threads|
  {
    QueuesDisjoint(s);
    hide Inv;
    var others := s.threads.Keys - {s.running} - {w};
    assert |s.threads.Keys - {s.running}| == |s.threads| - 1;
    assert |others| == |s.threads| - 2;
    RoomCount(s.ready, s.sleepers, others);
  }

  lemma QueuesFit(s: State)
    requires Inv(s)
    ensures |s.ready| + |s.sleepers| + 1 <= |s.threads|
  {
    QueuesDisjoint(s);
    hide Inv;
    assert |s.threads.Keys - {s.running}| == |s.threads| - 1;
    RoomCount(s.ready, s.sleepers, s.threads.Keys - {s.running});
  }

  lemma QueuesDisjoint(s: State)
    requires Inv(s)
    ensures Distinct(s.ready) && Distinct(s.sleepers) && forall t :: t in s.ready ==> t !in s.sleepers
    ensures forall t :: t in s.ready || t in s.sleepers ==> t in s.threads && t != s.running && t != s.idle
    ensures s.running in s.threads && s.idle in s.threads
  {
  }

  lemma WaiterUnqueued(s: State, r: SemaRef)
    requires Inv(s) && r in s.semas && s.semas[r].waiters != []
    ensures var w := s.semas[r].waiters[0];
            w in s.threads && w != s.running && w !in s.ready && w !in s.sleepers
  {
    IsListed(s, r, 0);
  }

  lemma SignalFits(s: State, r: SemaRef)
    requires Inv(s) && r in s.semas && |s.threads| < MAX_HEAP_SIZE
    ensures HasRoom(s, SignalPushes(s, r))
  {
    if s.semas[r].waiters == [] {
      QueuesFit(s);
    } else {
      WaiterUnqueued(s, r);
      OthersFit(s, s.semas[r].waiters[0]);
    }
  }

  /** With fewer than MAX_HEAP_SIZE threads, every event finds the room it needs. */
  lemma InvLeavesRoom(s: State, e: Event)
    requires Inv(s) && Enabled(s, e) && |s.threads| < MAX_HEAP_SIZE
    ensures RoomFor(s, e)
  {
    QueuesFit(s);
    if e.ECreate? {
      QueuesDisjoint(s);
      OthersFit(s, s.idle);
    } else if e.ESemaUp? {
      SignalFits(s, Named(e.id));
    } else if e.ELockRelease? {
      SignalFits(s, LockSema(e.lock));
    }
  }

  /** In every state of every run from boot with fewer than MAX_HEAP_SIZE threads, each event that can
      come next meets the condition under which all its pushes are stored in the buffers. */
  lemma EveryEventHasRoom(trace: seq<State>, events: seq<Event>, n: nat, pushCnt: nat, ticks: nat, e: Event)
    requires IsRun(trace, events) && trace[0] == Boot(pushCnt, ticks) && n < |trace|
    requires |trace[n].threads| < 2048 && Enabled(trace[n], e)
    ensures RoomFor(trace[n], e)
  {
    BootInv(pushCnt, ticks);
    EveryRunKeepsInv(trace, events, n);
    InvLeavesRoom(trace[n], e);
  }

  // ---- The bound is exact -----------------------------------------------------------------

  /** "main" has created n threads of the lowest priority. */
  ghost predicate Crowd(s: State, n: nat) {
    && Reachable(s) && s.running == 1 && s.idle == 2 && |s.ready| == n && |s.threads| == n + 2
    && (forall t :: t in s.threads <==> 1 <= t <= n + 2)
    && s.threads[1].priority == 31 && s.threads[1].downing.None?
  }

  lemma CrowdGrows(s: State, n: nat)
    requires Crowd(s, n)
    ensures Crowd(Create(s, n + 3, PRI_MIN), n + 1)
  {
    hide Reachable, Push, ReadyLess, Int32;
    var t: Tid := n + 3;
    ReachableStep(s, ECreate(t, PRI_MIN));
    var s' := Create(s, t, PRI_MIN);
    PushKeeps(s.ready, t, ReadyLess(s'.threads));
  }

  lemma {:induction false} CrowdOf(n: nat) returns (s: State)
    ensures Crowd(s, n)
  {
    if n == 0 {
      BootReachable();
      s := Boot(2, 0);
    } else {
      hide Crowd, Create;
      var s0 := CrowdOf(n - 1);
      CrowdGrows(s0, n - 1);
      s := Create(s0, n + 2, PRI_MIN);
    }
  }

  /** thread_create() up to the test of priorities */
  function Created(s: State, t: Tid, p: int): State {
    Enqueue(s.(threads := s.threads[t := NewThread(p)]), t)
  }

  lemma CrowdOverruns(s: State, n: nat, t: Tid)
    requires Crowd(s, n) && t !in s.threads
    ensures Reachable(s) && Enabled(s, ECreate(t, 32)) && |s.ready| == n && |Created(s, t, 32).ready| == n + 1
    ensures Create(s, t, 32) == Schedule(Enqueue(Created(s, t, 32), 1))
  {
    hide Reachable, Push, ReadyLess, Int32, Schedule;
    PushKeeps(s.ready, t, ReadyLess(Created(s, t, 32).threads));
  }

  /** With MAX_HEAP_SIZE threads a run of the kernel can overrun the ready heap: "main" creates a
      thread that outranks it; the newcomer still fits, but when "main" then queues itself heap_push()
      passes its assertion and stores past the buffer. */
  lemma ReadyHeapCanOverrun()
    ensures exists s: State, t: Tid ::
              && Reachable(s) && |s.threads| == 2048 && Enabled(s, ECreate(t, 32))
              && PushAt(|s.ready|) == Stored && PushAt(|Created(s, t, 32).ready|) == PastBuffer
              && Create(s, t, 32) == Schedule(Enqueue(Created(s, t, 32), s.running))
  {
    var n: nat := MAX_HEAP_SIZE - 2;
    var s := CrowdOf(n);
    var t: Tid := n + 3;
    CrowdOverruns(s, n, t);
    hide Reachable, Enabled, Created, Create, Schedule, Enqueue;
    assert PushAt(|s.ready|) == Stored;
    assert PushAt(|Created(s, t, 32).ready|) == PastBuffer;
  }

  // ---- thread_unblock() -------------------------------------------------------------------

  /** thread_unblock() asserts that its argument is blocked. */
  predicate UnblockAsserts(s: State, t: Tid) {
    Get(s.threads, t).status == Blocked
  }

  predicate SignalAsserts(s: State, r: SemaRef) {
    var q := GetSema(s.semas, r);
    q.waiters != [] ==> UnblockAsserts(s, q.waiters[MaxIndex(q.waiters, |q.waiters|, PriorityOf(s.threads))])
  }

  /** Every call of thread_unblock() in the loop of timer_wake() meets the assertion. */
  predicate WakeAsserts(s: State)
    decreases |s.sleepers|
  {
    if s.sleepers == [] || Get(s.threads, s.sleepers[0]).wakeTime > s.ticks then true
    else
      PopKeeps(s.sleepers, SleepLess(s.threads));
      UnblockAsserts(s, s.sleepers[0]) && WakeAsserts(WakeTop(s))
  }

  /** Every call of thread_unblock() in the event meets the assertion. */
  predicate UnblocksOk(s: State, e: Event) {
    match e
    case ECreate(t, p) => UnblockAsserts(s.(threads := s.threads[t := NewThread(p)]), t)
    case ESemaUp(i) => SignalAsserts(s, Named(i))
    case ELockRelease(l) => SignalAsserts(Relinquish(s, l), LockSema(l))
    case ETick => WakeAsserts(s.(ticks := s.ticks + 1))
    case _ => true
  }

  lemma SleeperBlocked(s: State, preempt: bool)
    requires Waking(s, preempt) && s.sleepers != []
    ensures UnblockAsserts(s, s.sleepers[0])
  {
    assert s.sleepers[0] in s.sleepers;
  }

  lemma {:induction false} WakeAllAsserts(s: State, preempt: bool)
    requires Waking(s, preempt)
    ensures WakeAsserts(s)
    decreases |s.sleepers|
  {
    hide Waking, UnblockAsserts, SleepLess, ReadyLess, Enqueue;
    if s.sleepers != [] && Get(s.threads, s.sleepers[0]).wakeTime <= s.ticks {
      SleeperBlocked(s, preempt);
      WakeTopShorter(s);
      WakeTopKeeps(s, preempt);
      WakeAllAsserts(WakeTop(s), preempt || Get(s.threads, s.sleepers[0]).priority > Current(s).priority);
    }
  }

  lemma SignalBlocked(s: State, r: SemaRef)
    requires r in s.semas && WaitLists(s)
    ensures SignalAsserts(s, r)
  {
    var q := s.semas[r];
    if q.waiters != [] {
      IsListed(s, r, MaxIndex(q.waiters, |q.waiters|, PriorityOf(s.threads)));
    }
  }

  lemma UpBlocked(s: State, i: nat)
    requires Inv(s) && Enabled(s, ESemaUp(i))
    ensures SignalAsserts(s, Named(i))
  {
    SignalBlocked(s, Named(i));
  }

  lemma ReleaseBlocked(s: State, l: LockId)
    requires Inv(s) && Enabled(s, ELockRelease(l))
    ensures SignalAsserts(Relinquish(s, l), LockSema(l))
  {
    var s1 := Relinquish(s, l);
    assert WaitLists(s1) by {
      RelinquishKeeps(s, l);
    }
    assert s1.semas == s.semas && LockSema(l) in s.semas;
    SignalBlocked(s1, LockSema(l));
  }

  lemma TickBlocked(s: State)
    requires Inv(s)
    ensures WakeAsserts(s.(ticks := s.ticks + 1))
  {
    var s0 := s.(ticks := s.ticks + 1);
    ClockFrame(s, s0, false);
    WakeAllAsserts(s0, false);
  }

  lemma InvUnblocksOk(s: State, e: Event)
    requires Inv(s) && Enabled(s, e)
    ensures UnblocksOk(s, e)
  {
    hide WakeAsserts, SignalAsserts, Relinquish, Inv, Enabled;
    match e
    case ESemaUp(i) => UpBlocked(s, i);
    case ELockRelease(l) => ReleaseBlocked(s, l);
    case ETick => TickBlocked(s);
    case _ =>
  }

  /** In every run from boot, every call of thread_unblock() finds its thread blocked: of the
      assertions on the way of an event only the one in donate_priority() can fail. */
  lemma EveryUnblockIsOfBlocked(trace: seq<State>, events: seq<Event>, n: nat, pushCnt: nat, ticks: nat, e: Event)
    requires IsRun(trace, events) && trace[0] == Boot(pushCnt, ticks) && n < |trace| && Enabled(trace[n], e)
    ensures UnblocksOk(trace[n], e)
  {
    BootInv(pushCnt, ticks);
    EveryRunKeepsInv(trace, events, n);
    InvUnblocksOk(trace[n], e);
  }

  lemma BothDistinct(xs: seq<Tid>, ys: seq<Tid>)
    requires Distinct(xs) && Distinct(ys) && forall t :: t in xs ==> t !in ys
    ensures Distinct(xs + ys)
  {
    DistinctByCount(xs);
    DistinctByCount(ys);
    DistinctByCount(xs + ys);
    forall t: Tid
      ensures multiset(xs + ys)[t] <= 1
    {
      assert t in xs <==> multiset(xs)[t] > 0;
      assert t in ys <==> multiset(ys)[t] > 0;
      assert multiset(xs + ys)[t] == multiset(xs)[t] + multiset(ys)[t];
    }
  }
}
