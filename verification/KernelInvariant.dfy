/** What every run of the kernel machine keeps. */
module KernelInvariant {
  import opened Common
  import opened HeapModel
  import opened KernelModel

  // ---- Lists without repetition ---------------------------------------------------------

  /** xs is ys with one more element, at whatever place. */
  ghost predicate OneMore<T>(xs: seq<T>, ys: seq<T>, x: T) {
    multiset(xs) == multiset(ys) + multiset{x}
  }

  lemma OneMoreMembers<T(!new)>(xs: seq<T>, ys: seq<T>, x: T)
    requires OneMore(xs, ys, x)
    ensures Distinct(xs) <==> Distinct(ys) && x !in ys
    ensures forall y :: y in xs <==> y in ys || y == x
  {
    forall y
      ensures y in xs <==> y in ys || y == x
      ensures multiset(xs)[y] == multiset(ys)[y] + (if y == x then 1 else 0)
    {
      assert y in xs <==> multiset(xs)[y] > 0;
      assert y in ys <==> multiset(ys)[y] > 0;
    }
    assert multiset(xs)[x] == multiset(ys)[x] + 1;
    DistinctByCount(xs);
    DistinctByCount(ys);
  }

  // ---- The invariant --------------------------------------------------------------------

  /** The list holds exactly the threads that satisfy p, each once. */
  ghost predicate Lists(xs: seq<Tid>, p: Tid -> bool) {
    Distinct(xs) && forall t: Tid :: t in xs <==> p(t)
  }

  function IsReady(threads: Threads, idle: Tid): Tid -> bool {
    (t: Tid) => t in threads && threads[t].status == Ready && t != idle
  }

  function IsAsleep(threads: Threads, idle: Tid): Tid -> bool {
    (t: Tid) => t in threads && threads[t].status == Blocked && threads[t].downing.None? && t != idle
  }

  function WaitsFor(threads: Threads, r: SemaRef): Tid -> bool {
    (t: Tid) => t in threads && threads[t].status == Blocked && threads[t].downing == Some(r)
  }

  /** The ready heap holds each ready thread but the idle thread, once. */
  ghost predicate ReadyQueue(s: State) {
    Lists(s.ready, IsReady(s.threads, s.idle))
  }

  /** The sleep heap holds each thread that is blocked outside any semaphore, once. */
  ghost predicate SleepQueue(s: State) {
    Lists(s.sleepers, IsAsleep(s.threads, s.idle))
  }

  /** A semaphore's wait list holds each thread blocked in its sema_down loop, once. */
  ghost predicate WaitLists(s: State) {
    && (forall r: SemaRef :: r in s.semas ==> Lists(s.semas[r].waiters, WaitsFor(s.threads, r)))
    && (forall t: Tid :: t in s.threads && s.threads[t].downing.Some? ==> s.threads[t].downing.value in s.semas)
  }

  /** Both heaps are in heap order. */
  ghost predicate HeapsOrdered(s: State) {
    && Ordered(s.ready, ReadyLess(s.threads))
    && Ordered(s.sleepers, SleepLess(s.threads))
  }

  predicate LockSemaOk(lock: Lock, q: Sema) {
    && q.value == (if lock.holder.None? then 1 else 0)
    && (lock.holder.None? ==> lock.donate == PRI_MIN)
  }

  /** A lock is a binary semaphore that is up exactly when nobody holds the lock, and a
      free lock carries no donation. */
  ghost predicate LockSemas(s: State) {
    && (forall l: LockId :: l in s.locks <==> LockSema(l) in s.semas)
    && (forall l: LockId :: l in s.locks ==> LockSemaOk(s.locks[l], s.semas[LockSema(l)]))
  }

  ghost predicate HoldsExactly(held: seq<LockId>, t: Tid, locks: map<LockId, Lock>) {
    && Distinct(held)
    && forall l: LockId :: l in held <==> l in locks && locks[l].holder == Some(t)
  }

  /** A thread's list of held locks is exactly the locks it is the holder of, each once. */
  ghost predicate HeldLists(s: State) {
    && (forall t: Tid :: t in s.threads ==> HoldsExactly(s.threads[t].held, t, s.locks))
    && (forall l: LockId :: l in s.locks && s.locks[l].holder.Some? ==> s.locks[l].holder.value in s.threads)
  }

  function LockOf(downing: Option<SemaRef>): Option<LockId> {
    if downing.Some? && downing.value.LockSema? then Some(downing.value.lock) else None
  }

  /** A thread waits for a lock exactly while it is inside that lock's sema_down loop. */
  ghost predicate WaitingLocks(s: State) {
    forall t: Tid :: t in s.threads ==> s.threads[t].waiting == LockOf(s.threads[t].downing)
  }

  predicate PriorityOk(th: Thread) {
    PRI_MIN <= th.base <= th.priority && (th.held == [] ==> th.priority == th.base)
  }

  predicate DonationOk(lock: Lock, threads: Threads) {
    lock.holder.Some? ==> lock.donate <= Get(threads, lock.holder.value).priority
  }

  /** A thread runs at no less than its own priority and every donation made to it, and
      at exactly its own priority when it holds no lock. */
  ghost predicate Priorities(s: State) {
    && (forall t: Tid :: t in s.threads ==> PriorityOk(s.threads[t]))
    && (forall l: LockId :: l in s.locks ==> DonationOk(s.locks[l], s.threads))
  }

  ghost predicate IdleThread(s: State) {
    && s.idle in s.threads && s.threads[s.idle].downing.None?
    && s.threads[s.idle].base == PRI_MIN && s.threads[s.idle].held == []
  }

  predicate IsWoken(th: Thread, r: SemaRef) {
    th.downing == Some(r) && th.status != Blocked
  }

  /** The threads that were woken from r's wait list and have not tested r's value since. */
  ghost function Woken(threads: Threads, r: SemaRef): set<Tid> {
    set t | t in threads && IsWoken(threads[t], r)
  }

  /** No stranded permit: units of a semaphore that somebody waits for are all spoken for. */
  ghost predicate Permits(s: State) {
    forall r: SemaRef :: r in s.semas && s.semas[r].waiters != [] ==> s.semas[r].value <= |Woken(s.threads, r)|
  }

  /** Everything but LockSemas that also holds in the middle of a switch. */
  ghost predicate Core(s: State) {
    && ReadyQueue(s) && SleepQueue(s) && WaitLists(s) && HeapsOrdered(s)
    && HeldLists(s) && WaitingLocks(s) && Priorities(s) && IdleThread(s) && Permits(s)
  }

  ghost predicate Settled(s: State) {
    Core(s) && LockSemas(s)
  }

  ghost predicate OneRunning(s: State) {
    s.running in s.threads && forall t: Tid :: t in s.threads ==> (s.threads[t].status == Running <==> t == s.running)
  }

  ghost predicate NoneRunning(s: State) {
    forall t: Tid :: t in s.threads ==> s.threads[t].status != Running
  }

  /** The running thread's effective priority is at least that of every ready thread. */
  ghost predicate Dominates(s: State) {
    forall t: Tid :: t in s.ready ==> Get(s.threads, t).priority <= Current(s).priority
  }

  ghost predicate Inv(s: State) {
    Settled(s) && OneRunning(s) && Dominates(s)
  }

  // ---- Comparison functions -------------------------------------------------------------

  lemma LessFunctionsAreOrders(threads: Threads)
    ensures StrictWeakOrder(ReadyLess(threads)) && StrictWeakOrder(SleepLess(threads))
  {
  }

  // ---- Frames ---------------------------------------------------------------------------

  /** Two threads that differ at most in status and entry number. */
  predicate SameThread(a: Thread, b: Thread) {
    && a.priority == b.priority && a.base == b.base && a.wakeTime == b.wakeTime
    && a.held == b.held && a.waiting == b.waiting && a.downing == b.downing
  }

  /** The two states differ only in who runs, who is ready, and entry numbers. */
  ghost predicate SameButQueue(s: State, s': State) {
    && s'.locks == s.locks && s'.semas == s.semas && s'.sleepers == s.sleepers
    && s'.idle == s.idle && s'.threads.Keys == s.threads.Keys
    && (forall t: Tid :: t in s.threads ==> SameThread(s.threads[t], s'.threads[t]))
    && (forall t: Tid :: t in s.threads && t != s.idle ==>
                         (s.threads[t].status == Blocked <==> s'.threads[t].status == Blocked))
  }

  /** What the wait lists look at in a thread: the semaphore it is in, and whether blocked there. */
  function WaitKey(threads: Threads, t: Tid): Option<(SemaRef, bool)> {
    if t in threads && threads[t].downing.Some? then Some((threads[t].downing.value, threads[t].status == Blocked))
    else None
  }

  ghost predicate SameWaiting(threads: Threads, threads': Threads) {
    forall t: Tid :: WaitKey(threads', t) == WaitKey(threads, t)
  }

  lemma SameWaiters(threads: Threads, threads': Threads, xs: seq<Tid>, r: SemaRef)
    requires SameWaiting(threads, threads') && Lists(xs, WaitsFor(threads, r))
    ensures Lists(xs, WaitsFor(threads', r))
  {
    forall t: Tid
      ensures WaitsFor(threads', r)(t) == WaitsFor(threads, r)(t)
    {
      assert WaitKey(threads', t) == WaitKey(threads, t);
    }
  }

  lemma SameWoken(threads: Threads, threads': Threads, r: SemaRef)
    requires SameWaiting(threads, threads')
    ensures Woken(threads', r) == Woken(threads, r)
  {
    forall t: Tid
      ensures t in Woken(threads', r) <==> t in Woken(threads, r)
    {
      assert WaitKey(threads', t) == WaitKey(threads, t);
    }
  }

  /** Wait lists and permits depend on nothing else. */
  lemma WaitFrame(s: State, s': State)
    requires s'.semas == s.semas && SameWaiting(s.threads, s'.threads) && WaitLists(s) && Permits(s)
    ensures WaitLists(s') && Permits(s')
  {
    forall r: SemaRef | r in s'.semas
      ensures Lists(s'.semas[r].waiters, WaitsFor(s'.threads, r)) && Woken(s'.threads, r) == Woken(s.threads, r)
    {
      SameWaiters(s.threads, s'.threads, s.semas[r].waiters, r);
      SameWoken(s.threads, s'.threads, r);
    }
    forall t: Tid | t in s'.threads && s'.threads[t].downing.Some?
      ensures s'.threads[t].downing.value in s'.semas
    {
      assert WaitKey(s'.threads, t) == WaitKey(s.threads, t);
    }
  }

  lemma QueueFrameLists(s: State, s': State)
    requires SameButQueue(s, s') && IdleThread(s) && SleepQueue(s) && Ordered(s.sleepers, SleepLess(s.threads))
    ensures SleepQueue(s') && Ordered(s'.sleepers, SleepLess(s'.threads)) && IdleThread(s')
  {
    OrderedUnder(s.sleepers, SleepLess(s.threads), SleepLess(s'.threads));
  }

  lemma QueueFrameLocks(s: State, s': State)
    requires SameButQueue(s, s')
    requires LockSemas(s) && HeldLists(s) && WaitingLocks(s) && Priorities(s)
    ensures LockSemas(s') && HeldLists(s') && WaitingLocks(s') && Priorities(s')
  {
  }

  lemma QueueFrameWaiting(s: State, s': State)
    requires SameButQueue(s, s') && IdleThread(s)
    ensures SameWaiting(s.threads, s'.threads)
  {
  }

  /** A change of the queues alone keeps the rest of the invariant. */
  lemma QueueFrame(s: State, s': State)
    requires Settled(s) && SameButQueue(s, s') && ReadyQueue(s') && Ordered(s'.ready, ReadyLess(s'.threads))
    ensures Settled(s')
  {
    QueueFrameLists(s, s');
    QueueFrameLocks(s, s');
    QueueFrameWaiting(s, s');
    WaitFrame(s, s');
  }

  lemma PopReady(s: State)
    requires ReadyQueue(s) && Ordered(s.ready, ReadyLess(s.threads)) && s.ready != []
    ensures var s', t := Schedule(s), s.ready[0];
            && Distinct(s'.ready)
            && (forall u :: u in s'.ready <==> u in s.ready && u != t)
            && (forall u :: u in s.ready ==> !ReadyLess(s.threads)(t, u))
            && Ordered(s'.ready, ReadyLess(s'.threads))
  {
    var s', t, less := Schedule(s), s.ready[0], ReadyLess(s.threads);
    LessFunctionsAreOrders(s.threads);
    PopKeeps(s.ready, less);
    PopOrders(s.ready, less);
    RootIsMaximum(s.ready, less);
    OneMoreMembers(s.ready, s'.ready, t);
    OrderedUnder(s'.ready, less, ReadyLess(s'.threads));
  }

  lemma ScheduleQueue(s: State)
    requires ReadyQueue(s) && Ordered(s.ready, ReadyLess(s.threads)) && s.idle in s.threads && NoneRunning(s)
    ensures var s' := Schedule(s);
            && ReadyQueue(s') && Ordered(s'.ready, ReadyLess(s'.threads))
            && OneRunning(s') && Dominates(s') && SameButQueue(s, s')
  {
    hide Pop, ReadyLess, Ordered;
    if s.ready != [] {
      assert s.ready[0] in s.ready;
      PopReady(s);
      PopTops(s);
    } else {
      EmptyOrdered(Schedule(s));
    }
  }

  lemma EmptyOrdered(s: State)
    requires s.ready == []
    ensures Ordered(s.ready, ReadyLess(s.threads))
  {
  }

  lemma PopTops(s: State)
    requires s.ready != [] && forall u :: u in s.ready ==> !ReadyLess(s.threads)(s.ready[0], u)
    ensures forall u :: u in s.ready ==> Get(s.threads, u).priority <= Get(s.threads, s.ready[0]).priority
  {
  }

  /** schedule() from a settled state with nobody running reaches a state where the
      running thread outranks every ready one. */
  lemma ScheduleKeeps(s: State)
    requires Settled(s) && NoneRunning(s)
    ensures Inv(Schedule(s)) && SameButQueue(s, Schedule(s))
  {
    ScheduleQueue(s);
    QueueFrame(s, Schedule(s));
  }

  /** Queuing a thread that is not queued yet. */
  lemma EnqueueKeeps(s: State, t: Tid)
    requires t in s.threads && t !in s.ready && t != s.idle
    requires Distinct(s.ready)
    requires Ordered(s.ready, ReadyLess(s.threads))
    ensures var s' := Enqueue(s, t);
            && (forall u :: u in s'.ready <==> u in s.ready || u == t)
            && Distinct(s'.ready)
            && Ordered(s'.ready, ReadyLess(s'.threads))
  {
    var s' := Enqueue(s, t);
    LessFunctionsAreOrders(s'.threads);
    OrderedUnder(s.ready, ReadyLess(s.threads), ReadyLess(s'.threads));
    PushKeeps(s.ready, t, ReadyLess(s'.threads));
    PushOrders(s.ready, t, ReadyLess(s'.threads));
    OneMoreMembers(s'.ready, s.ready, t);
  }

  /** The running thread's half of thread_yield(), before schedule(). */
  function Requeue(s: State): State {
    if s.running != s.idle then Enqueue(s, s.running) else SetRunning(s, Current(s).(status := Ready))
  }

  lemma RequeueQueue(s: State)
    requires ReadyQueue(s) && Ordered(s.ready, ReadyLess(s.threads)) && OneRunning(s) && s.idle in s.threads
    ensures var s' := Requeue(s);
            && ReadyQueue(s') && Ordered(s'.ready, ReadyLess(s'.threads))
            && NoneRunning(s') && SameButQueue(s, s')
  {
    hide Push, Ordered;
    if s.running != s.idle {
      EnqueueKeeps(s, s.running);
    } else {
      OrderedUnder(s.ready, ReadyLess(s.threads), ReadyLess(Requeue(s).threads));
    }
  }

  /** thread_yield() restores the scheduling invariant whatever preceded it. */
  lemma YieldKeeps(s: State)
    requires Settled(s) && OneRunning(s)
    ensures Inv(Yield(s)) && SameButQueue(s, Yield(s))
  {
    RequeueQueue(s);
    QueueFrame(s, Requeue(s));
    ScheduleKeeps(Requeue(s));
  }
}
