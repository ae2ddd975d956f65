/** The thread scheduler and its synchronization primitives, in priority mode
    (thread_mlfqs false): threads/thread.c, threads/synch.c and the sleeping half of
    devices/timer.c, as one transition system.

    Each event below is one interrupts-off region of the C code.  The blocking path of
    lock_acquire up to the switch, and its second half after the switch, count as one
    region each.  The machine starts where thread_start() ends. */
module KernelModel {
  import opened Common
  import opened HeapModel

  const PRI_DEFAULT: int := 31
  const DONATE_MAX_DEPTH: int := 8
  const TIME_SLICE: nat := 4

  type Tid = nat
  type LockId = nat

  datatype Status = Running | Ready | Blocked

  /** A semaphore is either free-standing or embedded in a lock. */
  datatype SemaRef = Named(id: nat) | LockSema(lock: LockId)

  /** `downing` is the semaphore in whose sema_down loop the thread was last switched out. */
  datatype Thread = Thread(
    status: Status, priority: int, base: int, entryOrd: int, wakeTime: int,
    held: seq<LockId>, waiting: Option<LockId>, downing: Option<SemaRef>)

  datatype Sema = Sema(value: nat, waiters: seq<Tid>)

  datatype Lock = Lock(holder: Option<Tid>, donate: int)

  type Threads = map<Tid, Thread>

  datatype State = State(
    threads: Threads, locks: map<LockId, Lock>, semas: map<SemaRef, Sema>,
    ready: seq<Tid>, pushCnt: nat, sleepers: seq<Tid>,
    ticks: int, slice: nat, running: Tid, idle: Tid)

  // ---- Small helpers --------------------------------------------------------------------

  function NewThread(priority: int): Thread {
    Thread(Blocked, priority, priority, 0, 0, [], None, None)
  }

  /** Lookups are total, so that comparison functions are defined on all of Tid. */
  function Get(threads: Threads, t: Tid): Thread {
    if t in threads then threads[t] else NewThread(PRI_MIN)
  }

  function GetLock(locks: map<LockId, Lock>, l: LockId): Lock {
    if l in locks then locks[l] else Lock(None, PRI_MIN)
  }

  function GetSema(semas: map<SemaRef, Sema>, r: SemaRef): Sema {
    if r in semas then semas[r] else Sema(0, [])
  }

  /** The ++ of an unsigned int. */
  function Increment(n: nat): nat {
    if n + 1 == UINT_RANGE then 0 else n + 1
  }

  function Max(a: int, b: int): int {
    if a < b then b else a
  }

  function RemoveAt<T>(xs: seq<T>, i: nat): seq<T>
    requires i < |xs|
  {
    xs[..i] + xs[i + 1..]
  }

  /** The index list_max() returns among the first n elements: the first of the largest. */
  function MaxIndex<T>(xs: seq<T>, n: nat, key: T -> int): (m: nat)
    requires 1 <= n <= |xs|
    ensures m < n
  {
    if n == 1 then 0
    else
      var m := MaxIndex(xs, n - 1, key);
      if key(xs[m]) < key(xs[n - 1]) then n - 1 else m
  }

  // ---- Comparison functions -------------------------------------------------------------

  /** cmp_thread_priority_heap */
  function ReadyLess(threads: Threads): (Tid, Tid) -> bool {
    (a: Tid, b: Tid) =>
      var x, y := Get(threads, a), Get(threads, b);
      if x.priority != y.priority then x.priority < y.priority else x.entryOrd > y.entryOrd
  }

  /** cmp_awake_time */
  function SleepLess(threads: Threads): (Tid, Tid) -> bool {
    (a: Tid, b: Tid) => Get(threads, a).wakeTime > Get(threads, b).wakeTime
  }

  function PriorityOf(threads: Threads): Tid -> int {
    (t: Tid) => Get(threads, t).priority
  }

  function DonateOf(locks: map<LockId, Lock>): LockId -> int {
    (l: LockId) => GetLock(locks, l).donate
  }

  // ---- Scheduling: thread.c -------------------------------------------------------------

  /** Stamps t with the next entry number, an int64_t converted to the int field entry_ord, and
      puts it on the ready heap. */
  function Enqueue(s: State, t: Tid): State {
    var threads := s.threads[t := Get(s.threads, t).(status := Ready, entryOrd := Int32(s.pushCnt))];
    s.(threads := threads, pushCnt := s.pushCnt + 1, ready := Push(s.ready, t, ReadyLess(threads)))
  }

  function Dispatch(s: State, t: Tid): State {
    s.(running := t, slice := 0, threads := s.threads[t := Get(s.threads, t).(status := Running)])
  }

  /** schedule(): the top of the ready heap runs next, or the idle thread if there is none. */
  function Schedule(s: State): State {
    if s.ready == [] then Dispatch(s, s.idle)
    else Dispatch(s.(ready := Pop(s.ready, ReadyLess(s.threads))), s.ready[0])
  }

  function SetRunning(s: State, th: Thread): State {
    s.(threads := s.threads[s.running := th])
  }

  function Current(s: State): Thread {
    Get(s.threads, s.running)
  }

  /** thread_yield(): the idle thread is never queued. */
  function Yield(s: State): State {
    Schedule(if s.running != s.idle then Enqueue(s, s.running)
             else SetRunning(s, Current(s).(status := Ready)))
  }

  function Create(s: State, t: Tid, priority: int): State {
    var s1 := Enqueue(s.(threads := s.threads[t := NewThread(priority)]), t);
    if priority > Current(s).priority then Yield(s1) else s1
  }

  function Exit(s: State): State {
    Schedule(s.(threads := s.threads - {s.running}))
  }

  function SetPriority(s: State, p: int): State {
    var cur := Current(s);
    var priority := if cur.priority < p || cur.held == [] then p else cur.priority;
    var s1 := SetRunning(s, cur.(base := p, priority := priority));
    if priority < cur.priority then Yield(s1) else s1
  }

  /** thread_update_priority() */
  function Recomputed(locks: map<LockId, Lock>, th: Thread): Thread {
    if th.held == [] then th.(priority := th.base)
    else
      var top := th.held[MaxIndex(th.held, |th.held|, DonateOf(locks))];
      th.(priority := Max(th.base, GetLock(locks, top).donate))
  }

  // ---- Semaphores: synch.c --------------------------------------------------------------

  /** Wakes the waiter list_max() finds, if there is one, and increments the value. */
  function Signal(s: State, r: SemaRef): State {
    var q := GetSema(s.semas, r);
    var value := Increment(q.value);
    if q.waiters == [] then s.(semas := s.semas[r := q.(value := value)])
    else
      var i := MaxIndex(q.waiters, |q.waiters|, PriorityOf(s.threads));
      Enqueue(s.(semas := s.semas[r := Sema(value, RemoveAt(q.waiters, i))]), q.waiters[i])
  }

  function SemaUp(s: State, r: SemaRef): State {
    Yield(Signal(s, r))
  }

  /** Joins the wait list of r and blocks. */
  function Park(s: State, r: SemaRef): State {
    var q := GetSema(s.semas, r);
    SetRunning(s.(semas := s.semas[r := q.(waiters := q.waiters + [s.running])]),
               Current(s).(status := Blocked, downing := Some(r)))
  }

  /** Takes one unit of r; when r belongs to a lock, becomes the lock's holder. */
  function Take(s: State, r: SemaRef): State
    requires GetSema(s.semas, r).value > 0
  {
    var q := GetSema(s.semas, r);
    var s1 := s.(semas := s.semas[r := q.(value := q.value - 1)]);
    var cur := Current(s).(downing := None);
    match r
    case Named(_) => SetRunning(s1, cur)
    case LockSema(l) =>
      SetRunning(s1.(locks := s.locks[l := GetLock(s.locks, l).(holder := Some(s.running))]),
                 cur.(waiting := None, held := cur.held + [l]))
  }

  /** One test of the sema_down loop, and what follows it up to the next switch. */
  function TestOrPark(s: State, r: SemaRef): State {
    if GetSema(s.semas, r).value == 0 then Schedule(Park(s, r)) else Take(s, r)
  }

  // ---- Locks: synch.c -------------------------------------------------------------------

  /** donate_priority(); None when its assertion that the awaited lock is held fails. */
  function Donate(s: State, t: Tid, dep: int): Option<State>
    decreases DONATE_MAX_DEPTH + 1 - dep
  {
    var donor := Get(s.threads, t);
    if dep > DONATE_MAX_DEPTH || donor.waiting.None? then Some(s)
    else
      var l := donor.waiting.value;
      var lock := GetLock(s.locks, l);
      if lock.donate >= donor.priority then Some(s)
      else if lock.holder.None? then None
      else
        var h := lock.holder.value;
        var holder := Get(s.threads, h);
        Donate(s.(locks := s.locks[l := lock.(donate := donor.priority)],
                  threads := s.threads[h := holder.(priority := Max(holder.priority, donor.priority))]),
               h, dep + 1)
  }

  function SortReady(s: State): State {
    s.(ready := Rebuild(s.ready, ReadyLess(s.threads)))
  }

  function LockAcquire(s: State, l: LockId): Option<State> {
    if GetSema(s.semas, LockSema(l)).value > 0 then Some(Take(s, LockSema(l)))
    else
      match Donate(SetRunning(s, Current(s).(waiting := Some(l))), s.running, 0)
      case None => None
      case Some(s1) => Some(Schedule(Park(SortReady(s1), LockSema(l))))
  }

  function LockTryAcquire(s: State, l: LockId): State {
    if GetSema(s.semas, LockSema(l)).value > 0 then Take(s, LockSema(l)) else s
  }

  /** lock_release() up to its call of sema_up(). */
  function Relinquish(s: State, l: LockId): State {
    var locks := s.locks[l := Lock(None, PRI_MIN)];
    var cur := Current(s);
    SetRunning(s.(locks := locks), Recomputed(locks, cur.(held := Without(cur.held, l))))
  }

  function LockRelease(s: State, l: LockId): State {
    SemaUp(Relinquish(s, l), LockSema(l))
  }

  // ---- Sleeping: timer.c ----------------------------------------------------------------

  function Sleep(s: State, x: int): State {
    if x < 0 then s
    else
      var s1 := SetRunning(s, Current(s).(status := Blocked, wakeTime := s.ticks + x));
      Schedule(s1.(sleepers := Push(s.sleepers, s.running, SleepLess(s1.threads))))
  }

  /** One iteration of the loop of timer_wake(): the top sleeper becomes ready. */
  function WakeTop(s: State): State
    requires s.sleepers != []
  {
    Enqueue(s.(sleepers := Pop(s.sleepers, SleepLess(s.threads))), s.sleepers[0])
  }

  /** timer_wake(); the second result says whether it asked for a yield. */
  function WakeAll(s: State, preempt: bool): (State, bool)
    decreases |s.sleepers|
  {
    if s.sleepers == [] || Get(s.threads, s.sleepers[0]).wakeTime > s.ticks then (s, preempt)
    else
      PopKeeps(s.sleepers, SleepLess(s.threads));
      WakeAll(WakeTop(s), preempt || Get(s.threads, s.sleepers[0]).priority > Current(s).priority)
  }

  /** The end of thread_tick(), and the yield on return from the interrupt. */
  function EndTick(s: State, preempt: bool): State {
    var s1 := s.(slice := s.slice + 1);
    if preempt || s1.slice >= TIME_SLICE then Yield(s1) else s1
  }

  /** timer_interrupt() */
  function Tick(s: State): State {
    var w := WakeAll(s.(ticks := s.ticks + 1), false);
    EndTick(w.0, w.1)
  }

  // ---- The transition system ------------------------------------------------------------

  datatype Event =
    | ECreate(tid: Tid, priority: int)
    | EYield
    | EExit
    | ESetPriority(priority: int)
    | ESemaInit(id: nat, value: nat)
    | ESemaDown(id: nat)
    | ESemaTryDown(id: nat)
    | ESemaUp(id: nat)
    | ELockInit(lock: LockId)
    | ELockAcquire(lock: LockId)
    | ELockTryAcquire(lock: LockId)
    | ELockRelease(lock: LockId)
    | ESleep(duration: int)
    | ETick
    | EResume  // the switched-in thread is inside a sema_down loop and tests the value again
    | EIdle    // the idle thread goes round its loop

  /** Whose turn it is, and what the callee asserts or documents about its caller. */
  predicate Enabled(s: State, e: Event) {
    var cur := Current(s);
    var inThread := s.running != s.idle && cur.downing.None?;
    match e
    case ECreate(t, p) => inThread && t !in s.threads && PRI_MIN <= p <= PRI_MAX
    case EYield => inThread
    case EExit => inThread && cur.held == []
    case ESetPriority(p) => inThread && PRI_MIN <= p <= PRI_MAX
    case ESemaInit(i, v) => inThread && Named(i) !in s.semas && v < UINT_RANGE
    case ESemaDown(i) => inThread && Named(i) in s.semas
    case ESemaTryDown(i) => inThread && Named(i) in s.semas
    case ESemaUp(i) => cur.downing.None? && Named(i) in s.semas
    case ELockInit(l) => inThread && l !in s.locks
    case ELockAcquire(l) => inThread && l in s.locks && s.locks[l].holder != Some(s.running)
    case ELockTryAcquire(l) => inThread && l in s.locks && s.locks[l].holder != Some(s.running)
    case ELockRelease(l) => inThread && l in s.locks && s.locks[l].holder == Some(s.running)
    case ESleep(_) => inThread
    case ETick => cur.downing.None?
    case EResume => cur.downing.Some?
    case EIdle => s.running == s.idle
  }

  /** The state after an event, or None when the kernel panics on a failed assertion. */
  function Step(s: State, e: Event): Option<State> {
    match e
    case ECreate(t, p) => Some(Create(s, t, p))
    case EYield => Some(Yield(s))
    case EExit => Some(Exit(s))
    case ESetPriority(p) => Some(SetPriority(s, p))
    case ESemaInit(i, v) => Some(s.(semas := s.semas[Named(i) := Sema(v, [])]))
    case ESemaDown(i) => Some(TestOrPark(s, Named(i)))
    case ESemaTryDown(i) =>
      Some(if GetSema(s.semas, Named(i)).value > 0 then Take(s, Named(i)) else s)
    case ESemaUp(i) => Some(SemaUp(s, Named(i)))
    case ELockInit(l) =>
      Some(s.(locks := s.locks[l := Lock(None, PRI_MIN)], semas := s.semas[LockSema(l) := Sema(1, [])]))
    case ELockAcquire(l) => LockAcquire(s, l)
    case ELockTryAcquire(l) => Some(LockTryAcquire(s, l))
    case ELockRelease(l) => Some(LockRelease(s, l))
    case ESleep(x) => Some(Sleep(s, x))
    case ETick => Some(Tick(s))
    case EResume => Some(if Current(s).downing.Some? then TestOrPark(s, Current(s).downing.value) else s)
    case EIdle => Some(Schedule(SetRunning(s, Current(s).(status := Blocked))))
  }

  /** The state thread_start() leaves, some pushes and ticks after power-on: "main" runs,
      and the idle thread has set itself up and given way to it, ready but never queued. */
  function Boot(pushCnt: nat, ticks: nat): State {
    State(map[1 := NewThread(PRI_DEFAULT).(status := Running), 2 := NewThread(PRI_MIN).(status := Ready)],
          map[], map[], [], pushCnt, [], ticks, 0, 1, 2)
  }

  /** Event number i of the run leads from state i to state i + 1. */
  ghost predicate StepsAt(trace: seq<State>, events: seq<Event>, i: nat)
    requires i < |events| && |trace| == |events| + 1
  {
    Enabled(trace[i], events[i]) && Step(trace[i], events[i]) == Some(trace[i + 1])
  }

  /** `trace` is a run of the machine under `events`. */
  ghost predicate IsRun(trace: seq<State>, events: seq<Event>) {
    |trace| == |events| + 1 && forall i: nat :: i < |events| ==> StepsAt(trace, events, i)
  }

  /** Some run leads to s from the state in which thread_start() ends when no tick comes in between:
      the idle thread and "main" have been queued once each. */
  ghost predicate Reachable(s: State) {
    exists trace: seq<State>, events: seq<Event> ::
      IsRun(trace, events) && trace[0] == Boot(2, 0) && trace[|events|] == s
  }
}
