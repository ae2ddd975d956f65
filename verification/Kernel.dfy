/** The scheduler as it runs: tables updated in place, both heaps on their fixed buffers.
    Every method is proved to do what the transition system of KernelModel does. */
module KernelObject {
  import opened Common
  import opened HeapModel
  import opened KernelModel
  import opened KernelInvariant
  import opened KernelSteps
  import opened KernelOperations
  import opened KernelAsserts

  /** The loop of list_max(). */
  method ListMax<T>(xs: seq<T>, key: T -> int) returns (max: nat)
    requires xs != []
    ensures max == MaxIndex(xs, |xs|, key)
    ensures max < |xs| && forall i :: 0 <= i < |xs| ==> key(xs[i]) <= key(xs[max])
  {
    max := 0;
    var e := 1;
    while e < |xs|
      invariant 1 <= e <= |xs| && max == MaxIndex(xs, e, key)
    {
      if key(xs[max]) < key(xs[e]) {
        max := e;
      }
      e := e + 1;
    }
    MaxIndexIsFirstMaximum(xs, |xs|, key);
  }

  /** One round of timer_wake() */
  lemma WakeAllUnfolds(s: State, preempt: bool)
    ensures WakeAll(s, preempt) ==
            if s.sleepers == [] || Get(s.threads, s.sleepers[0]).wakeTime > s.ticks then (s, preempt)
            else WakeAll(WakeTop(s), preempt || Get(s.threads, s.sleepers[0]).priority > Current(s).priority)
  {
  }

  lemma WakeTopPriorities(s: State)
    requires s.sleepers != []
    ensures var s' := WakeTop(s);
            && s'.running == s.running && s'.ticks == s.ticks
            && Get(s'.threads, s.sleepers[0]).priority == Get(s.threads, s.sleepers[0]).priority
            && Current(s').priority == Current(s).priority
  {
    hide Push, Pop, ReadyLess, SleepLess;
  }

  class Kernel {
    var threads: Threads
    var locks: map<LockId, Lock>
    var semas: map<SemaRef, Sema>
    const ready: Heap<Tid>
    const sleepers: Heap<Tid>
    var ticks: int
    var slice: nat
    var running: Tid
    var idle: Tid

    ghost predicate Valid()
      reads this, ready, sleepers
    {
      && ready.Valid() && sleepers.Valid() && ready != sleepers && ready.elems != sleepers.elems
      && ready.pushCnt >= 0
    }

    ghost function View(): State
      requires Valid()
      reads this, ready, ready.elems, sleepers, sleepers.elems
    {
      State(threads, locks, semas, ready.Contents(), ready.pushCnt, sleepers.Contents(), ticks, slice, running, idle)
    }

    /** thread_init() and thread_start() */
    constructor ()
      ensures Valid() && fresh(ready) && fresh(ready.elems) && fresh(sleepers) && fresh(sleepers.elems)
      ensures View() == Boot(0, 0)
    {
      threads := map[1 := NewThread(PRI_DEFAULT).(status := Running), 2 := NewThread(PRI_MIN).(status := Ready)];
      locks, semas := map[], map[];
      ready := new Heap<Tid>();
      sleepers := new Heap<Tid>();
      ticks, slice, running, idle := 0, 0, 1, 2;
    }

    // ---- thread.c -----------------------------------------------------------------------

    /** thread_unblock(), and the queuing half of thread_yield() */
    method Queue(t: Tid)
      requires Valid() && ready.size + 1 < MAX_HEAP_SIZE
      modifies this`threads, ready, ready.elems
      ensures Valid() && View() == Enqueue(old(View()), t) && ready.size == old(ready.size) + 1
    {
      hide Push, ReadyLess, Int32;
      var ord := ready.EntryCount();
      threads := threads[t := Get(threads, t).(status := Ready, entryOrd := Int32(ord))];
      var outcome := ready.Insert(t, ReadyLess(threads));
      assert outcome == Stored;
    }

    /** schedule() */
    method Switch()
      requires Valid()
      modifies this`threads, this`running, this`slice, ready, ready.elems
      ensures Valid() && View() == Schedule(old(View()))
    {
      var next := idle;
      var empty := ready.IsEmpty();
      if !empty {
        next := ready.Remove(ReadyLess(threads));
      }
      running := next;
      slice := 0;
      threads := threads[next := Get(threads, next).(status := Running)];
    }

    method ThreadYield()
      requires Valid() && (running != idle ==> ready.size + 1 < MAX_HEAP_SIZE)
      modifies this`threads, this`running, this`slice, ready, ready.elems
      ensures Valid() && View() == Yield(old(View()))
    {
      if running != idle {
        Queue(running);
      } else {
        threads := threads[running := Get(threads, running).(status := Ready)];
      }
      Switch();
    }

    method ThreadCreate(t: Tid, priority: int)
      requires Valid() && Enabled(View(), ECreate(t, priority)) && RoomFor(View(), ECreate(t, priority))
      modifies this`threads, this`running, this`slice, ready, ready.elems
      ensures Valid() && View() == Create(old(View()), t, priority)
    {
      var cur := Get(threads, running).priority;
      threads := threads[t := NewThread(priority)];
      Queue(t);
      if priority > cur {
        ThreadYield();
      }
    }

    method ThreadExit()
      requires Valid() && Enabled(View(), EExit)
      modifies this`threads, this`running, this`slice, ready, ready.elems
      ensures Valid() && View() == Exit(old(View()))
    {
      threads := threads - {running};
      Switch();
    }

    method ThreadSetPriority(p: int)
      requires Valid() && Enabled(View(), ESetPriority(p)) && RoomFor(View(), ESetPriority(p))
      modifies this`threads, this`running, this`slice, ready, ready.elems
      ensures Valid() && View() == SetPriority(old(View()), p)
    {
      var cur := Get(threads, running);
      var before := cur.priority;
      cur := cur.(base := p);
      if cur.priority < p || cur.held == [] {
        cur := cur.(priority := p);
      }
      threads := threads[running := cur];
      if cur.priority < before {
        ThreadYield();
      }
    }

    // ---- synch.c ------------------------------------------------------------------------

    /** One test of the loop of sema_down(), by a thread that enters it or is switched back
        into it, and the second half of lock_acquire() */
    method SemaTest(r: SemaRef)
      requires Valid()
      modifies this`threads, this`locks, this`semas, this`running, this`slice, ready, ready.elems
      ensures Valid() && View() == TestOrPark(old(View()), r)
    {
      var q := GetSema(semas, r);
      if q.value == 0 {
        semas := semas[r := q.(waiters := q.waiters + [running])];
        threads := threads[running := Get(threads, running).(status := Blocked, downing := Some(r))];
        Switch();
      } else {
        TakeUnit(r);
      }
    }

    method TakeUnit(r: SemaRef)
      requires Valid() && GetSema(semas, r).value > 0
      modifies this`threads, this`locks, this`semas
      ensures Valid() && View() == Take(old(View()), r)
    {
      var q := GetSema(semas, r);
      semas := semas[r := q.(value := q.value - 1)];
      var cur := Get(threads, running).(downing := None);
      if r.LockSema? {
        locks := locks[r.lock := GetLock(locks, r.lock).(holder := Some(running))];
        cur := cur.(waiting := None, held := cur.held + [r.lock]);
      }
      threads := threads[running := cur];
    }

    /** sema_try_down(), and lock_try_acquire() for the semaphore of a lock */
    method SemaTryDown(r: SemaRef) returns (success: bool)
      requires Valid()
      modifies this`threads, this`locks, this`semas
      ensures Valid() && success == (GetSema(old(semas), r).value > 0)
      ensures View() == if GetSema(old(View()).semas, r).value > 0 then Take(old(View()), r) else old(View())
    {
      success := GetSema(semas, r).value > 0;
      if success {
        TakeUnit(r);
      }
    }

    /** sema_up() */
    method SemaUp(r: SemaRef)
      requires Valid() && HasRoom(View(), SignalPushes(View(), r))
      modifies this`threads, this`semas, this`running, this`slice, ready, ready.elems
      ensures Valid() && View() == KernelModel.SemaUp(old(View()), r)
    {
      var q := GetSema(semas, r);
      if q.waiters != [] {
        var i := ListMax(q.waiters, PriorityOf(threads));
        semas := semas[r := Sema(Increment(q.value), RemoveAt(q.waiters, i))];
        Queue(q.waiters[i]);
      } else {
        semas := semas[r := q.(value := Increment(q.value))];
      }
      assert View() == Signal(old(View()), r);
      ThreadYield();
    }

    /** donate_priority(); `ok` is false when its assertion fails. */
    method DonatePriority(t: Tid, dep: int) returns (ok: bool)
      requires Valid()
      modifies this`threads, this`locks
      ensures Valid() && ok == Donate(old(View()), t, dep).Some?
      ensures ok ==> View() == Donate(old(View()), t, dep).value
      decreases DONATE_MAX_DEPTH + 1 - dep
    {
      var donor := Get(threads, t);
      if dep > DONATE_MAX_DEPTH || donor.waiting.None? {
        return true;
      }
      var l := donor.waiting.value;
      if GetLock(locks, l).donate < donor.priority {
        if GetLock(locks, l).holder.None? {
          return false;
        }
        var h := GetLock(locks, l).holder.value;
        locks := locks[l := GetLock(locks, l).(donate := donor.priority)];
        var holder := Get(threads, h);
        threads := threads[h := holder.(priority := Max(holder.priority, donor.priority))];
        ok := DonatePriority(h, dep + 1);
      } else {
        ok := true;
      }
    }

    method LockAcquire(l: LockId) returns (ok: bool)
      requires Valid() && Enabled(View(), ELockAcquire(l))
      modifies this`threads, this`locks, this`semas, this`running, this`slice, ready, ready.elems
      ensures Valid() && ok == KernelModel.LockAcquire(old(View()), l).Some?
      ensures ok ==> View() == KernelModel.LockAcquire(old(View()), l).value
    {
      var success := SemaTryDown(LockSema(l));
      ok := true;
      if !success {
        threads := threads[running := Get(threads, running).(waiting := Some(l))];
        ok := DonatePriority(running, 0);
        if ok {
          ready.RebuildAll(ReadyLess(threads));
          SemaTest(LockSema(l));
        }
      }
    }

    method LockRelease(l: LockId)
      requires Valid() && Enabled(View(), ELockRelease(l))
      requires RoomFor(View(), ELockRelease(l))
      modifies this`threads, this`locks, this`semas, this`running, this`slice, ready, ready.elems
      ensures Valid() && View() == KernelModel.LockRelease(old(View()), l)
    {
      ghost var s := View();
      locks := locks[l := Lock(None, PRI_MIN)];
      var cur := Get(threads, running);
      cur := cur.(held := Without(cur.held, l));
      var priority := cur.base;
      if cur.held != [] {
        var top := ListMax(cur.held, DonateOf(locks));
        priority := Max(priority, GetLock(locks, cur.held[top]).donate);
      }
      threads := threads[running := cur.(priority := priority)];
      assert View() == Relinquish(s, l);
      SemaUp(LockSema(l));
    }

    // ---- timer.c ------------------------------------------------------------------------

    method Drowse(x: int)
      requires Valid() && HasRoom(View(), 1)
      modifies this`threads, sleepers`size, sleepers.elems
      ensures Valid() && View() == Doze(old(View()), x)
    {
      threads := threads[running := Get(threads, running).(status := Blocked, wakeTime := ticks + x)];
      var outcome := sleepers.Insert(running, SleepLess(threads));
      assert outcome == Stored;
    }

    method TimerSleep(x: int)
      requires Valid() && Enabled(View(), ESleep(x)) && RoomFor(View(), ESleep(x))
      modifies this`threads, this`running, this`slice, ready, ready.elems, sleepers`size, sleepers.elems
      ensures Valid() && View() == Sleep(old(View()), x)
    {
      if x < 0 {
        return;
      }
      Drowse(x);
      Switch();
    }

    /** One iteration of timer_wake() */
    method WakeSleeper() returns (top: Tid)
      requires Valid() && HasRoom(View(), 1) && View().sleepers != []
      modifies this`threads, ready, ready.elems, sleepers`size, sleepers.elems
      ensures Valid() && HasRoom(View(), 1) && sleepers.size == old(sleepers.size) - 1
      ensures View() == WakeTop(old(View())) && top == old(View()).sleepers[0]
    {
      PopKeeps(View().sleepers, SleepLess(threads));
      top := sleepers.Remove(SleepLess(threads));
      Queue(top);
    }

    /** The loop of timer_wake() */
    method TimerWake() returns (preempt: bool)
      requires Valid() && HasRoom(View(), 1)
      modifies this`threads, ready, ready.elems, sleepers`size, sleepers.elems
      ensures Valid() && HasRoom(View(), 1)
      ensures View() == WakeAll(old(View()), false).0 && preempt == WakeAll(old(View()), false).1
    {
      hide WakeAll, WakeTop, SleepLess;
      preempt := false;
      while sleepers.size > 0
        invariant Valid() && HasRoom(View(), 1)
        invariant WakeAll(View(), preempt) == WakeAll(old(View()), false)
        decreases sleepers.size
      {
        WakeAllUnfolds(View(), preempt);
        var top := sleepers.Top();
        if Get(threads, top).wakeTime > ticks {
          break;
        }
        WakeTopPriorities(View());
        top := WakeSleeper();
        preempt := preempt || Get(threads, top).priority > Get(threads, running).priority;
      }
      WakeAllUnfolds(View(), preempt);
    }

    /** The end of thread_tick(), and the yield on return from the interrupt */
    method ThreadTick(preempt: bool)
      requires Valid() && HasRoom(View(), 1)
      modifies this`threads, this`running, this`slice, ready, ready.elems
      ensures Valid() && View() == EndTick(old(View()), preempt)
    {
      hide Yield;
      slice := slice + 1;
      if preempt || slice >= TIME_SLICE {
        ThreadYield();
      }
    }

    method TimerInterrupt()
      requires Valid() && RoomFor(View(), ETick)
      modifies this`threads, this`ticks, this`running, this`slice, ready, ready.elems, sleepers`size, sleepers.elems
      ensures Valid() && View() == Tick(old(View()))
    {
      ticks := ticks + 1;
      ghost var s := View();
      var preempt := TimerWake();
      assert View() == WakeAll(s, false).0 && preempt == WakeAll(s, false).1;
      ThreadTick(preempt);
    }
  }
}
