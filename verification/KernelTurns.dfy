/** Taking turns: who gives way to whom among threads of equal priority. */
module KernelTurns {
  import opened Common
  import opened HeapModel
  import opened KernelModel
  import opened KernelInvariant
  import opened KernelSteps
  import opened KernelOperations
  import opened KernelTheorems
  import opened KernelRuns

  // ---- One yield ------------------------------------------------------------------------

  /** Before it is stamped anew, a thread orders the queue like after it: it is not in it. */
  lemma OrderedAnew(s: State, t: Tid)
    requires Ordered(s.ready, ReadyLess(s.threads)) && t !in s.ready
    ensures Ordered(s.ready, ReadyLess(Enqueue(s, t).threads))
  {
    hide Push, Int32;
    OrderedUnder(s.ready, ReadyLess(s.threads), ReadyLess(Enqueue(s, t).threads));
  }

  /** thread_yield() gives way exactly when some queued thread of the same priority carries a stamp
      not above the one the yielder gets: whatever the counter, wrapped around or not. */
  lemma YieldGivesWayIff(s: State)
    requires Inv(s) && s.running != s.idle
    ensures Yield(s).running != s.running <==>
            exists u :: && u in s.ready && Get(s.threads, u).priority == Current(s).priority
                        && Get(s.threads, u).entryOrd <= Int32(s.pushCnt)
  {
    var y := s.running;
    var s1 := Enqueue(s, y);
    QueueFacts(s);
    if s.ready == [] {
      assert Push(s.ready, y, ReadyLess(s1.threads)) == [y];
    } else {
      var r := s.ready[0];
      YieldRoot(s);
      RootFirst(s);
      hide Inv, Push, Pop;
      assert r in s.ready;
      assert Yield(s).running != y <==> !ReadyLess(s1.threads)(r, y);
      assert Get(s1.threads, r) == Get(s.threads, r) && Get(s1.threads, y).entryOrd == Int32(s.pushCnt);
    }
  }

  lemma QueueFacts(s: State)
    requires Inv(s)
    ensures s.running in s.threads && s.running !in s.ready && s.idle !in s.ready && Ordered(s.ready, ReadyLess(s.threads))
    ensures forall u :: u in s.ready ==> u in s.threads && Get(s.threads, u).priority <= Current(s).priority
  {
  }

  lemma YieldRoot(s: State)
    requires s.ready != [] && s.running !in s.ready && s.running != s.idle && Ordered(s.ready, ReadyLess(s.threads))
    ensures Yield(s).running == if ReadyLess(Enqueue(s, s.running).threads)(s.ready[0], s.running) then s.running else s.ready[0]
  {
    var s1 := Enqueue(s, s.running);
    OrderedAnew(s, s.running);
    LessFunctionsAreOrders(s1.threads);
    PushRoot(s.ready, s.running, ReadyLess(s1.threads));
  }

  lemma RootFirst(s: State)
    requires s.ready != [] && Ordered(s.ready, ReadyLess(s.threads))
    ensures forall u :: u in s.ready ==> !ReadyLess(s.threads)(s.ready[0], u)
  {
    LessFunctionsAreOrders(s.threads);
    RootIsMaximum(s.ready, ReadyLess(s.threads));
  }

  /** Of two pushes less than 2^32 apart, the earlier gets the smaller stamp exactly when the counter
      does not pass an odd multiple of 2^31 from one to the other. */
  lemma StampOrderIff(k: nat, n: nat)
    requires k < n < k + UINT_RANGE
    ensures Int32(k) < Int32(n) <==> (k + STAMP_LIMIT) / UINT_RANGE == (n + STAMP_LIMIT) / UINT_RANGE
  {
  }

  // ---- The counter passes 2^31 -----------------------------------------------------------

  /** "main" is alone, after n pushes. */
  ghost predicate Alone(s: State, n: nat) {
    && Reachable(s) && s.running == 1 && s.idle == 2 && s.ready == [] && s.pushCnt == n && s.threads.Keys == {1, 2}
    && s.threads[1].priority == 31 && s.threads[1].downing.None?
  }

  lemma AloneYields(s: State, n: nat)
    requires Alone(s, n)
    ensures Alone(Yield(s), n + 1)
  {
    hide Reachable, Int32, ReadyLess;
    ReachableStep(s, EYield);
    var s1 := Enqueue(s, 1);
    assert s1.ready == [1];
    assert Pop(s1.ready, ReadyLess(s1.threads)) == [];
  }

  lemma {:induction false} AloneFor(n: nat) returns (s: State)
    requires n >= 2
    ensures Alone(s, n)
    decreases n
  {
    if n == 2 {
      BootReachable();
      s := Boot(2, 0);
    } else {
      hide Alone;
      var s0 := AloneFor(n - 1);
      AloneYields(s0, n - 1);
      s := Yield(s0);
    }
  }

  lemma AloneCreates(s: State, n: nat)
    requires Alone(s, n)
    ensures var s' := Create(s, 3, 31);
            && Reachable(s') && Enabled(s', EYield) && s'.ready == [3] && s'.running == 1 && s'.idle == 2 && s'.pushCnt == n + 1
            && Get(s'.threads, 3).priority == Current(s').priority && Get(s'.threads, 3).entryOrd == Int32(n)
  {
    hide Reachable, Int32, ReadyLess;
    ReachableStep(s, ECreate(3, 31));
  }

  /** In a run of 2^31 pushes, a thread that yields to one of its priority, queued before, runs on. */
  lemma YieldCanRunOn()
    ensures exists s: State, u: Tid ::
              && Reachable(s) && Enabled(s, EYield) && u in s.ready && Get(s.threads, u).priority == Current(s).priority
              && Yield(s).running == s.running
  {
    hide Alone, Reachable, Enabled, Create, Yield;
    var n := STAMP_LIMIT - 1;
    var s0 := AloneFor(n);
    assert Int32(n + 1) < Int32(n);
    AloneCreates(s0, n);
    var s := Create(s0, 3, 31);
    ReachableInv(s);
    hide Inv, Int32;
    YieldGivesWayIff(s);
    assert 3 in s.ready;
  }

  // ---- Turns ------------------------------------------------------------------------------

  /** No queued thread is ahead of the running one. */
  ghost predicate Picked(s: State) {
    forall u :: u in s.ready ==> !ReadyLess(s.threads)(s.running, u)
  }

  /** Who was queued in s still is, with its stamp. */
  ghost predicate StaysQueued(s: State, s': State) {
    forall t :: t in s.ready ==> t in s'.ready && Get(s'.threads, t).entryOrd == Get(s.threads, t).entryOrd
  }

  /** Who was queued in s keeps its place unless it runs; and whoever runs anew is ahead of the queue. */
  ghost predicate Turn(s: State, s': State) {
    && (forall t :: t in s.ready ==>
          (t in s'.ready || t == s'.running) && Get(s'.threads, t).entryOrd == Get(s.threads, t).entryOrd)
    && (s'.running == s.running || Picked(s'))
  }

  ghost predicate SameQueue(s: State, s': State) {
    && s'.ready == s.ready
    && forall t :: t in s.ready ==> && Get(s'.threads, t).entryOrd == Get(s.threads, t).entryOrd
                                    && Get(s'.threads, t).priority == Get(s.threads, t).priority
  }

  lemma SameQueueOrdered(s: State, s': State)
    requires SameQueue(s, s') && Ordered(s.ready, ReadyLess(s.threads))
    ensures Ordered(s'.ready, ReadyLess(s'.threads)) && StaysQueued(s, s')
  {
    OrderedUnder(s.ready, ReadyLess(s.threads), ReadyLess(s'.threads));
  }

  lemma StaysTransitive(s: State, s1: State, s2: State)
    requires StaysQueued(s, s1) && StaysQueued(s1, s2)
    ensures StaysQueued(s, s2)
  {
  }

  lemma EnqueueStays(s: State, t: Tid)
    requires Ordered(s.ready, ReadyLess(s.threads)) && t !in s.ready
    ensures var s' := Enqueue(s, t);
            && StaysQueued(s, s') && Ordered(s'.ready, ReadyLess(s'.threads))
            && (forall u :: u in s'.ready <==> u in s.ready || u == t)
  {
    var s' := Enqueue(s, t);
    OrderedAnew(s, t);
    LessFunctionsAreOrders(s'.threads);
    PushOrders(s.ready, t, ReadyLess(s'.threads));
    hide Push, Int32;
    forall u: Tid
      ensures u in s'.ready <==> u in s.ready || u == t
    {
      PushMember(s.ready, t, ReadyLess(s'.threads), u);
    }
  }

  lemma RequeueStays(s: State)
    requires Ordered(s.ready, ReadyLess(s.threads)) && s.running !in s.ready
    ensures StaysQueued(s, Requeue(s)) && Ordered(Requeue(s).ready, ReadyLess(Requeue(s).threads))
  {
    hide Enqueue;
    if s.running != s.idle {
      EnqueueStays(s, s.running);
    } else {
      SameQueueOrdered(s, SetRunning(s, Current(s).(status := Ready)));
    }
  }

  /** schedule() lets the thread run that is ahead of all others. */
  lemma ScheduleTurn(s: State, s1: State)
    requires StaysQueued(s, s1) && Ordered(s1.ready, ReadyLess(s1.threads))
    ensures Turn(s, Schedule(s1))
  {
    if s1.ready != [] {
      var s', t := Schedule(s1), s1.ready[0];
      RootFirst(s1);
      PopKeeps(s1.ready, ReadyLess(s1.threads));
      PoppedMembers(s1.ready, s'.ready, t);
    }
  }

  lemma PoppedMembers(xs: seq<Tid>, ys: seq<Tid>, t: Tid)
    requires multiset(xs) == multiset(ys) + multiset{t}
    ensures forall u :: u in xs && u != t ==> u in ys
    ensures forall u :: u in ys ==> u in xs
  {
    forall u: Tid
      ensures u in xs && u != t ==> u in ys
      ensures u in ys ==> u in xs
    {
      assert u in xs <==> u in multiset(xs);
      assert u in ys <==> u in multiset(ys);
    }
  }

  lemma StayTurn(s: State, s': State)
    requires StaysQueued(s, s') && s'.running == s.running
    ensures Turn(s, s')
  {
  }

  lemma YieldTurn(s: State, s1: State)
    requires StaysQueued(s, s1) && Ordered(s1.ready, ReadyLess(s1.threads)) && s1.running !in s1.ready
    ensures Turn(s, Yield(s1))
  {
    hide StaysQueued, Ordered, Turn, Schedule, Enqueue;
    RequeueStays(s1);
    StaysTransitive(s, s1, Requeue(s1));
    ScheduleTurn(s, Requeue(s1));
  }

  lemma EnqueuePriorities(s: State, t: Tid)
    ensures var s' := Enqueue(s, t);
            && s'.running == s.running && s'.idle == s.idle
            && forall u :: Get(s'.threads, u).priority == Get(s.threads, u).priority
  {
  }

  lemma TopOutranks(s: State, t: Tid)
    requires Ordered(s.ready, ReadyLess(s.threads)) && t in s.ready
    requires forall u :: u in s.ready && u != t ==> Get(s.threads, u).priority < Get(s.threads, t).priority
    ensures Schedule(s).running == t
  {
    RootFirst(s);
    assert s.ready[0] in s.ready;
  }

  lemma NewcomerRuns(s1: State, t: Tid)
    requires Ordered(s1.ready, ReadyLess(s1.threads)) && s1.running !in s1.ready && s1.running != s1.idle
    requires t in s1.ready && Current(s1).priority < Get(s1.threads, t).priority
    requires forall u :: u in s1.ready && u != t ==> Get(s1.threads, u).priority < Get(s1.threads, t).priority
    ensures Yield(s1).running == t
  {
    hide Enqueue, Ordered, ReadyLess, Schedule;
    EnqueueStays(s1, s1.running);
    EnqueuePriorities(s1, s1.running);
    TopOutranks(Enqueue(s1, s1.running), t);
  }

  /** thread_create() lets the newcomer run at once exactly when it outranks its creator. */
  lemma CreateRunsNewcomerIff(s: State, t: Tid, p: int)
    requires Inv(s) && Enabled(s, ECreate(t, p))
    ensures Create(s, t, p).running == (if p > Current(s).priority then t else s.running)
  {
    QueueFacts(s);
    hide Inv, Enqueue, Ordered, ReadyLess, Yield;
    var s0 := s.(threads := s.threads[t := NewThread(p)]);
    SameQueueOrdered(s, s0);
    EnqueueStays(s0, t);
    EnqueuePriorities(s0, t);
    if p > Current(s).priority {
      NewcomerRuns(Enqueue(s0, t), t);
    }
  }

  // ---- Every step is a turn -----------------------------------------------------------------

  /** What the steps start from. */
  ghost predicate Orderly(s: State) {
    && Ordered(s.ready, ReadyLess(s.threads)) && s.running !in s.ready
    && (forall t :: t in s.ready ==> t in s.threads && s.threads[t].status == Ready)
  }

  lemma InvOrderly(s: State)
    requires Inv(s)
    ensures Orderly(s) && s.running in s.threads && s.threads[s.running].status == Running
  {
  }

  lemma RunningTurn(s: State, th: Thread, s1: State)
    requires Orderly(s) && s1.ready == s.ready && s1.running == s.running && s1.threads == s.threads[s.running := th]
    ensures SameQueue(s, s1) && StaysQueued(s, s1) && Ordered(s1.ready, ReadyLess(s1.threads)) && s1.running !in s1.ready
  {
    SameQueueOrdered(s, s1);
  }

  lemma CreateTurn(s: State, t: Tid, p: int)
    requires Orderly(s) && t !in s.threads && t != s.running
    ensures Turn(s, Create(s, t, p))
  {
    hide Enqueue, Yield, Ordered;
    var s0 := s.(threads := s.threads[t := NewThread(p)]);
    SameQueueOrdered(s, s0);
    EnqueueStays(s0, t);
    var s1 := Enqueue(s0, t);
    assert s1.running == s.running by {
      EnqueueRuns(s0, t);
    }
    StaysTransitive(s, s0, s1);
    if p > Current(s).priority {
      YieldTurn(s, s1);
    } else {
      StayTurn(s, s1);
    }
  }

  lemma EnqueueRuns(s: State, t: Tid)
    ensures Enqueue(s, t).running == s.running
  {
  }

  lemma TestOrParkTurn(s: State, r: SemaRef)
    requires Orderly(s)
    ensures Turn(s, TestOrPark(s, r))
  {
    hide Schedule;
    if GetSema(s.semas, r).value == 0 {
      RunningTurn(s, Current(s).(status := Blocked, downing := Some(r)), Park(s, r));
      ScheduleTurn(s, Park(s, r));
    } else {
      RunningTurn(s, Get(Take(s, r).threads, s.running), Take(s, r));
      StayTurn(s, Take(s, r));
    }
  }

  lemma SignalStays(s: State, r: SemaRef)
    requires Orderly(s) && forall i :: 0 <= i < |GetSema(s.semas, r).waiters| ==> Waits(s, GetSema(s.semas, r).waiters[i])
    ensures var s' := Signal(s, r);
            && StaysQueued(s, s') && Ordered(s'.ready, ReadyLess(s'.threads)) && s'.running == s.running && s'.running !in s'.ready
  {
    hide Enqueue, MaxIndex, PriorityOf;
    var q := GetSema(s.semas, r);
    if q.waiters != [] {
      var i := MaxIndex(q.waiters, |q.waiters|, PriorityOf(s.threads));
      var s1 := s.(semas := s.semas[r := Sema(Increment(q.value), RemoveAt(q.waiters, i))]);
      assert Waits(s, q.waiters[i]);
      EnqueueStays(s1, q.waiters[i]);
      EnqueueRuns(s1, q.waiters[i]);
    }
  }

  /** A thread on a wait list is neither queued nor running. */
  ghost predicate Waits(s: State, t: Tid) {
    t in s.threads && s.threads[t].status == Blocked && t != s.running
  }

  lemma WaitersWait(s: State, r: SemaRef)
    requires Inv(s) && r in s.semas
    ensures forall i :: 0 <= i < |GetSema(s.semas, r).waiters| ==> Waits(s, GetSema(s.semas, r).waiters[i])
  {
    forall i | 0 <= i < |s.semas[r].waiters|
      ensures Waits(s, s.semas[r].waiters[i])
    {
      IsListed(s, r, i);
    }
  }

  lemma SemaUpTurn(s: State, s1: State, r: SemaRef)
    requires Orderly(s1) && StaysQueued(s, s1)
    requires forall i :: 0 <= i < |GetSema(s1.semas, r).waiters| ==> Waits(s1, GetSema(s1.semas, r).waiters[i])
    ensures Turn(s, SemaUp(s1, r))
  {
    hide Signal, Yield, Ordered;
    SignalStays(s1, r);
    StaysTransitive(s, s1, Signal(s1, r));
    YieldTurn(s, Signal(s1, r));
  }

  lemma RelinquishTurn(s: State, l: LockId)
    requires Orderly(s) && s.running in s.threads && s.threads[s.running].status == Running
    ensures Orderly(Relinquish(s, l)) && StaysQueued(s, Relinquish(s, l))
  {
    hide Recomputed, Ordered;
    var s1 := Relinquish(s, l);
    RunningTurn(s, s1.threads[s.running], s1);
  }

  lemma RelinquishWaiters(s: State, l: LockId, i: nat)
    requires i < |GetSema(s.semas, LockSema(l)).waiters| && Waits(s, GetSema(s.semas, LockSema(l)).waiters[i])
    ensures var s1 := Relinquish(s, l);
            s1.semas == s.semas && Waits(s1, GetSema(s.semas, LockSema(l)).waiters[i])
  {
    hide Recomputed;
  }

  lemma ReleaseTurn(s: State, l: LockId)
    requires Inv(s) && Enabled(s, ELockRelease(l))
    ensures Turn(s, LockRelease(s, l))
  {
    InvOrderly(s);
    WaitersWait(s, LockSema(l));
    hide Inv, SemaUp, Relinquish, Orderly, Waits;
    var s1 := Relinquish(s, l);
    RelinquishTurn(s, l);
    assert s1.semas == s.semas by {
      RelinquishSemas(s, l);
    }
    forall i | 0 <= i < |GetSema(s1.semas, LockSema(l)).waiters|
      ensures Waits(s1, GetSema(s1.semas, LockSema(l)).waiters[i])
    {
      RelinquishWaiters(s, l, i);
    }
    SemaUpTurn(s, s1, LockSema(l));
  }

  lemma RelinquishSemas(s: State, l: LockId)
    ensures Relinquish(s, l).semas == s.semas
  {
  }

  /** Donation changes keys inside the heap; the rebuild orders it again. */
  lemma RaisedStays(s: State, s1: State)
    requires s1.ready == s.ready
    requires forall t :: t in s.ready ==> Get(s1.threads, t).entryOrd == Get(s.threads, t).entryOrd
    ensures StaysQueued(s, SortReady(s1)) && Ordered(SortReady(s1).ready, ReadyLess(s1.threads))
    ensures forall t :: t in SortReady(s1).ready ==> t in s.ready
  {
    LessFunctionsAreOrders(s1.threads);
    RebuildRestores(s1.ready, ReadyLess(s1.threads));
    forall t: Tid
      ensures t in SortReady(s1).ready <==> t in s.ready
    {
      assert t in s.ready <==> t in multiset(s.ready);
      assert t in SortReady(s1).ready <==> t in multiset(SortReady(s1).ready);
    }
  }

  lemma BlockTurn(s: State, s1: State, r: SemaRef)
    requires s1.ready == s.ready && s1.running == s.running && s.running !in s.ready
    requires forall t :: t in s.ready ==> Get(s1.threads, t).entryOrd == Get(s.threads, t).entryOrd
    ensures Turn(s, Schedule(Park(SortReady(s1), r)))
  {
    hide Rebuild, Schedule;
    RaisedStays(s, s1);
    var s2 := SortReady(s1);
    SameQueueOrdered(s2, Park(s2, r));
    StaysTransitive(s, s2, Park(s2, r));
    ScheduleTurn(s, Park(s2, r));
  }

  lemma AcquireTurn(s: State, l: LockId)
    requires Inv(s) && Enabled(s, ELockAcquire(l)) && LockAcquire(s, l).Some?
    ensures Turn(s, LockAcquire(s, l).value)
  {
    InvOrderly(s);
    if s.semas[LockSema(l)].value > 0 {
      TestOrParkTurn(s, LockSema(l));
    } else {
      DonatedStamps(s, l);
      BlockTurn(s, Donate(Wanting(s, l), s.running, 0).value, LockSema(l));
    }
  }

  lemma DonatedStamps(s: State, l: LockId)
    requires Inv(s) && Enabled(s, ELockAcquire(l)) && Donate(Wanting(s, l), s.running, 0).Some?
    ensures var s1 := Donate(Wanting(s, l), s.running, 0).value;
            && s1.ready == s.ready && s1.running == s.running
            && forall t :: t in s.ready ==> Get(s1.threads, t).entryOrd == Get(s.threads, t).entryOrd
  {
    AcquireRaises(s, l);
  }

  lemma {:induction false} WakeAllStays(s: State, preempt: bool)
    requires Waking(s, preempt)
    ensures StaysQueued(s, WakeAll(s, preempt).0) && WakeAll(s, preempt).0.running == s.running
    decreases |s.sleepers|
  {
    hide Waking, StaysQueued, Enqueue, SleepLess, ReadyLess;
    if s.sleepers != [] && Get(s.threads, s.sleepers[0]).wakeTime <= s.ticks {
      WakeTopStays(s, preempt);
      WakeTopShorter(s);
      WakeTopKeeps(s, preempt);
      var p := preempt || Get(s.threads, s.sleepers[0]).priority > Current(s).priority;
      WakeAllStays(WakeTop(s), p);
      StaysTransitive(s, WakeTop(s), WakeAll(WakeTop(s), p).0);
    } else {
      assert StaysQueued(s, s) by {
        StaysHere(s);
      }
    }
  }

  lemma StaysHere(s: State)
    ensures StaysQueued(s, s)
  {
  }

  lemma WakeTopStays(s: State, preempt: bool)
    requires Waking(s, preempt) && s.sleepers != []
    ensures StaysQueued(s, WakeTop(s)) && WakeTop(s).running == s.running
  {
    var t := s.sleepers[0];
    assert t in s.sleepers;
    hide Enqueue, SleepLess;
    var s1 := s.(sleepers := Pop(s.sleepers, SleepLess(s.threads)));
    EnqueueStays(s1, t);
    EnqueueRuns(s1, t);
  }

  lemma EndTickTurn(s: State, w: State, preempt: bool)
    requires StaysQueued(s, w) && Orderly(w) && w.running == s.running
    ensures Turn(s, EndTick(w, preempt))
  {
    hide Yield;
    var s1 := w.(slice := w.slice + 1);
    SameQueueOrdered(w, s1);
    StaysTransitive(s, w, s1);
    if preempt || s1.slice >= TIME_SLICE {
      YieldTurn(s, s1);
    } else {
      StayTurn(s, s1);
    }
  }

  lemma TickTurn(s: State)
    requires Inv(s)
    ensures Turn(s, Tick(s))
  {
    hide Inv, Waking, EndTick, WakeAll, Orderly, StaysQueued, Turn;
    var s0 := s.(ticks := s.ticks + 1);
    TickWaking(s);
    WakeAllStays(s0, false);
    WakingAll(s);
    var w := WakeAll(s0, false);
    WakingOrderly(w.0, w.1);
    assert StaysQueued(s, w.0) by {
      TickStays(s, w.0);
    }
    EndTickTurn(s, w.0, w.1);
  }

  lemma TickWaking(s: State)
    requires Inv(s)
    ensures Waking(s.(ticks := s.ticks + 1), false)
  {
    ClockFrame(s, s.(ticks := s.ticks + 1), false);
  }

  lemma TickStays(s: State, s': State)
    requires StaysQueued(s.(ticks := s.ticks + 1), s')
    ensures StaysQueued(s, s')
  {
  }

  lemma WakingOrderly(s: State, preempt: bool)
    requires Waking(s, preempt)
    ensures Orderly(s)
  {
  }

  lemma SetPriorityTurn(s: State, p: int)
    requires Orderly(s)
    ensures Turn(s, SetPriority(s, p))
  {
    hide Yield;
    var cur := Current(s);
    var th := cur.(base := p, priority := if cur.priority < p || cur.held == [] then p else cur.priority);
    RunningTurn(s, th, SetRunning(s, th));
    if th.priority < cur.priority {
      YieldTurn(s, SetRunning(s, th));
    } else {
      StayTurn(s, SetRunning(s, th));
    }
  }

  lemma ExitTurn(s: State)
    requires Orderly(s)
    ensures Turn(s, Exit(s))
  {
    hide Schedule;
    var s1 := s.(threads := s.threads - {s.running});
    SameQueueOrdered(s, s1);
    ScheduleTurn(s, s1);
  }

  lemma SleepTurn(s: State, x: int)
    requires Orderly(s)
    ensures Turn(s, Sleep(s, x))
  {
    hide Schedule, Push, SleepLess;
    if x >= 0 {
      RunningTurn(s, Get(Doze(s, x).threads, s.running), Doze(s, x));
      ScheduleTurn(s, Doze(s, x));
    } else {
      StaysHere(s);
      StayTurn(s, s);
    }
  }

  lemma IdleTurn(s: State)
    requires Orderly(s)
    ensures Turn(s, Schedule(SetRunning(s, Current(s).(status := Blocked))))
  {
    hide Schedule;
    var s1 := SetRunning(s, Current(s).(status := Blocked));
    RunningTurn(s, Current(s).(status := Blocked), s1);
    ScheduleTurn(s, s1);
  }

  lemma QuietTurn(s: State, e: Event)
    requires Orderly(s) && (e.ESemaInit? || e.ESemaTryDown? || e.ELockInit? || e.ELockTryAcquire?)
    ensures Turn(s, Step(s, e).value)
  {
    var s' := Step(s, e).value;
    SameQueueOrdered(s, s');
    StayTurn(s, s');
  }

  /** Every step of the kernel is a turn. */
  lemma StepTurn(s: State, e: Event)
    requires Inv(s) && Enabled(s, e) && Step(s, e).Some?
    ensures Turn(s, Step(s, e).value)
  {
    InvOrderly(s);
    match e
    case ECreate(t, p) =>
      CreateTurn(s, t, p);
    case EYield =>
      StaysHere(s);
      YieldTurn(s, s);
    case ESemaUp(i) =>
      WaitersWait(s, Named(i));
      StaysHere(s);
      SemaUpTurn(s, s, Named(i));
    case ELockAcquire(l) =>
      AcquireTurn(s, l);
    case ELockRelease(l) =>
      ReleaseTurn(s, l);
    case ETick =>
      TickTurn(s);
    case _ =>
      LocalTurn(s, e);
  }

  lemma LocalTurn(s: State, e: Event)
    requires Orderly(s) && Enabled(s, e) && Step(s, e).Some?
    requires !(e.ECreate? || e.EYield? || e.ESemaUp? || e.ELockAcquire? || e.ELockRelease? || e.ETick?)
    ensures Turn(s, Step(s, e).value)
  {
    hide Orderly, Turn, Exit, SetPriority, TestOrPark, Sleep, Schedule;
    match e
    case EExit => ExitTurn(s);
    case ESetPriority(p) => SetPriorityTurn(s, p);
    case ESemaDown(i) => TestOrParkTurn(s, Named(i));
    case ESleep(x) => SleepTurn(s, x);
    case EResume => TestOrParkTurn(s, Current(s).downing.value);
    case EIdle => IdleTurn(s);
    case _ => QuietTurn(s, e);
  }

  // ---- First in, first out, over runs ---------------------------------------------------------

  /** u and y are both queued in state j of the run, u with the smaller stamp. */
  ghost predicate InLine(s: State, u: Tid, y: Tid, a: int, b: int) {
    && u in s.ready && y in s.ready && Get(s.threads, u).entryOrd == a && Get(s.threads, y).entryOrd == b
  }

  /** A step that does not let u run does not let y run either, unless y outranks u by then. */
  lemma LineKept(s: State, s': State, u: Tid, y: Tid, a: int, b: int)
    requires Turn(s, s') && InLine(s, u, y, a, b) && a < b && s.running !in s.ready && s'.running != u && u != y
    requires Get(s'.threads, y).priority <= Get(s'.threads, u).priority
    ensures InLine(s', u, y, a, b)
  {
    assert s'.running == y ==> Picked(s') && u in s'.ready;
  }

  /** Over any run: a thread y that yields at step i while u is queued at its priority, with a stamp
      below the one y gets, does not run again before u has run, as long as its priority does not
      exceed u's.  They wait in line, with those stamps. */
  lemma {:induction false} YielderWaits(trace: seq<State>, events: seq<Event>, i: nat, k: nat, u: Tid)
    requires IsRun(trace, events) && Inv(trace[0]) && i < k < |trace| && events[i] == EYield
    requires var s, y := trace[i], trace[i].running;
             u in s.ready && Get(s.threads, u).priority == Get(s.threads, y).priority && Get(s.threads, u).entryOrd < Int32(s.pushCnt)
    requires forall j :: i < j <= k ==> Get(trace[j].threads, trace[i].running).priority <= Get(trace[j].threads, u).priority
    requires forall j :: i < j <= k ==> trace[j].running != u
    ensures trace[k].running != trace[i].running
    ensures InLine(trace[k], u, trace[i].running, Get(trace[i].threads, u).entryOrd, Int32(trace[i].pushCnt))
    decreases k
  {
    hide Inv, Enabled, Step, InLine, Turn;
    var s, y := trace[i], trace[i].running;
    var a, b := Get(s.threads, u).entryOrd, Int32(s.pushCnt);
    EveryRunKeepsInv(trace, events, i);
    EveryRunKeepsInv(trace, events, k - 1);
    EveryRunKeepsInv(trace, events, k);
    assert StepsAt(trace, events, k - 1);
    if k == i + 1 {
      YieldStep(s);
      YieldLines(s, u);
    } else {
      YielderWaits(trace, events, i, k - 1, u);
      StepTurn(trace[k - 1], events[k - 1]);
      QueueFacts(trace[k - 1]);
      assert u != y by {
        QueueFacts(s);
      }
      LineKept(trace[k - 1], trace[k], u, y, a, b);
    }
    RunningNotInLine(trace[k], u, y, a, b);
  }

  lemma RunningNotInLine(s: State, u: Tid, y: Tid, a: int, b: int)
    requires Inv(s) && InLine(s, u, y, a, b)
    ensures s.running != y
  {
    QueueFacts(s);
  }

  lemma YieldLines(s: State, u: Tid)
    requires Inv(s) && Enabled(s, EYield) && u in s.ready
    requires Get(s.threads, u).priority == Current(s).priority && Get(s.threads, u).entryOrd < Int32(s.pushCnt)
    requires Yield(s).running != u
    ensures InLine(Yield(s), u, s.running, Get(s.threads, u).entryOrd, Int32(s.pushCnt))
  {
    QueueFacts(s);
    YieldGivesWayIff(s);
    var s1 := Enqueue(s, s.running);
    EnqueueStays(s, s.running);
    hide Inv, Enqueue;
    ScheduleTurn(s1, s1);
    assert Get(s1.threads, s.running).entryOrd == Int32(s.pushCnt) by {
      EnqueueStamps(s, s.running);
    }
  }

  lemma YieldStep(s: State)
    ensures Step(s, EYield) == Some(Yield(s))
  {
  }

  lemma EnqueueStamps(s: State, t: Tid)
    ensures Get(Enqueue(s, t).threads, t).entryOrd == Int32(s.pushCnt)
  {
  }

  /** Said the other way round: if y runs again at k, u has run in between. */
  lemma YielderRunsAfter(trace: seq<State>, events: seq<Event>, i: nat, k: nat, u: Tid)
    requires IsRun(trace, events) && Inv(trace[0]) && i < k < |trace| && events[i] == EYield
    requires var s, y := trace[i], trace[i].running;
             u in s.ready && Get(s.threads, u).priority == Get(s.threads, y).priority && Get(s.threads, u).entryOrd < Int32(s.pushCnt)
    requires forall j :: i < j <= k ==> Get(trace[j].threads, trace[i].running).priority <= Get(trace[j].threads, u).priority
    requires trace[k].running == trace[i].running
    ensures exists j :: i < j < k && trace[j].running == u
  {
    hide Inv, Get;
    if forall j :: i < j <= k ==> trace[j].running != u {
      YielderWaits(trace, events, i, k, u);
    } else {
      var j :| i < j <= k && trace[j].running == u;
      EveryRunKeepsInv(trace, events, i);
      QueueFacts(trace[i]);
    }
  }

  /** From boot, below 2^31 pushes, no condition on stamps is left: threads of one priority that yield
      take turns. */
  lemma FirstInFirstOut(trace: seq<State>, events: seq<Event>, i: nat, k: nat, u: Tid, pushCnt: nat, ticks: nat)
    requires IsRun(trace, events) && trace[0] == Boot(pushCnt, ticks) && i < k < |trace| && events[i] == EYield
    requires forall j :: 0 <= j <= i ==> trace[j].pushCnt < STAMP_LIMIT
    requires u in trace[i].ready && Get(trace[i].threads, u).priority == Current(trace[i]).priority
    requires forall j :: i < j <= k ==> Get(trace[j].threads, trace[i].running).priority <= Get(trace[j].threads, u).priority
    requires trace[k].running == trace[i].running
    ensures exists j :: i < j < k && trace[j].running == u
  {
    BootInv(pushCnt, ticks);
    EveryRunStamped(trace, events, i);
    hide Inv;
    YielderRunsAfter(trace, events, i, k, u);
  }
}
