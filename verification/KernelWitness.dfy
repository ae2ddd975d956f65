/** A run of the kernel machine from boot, and what goes wrong along it.

    "main" (priority 31) holds locks 2 and 3.  Thread 3 holds lock 1 and waits for lock 2,
    thread 4 waits for lock 1 and thread 5 for lock 3, so that "main" runs at 60.  It releases
    lock 2, which wakes thread 3, takes lock 2 again before thread 3 gets to run, and releases
    lock 3: now thread 3 waits for a lock that carries nothing, behind a holder at 31. */
module KernelWitness {
  import opened Common
  import opened HeapModel
  import opened KernelModel
  import opened KernelInvariant
  import opened KernelOperations
  import opened KernelTheorems
  import opened KernelDonation

  // ---- Heaps of up to four elements ------------------------------------------------------

  lemma PushOne(a: Tid, b: Tid, less: (Tid, Tid) -> bool)
    ensures Push([a], b, less) == if less(a, b) then [b, a] else [a, b]
  {
    assert [a] + [b] == [a, b];
    assert Swap([a, b], 1, 2) == [b, a];
  }

  lemma PushTwo(a: Tid, b: Tid, c: Tid, less: (Tid, Tid) -> bool)
    ensures Push([a, b], c, less) == if less(a, c) then [c, b, a] else [a, b, c]
  {
    assert [a, b] + [c] == [a, b, c];
    assert Swap([a, b, c], 1, 3) == [c, b, a];
  }

  lemma PushThree(a: Tid, b: Tid, c: Tid, d: Tid, less: (Tid, Tid) -> bool)
    requires !less(b, d)
    ensures Push([a, b, c], d, less) == [a, b, c, d]
  {
    assert [a, b, c] + [d] == [a, b, c, d];
  }

  lemma PushNone(a: Tid, less: (Tid, Tid) -> bool)
    ensures Push([], a, less) == [a] && Rebuild([a], less) == [a] && Pop([a], less) == []
  {
    assert [] + [a] == [a];
    assert RebuildFrom([a], 1, less) == RebuildFrom([a], 0, less);
  }

  lemma PopTwo(a: Tid, b: Tid, less: (Tid, Tid) -> bool)
    ensures Pop([a, b], less) == [b]
  {
    assert Swap([a, b], 1, 2)[..1] == [b];
  }

  lemma PopThree(a: Tid, b: Tid, c: Tid, less: (Tid, Tid) -> bool)
    ensures Pop([a, b, c], less) == if less(c, b) then [b, c] else [c, b]
  {
    assert Swap([a, b, c], 1, 3)[..2] == [c, b];
    assert Swap([c, b], 1, 2) == [b, c];
    assert DownHeap([b, c], 2, less) == [b, c];
  }

  lemma PopFour(a: Tid, b: Tid, c: Tid, d: Tid, less: (Tid, Tid) -> bool)
    requires less(b, c) && less(d, c)
    ensures Pop([a, b, c, d], less) == [c, b, d]
  {
    assert Swap([a, b, c, d], 1, 4)[..3] == [d, b, c];
    assert Swap([d, b, c], 1, 3) == [c, b, d];
    assert DownHeap([c, b, d], 3, less) == [c, b, d];
    assert LargerChild([d, b, c], 1, less) == 3;
  }

  // ---- The states of the run -------------------------------------------------------------

  /** A thread that waits for nothing or, being in its sema_down loop, for a lock. */
  function T(status: Status, priority: int, base: int, ord: int, held: seq<LockId>, waiting: Option<LockId>): Thread {
    Thread(status, priority, base, ord, 0, held, waiting, if waiting.None? then None else Some(LockSema(waiting.value)))
  }

  function St(threads: Threads, l1: Lock, l2: Lock, l3: Lock, q1: Sema, q2: Sema, q3: Sema,
              ready: seq<Tid>, pushCnt: nat, sleepers: seq<Tid>, running: Tid): State {
    State(threads, map[1 := l1, 2 := l2, 3 := l3], map[LockSema(1) := q1, LockSema(2) := q2, LockSema(3) := q3],
          ready, pushCnt, sleepers, 0, 0, running, 2)
  }

  function S3(): State {
    St(map[1 := T(Running, 31, 31, 0, [], None),
           2 := T(Ready, 0, 0, 0, [], None)],
       Lock(None, 0), Lock(None, 0), Lock(None, 0), Sema(1, []), Sema(1, []), Sema(1, []),
       [], 2, [], 1)
  }

  function S4(): State {
    St(map[1 := T(Running, 31, 31, 0, [2], None),
           2 := T(Ready, 0, 0, 0, [], None)],
       Lock(None, 0), Lock(Some(1), 0), Lock(None, 0), Sema(1, []), Sema(0, []), Sema(1, []),
       [], 2, [], 1)
  }

  function S5(): State {
    St(map[1 := T(Running, 31, 31, 0, [2, 3], None),
           2 := T(Ready, 0, 0, 0, [], None)],
       Lock(None, 0), Lock(Some(1), 0), Lock(Some(1), 0), Sema(1, []), Sema(0, []), Sema(0, []),
       [], 2, [], 1)
  }

  function S6(): State {
    St(map[1 := T(Ready, 31, 31, 3, [2, 3], None),
           2 := T(Ready, 0, 0, 0, [], None),
           3 := T(Running, 40, 40, 2, [], None)],
       Lock(None, 0), Lock(Some(1), 0), Lock(Some(1), 0), Sema(1, []), Sema(0, []), Sema(0, []),
       [1], 4, [], 3)
  }

  function S7(): State {
    St(map[1 := T(Ready, 31, 31, 3, [2, 3], None),
           2 := T(Ready, 0, 0, 0, [], None),
           3 := T(Running, 40, 40, 2, [1], None)],
       Lock(Some(3), 0), Lock(Some(1), 0), Lock(Some(1), 0), Sema(0, []), Sema(0, []), Sema(0, []),
       [1], 4, [], 3)
  }

  function S8(): State {
    St(map[1 := T(Running, 40, 31, 3, [2, 3], None),
           2 := T(Ready, 0, 0, 0, [], None),
           3 := T(Blocked, 40, 40, 2, [1], Some(2))],
       Lock(Some(3), 0), Lock(Some(1), 40), Lock(Some(1), 0), Sema(0, []), Sema(0, [3]), Sema(0, []),
       [], 4, [], 1)
  }

  function S9(): State {
    St(map[1 := T(Ready, 40, 31, 5, [2, 3], None),
           2 := T(Ready, 0, 0, 0, [], None),
           3 := T(Blocked, 40, 40, 2, [1], Some(2)),
           4 := T(Running, 45, 45, 4, [], None)],
       Lock(Some(3), 0), Lock(Some(1), 40), Lock(Some(1), 0), Sema(0, []), Sema(0, [3]), Sema(0, []),
       [1], 6, [], 4)
  }

  function S10(): State {
    St(map[1 := T(Running, 45, 31, 5, [2, 3], None),
           2 := T(Ready, 0, 0, 0, [], None),
           3 := T(Blocked, 45, 40, 2, [1], Some(2)),
           4 := T(Blocked, 45, 45, 4, [], Some(1))],
       Lock(Some(3), 45), Lock(Some(1), 45), Lock(Some(1), 0), Sema(0, [4]), Sema(0, [3]), Sema(0, []),
       [], 6, [], 1)
  }

  function S11(): State {
    St(map[1 := T(Ready, 45, 31, 7, [2, 3], None),
           2 := T(Ready, 0, 0, 0, [], None),
           3 := T(Blocked, 45, 40, 2, [1], Some(2)),
           4 := T(Blocked, 45, 45, 4, [], Some(1)),
           5 := T(Running, 60, 60, 6, [], None)],
       Lock(Some(3), 45), Lock(Some(1), 45), Lock(Some(1), 0), Sema(0, [4]), Sema(0, [3]), Sema(0, []),
       [1], 8, [], 5)
  }

  function S12(): State {
    St(map[1 := T(Running, 60, 31, 7, [2, 3], None),
           2 := T(Ready, 0, 0, 0, [], None),
           3 := T(Blocked, 45, 40, 2, [1], Some(2)),
           4 := T(Blocked, 45, 45, 4, [], Some(1)),
           5 := T(Blocked, 60, 60, 6, [], Some(3))],
       Lock(Some(3), 45), Lock(Some(1), 45), Lock(Some(1), 60), Sema(0, [4]), Sema(0, [3]), Sema(0, [5]),
       [], 8, [], 1)
  }

  function S13(): State {
    St(map[1 := T(Running, 60, 31, 7, [2, 3], None),
           2 := T(Ready, 0, 0, 0, [], None),
           3 := T(Blocked, 45, 40, 2, [1], Some(2)),
           4 := T(Blocked, 45, 45, 4, [], Some(1)),
           5 := T(Blocked, 60, 60, 6, [], Some(3)),
           6 := T(Ready, 42, 42, 8, [], None)],
       Lock(Some(3), 45), Lock(Some(1), 45), Lock(Some(1), 60), Sema(0, [4]), Sema(0, [3]), Sema(0, [5]),
       [6], 9, [], 1)
  }

  function S14(): State {
    St(map[1 := T(Running, 60, 31, 10, [3], None),
           2 := T(Ready, 0, 0, 0, [], None),
           3 := T(Ready, 45, 40, 9, [1], Some(2)),
           4 := T(Blocked, 45, 45, 4, [], Some(1)),
           5 := T(Blocked, 60, 60, 6, [], Some(3)),
           6 := T(Ready, 42, 42, 8, [], None)],
       Lock(Some(3), 45), Lock(None, 0), Lock(Some(1), 60), Sema(0, [4]), Sema(1, []), Sema(0, [5]),
       [3, 6], 11, [], 1)
  }

  function S15(): State {
    St(map[1 := T(Running, 60, 31, 10, [3, 2], None),
           2 := T(Ready, 0, 0, 0, [], None),
           3 := T(Ready, 45, 40, 9, [1], Some(2)),
           4 := T(Blocked, 45, 45, 4, [], Some(1)),
           5 := T(Blocked, 60, 60, 6, [], Some(3)),
           6 := T(Ready, 42, 42, 8, [], None)],
       Lock(Some(3), 45), Lock(Some(1), 0), Lock(Some(1), 60), Sema(0, [4]), Sema(0, []), Sema(0, [5]),
       [3, 6], 11, [], 1)
  }

  function S16(): State {
    St(map[1 := T(Ready, 31, 31, 12, [2], None),
           2 := T(Ready, 0, 0, 0, [], None),
           3 := T(Ready, 45, 40, 9, [1], Some(2)),
           4 := T(Blocked, 45, 45, 4, [], Some(1)),
           5 := T(Running, 60, 60, 11, [], Some(3)),
           6 := T(Ready, 42, 42, 8, [], None)],
       Lock(Some(3), 45), Lock(Some(1), 0), Lock(None, 0), Sema(0, [4]), Sema(0, []), Sema(1, []),
       [3, 6, 1], 13, [], 5)
  }

  function S17(): State {
    St(map[1 := T(Ready, 31, 31, 12, [2], None),
           2 := T(Ready, 0, 0, 0, [], None),
           3 := T(Ready, 45, 40, 9, [1], Some(2)),
           4 := T(Blocked, 45, 45, 4, [], Some(1)),
           5 := T(Running, 60, 60, 11, [3], None),
           6 := T(Ready, 42, 42, 8, [], None)],
       Lock(Some(3), 45), Lock(Some(1), 0), Lock(Some(5), 0), Sema(0, [4]), Sema(0, []), Sema(0, []),
       [3, 6, 1], 13, [], 5)
  }

  function S18(): State {
    St(map[1 := T(Ready, 31, 31, 12, [2], None),
           2 := T(Ready, 0, 0, 0, [], None),
           3 := T(Running, 45, 40, 9, [1], Some(2)),
           4 := T(Blocked, 45, 45, 4, [], Some(1)),
           5 := T(Blocked, 60, 60, 11, [3], None),
           6 := T(Ready, 42, 42, 8, [], None)],
       Lock(Some(3), 45), Lock(Some(1), 0), Lock(Some(5), 0), Sema(0, [4]), Sema(0, []), Sema(0, []),
       [6, 1], 13, [5], 3)
  }

  function S19(): State {
    St(map[1 := T(Ready, 31, 31, 12, [2], None),
           2 := T(Ready, 0, 0, 0, [], None),
           3 := T(Blocked, 45, 40, 9, [1], Some(2)),
           4 := T(Blocked, 45, 45, 4, [], Some(1)),
           5 := T(Blocked, 60, 60, 11, [3], None),
           6 := T(Running, 42, 42, 8, [], None)],
       Lock(Some(3), 45), Lock(Some(1), 0), Lock(Some(5), 0), Sema(0, [4]), Sema(0, [3]), Sema(0, []),
       [1], 13, [5], 6)
  }

  /** Equality of states, component by component. */
  lemma SameState(a: State, b: State)
    requires a.threads == b.threads && a.locks == b.locks && a.semas == b.semas && a.ready == b.ready
    requires a.(threads := b.threads, locks := b.locks, semas := b.semas, ready := b.ready) == b
    ensures a == b
  {
  }

  /** The kernel gets from s to s' by event e. */
  ghost predicate Leads(s: State, e: Event, s': State) {
    Enabled(s, e) && Step(s, e) == Some(s')
  }

  // ---- The steps of the run --------------------------------------------------------------

  /** thread_create() of a higher thread while nobody is queued: it runs, its creator is queued. */
  lemma CreateSwitches(s: State, t: Tid, p: int)
    requires s.ready == [] && s.running != s.idle && s.running != t && p > Current(s).priority
    ensures Create(s, t, p) ==
            s.(threads := s.threads[t := NewThread(p).(status := Running, entryOrd := Int32(s.pushCnt))]
                                   [s.running := Current(s).(status := Ready, entryOrd := Int32(s.pushCnt + 1))],
               pushCnt := s.pushCnt + 2, ready := [s.running], running := t, slice := 0)
  {
    hide Push, Pop, ReadyLess, Int32;
    var s1 := Enqueue(s.(threads := s.threads[t := NewThread(p)]), t);
    PushNone(t, ReadyLess(s1.threads));
    var s2 := Enqueue(s1, s.running);
    Ahead(s2.threads, t, s.running);
    PushOne(t, s.running, ReadyLess(s2.threads));
    PopTwo(t, s.running, ReadyLess(s2.threads));
    assert Schedule(s2).ready == [s.running];
    SameState(Schedule(s2), s.(threads := Schedule(s2).threads, pushCnt := s.pushCnt + 2, ready := [s.running], running := t, slice := 0));
    assert Schedule(s2).threads ==
           s.threads[t := NewThread(p).(status := Running, entryOrd := Int32(s.pushCnt))]
                    [s.running := Current(s).(status := Ready, entryOrd := Int32(s.pushCnt + 1))];
  }

  lemma Ahead(threads: Threads, a: Tid, b: Tid)
    requires Get(threads, a).priority > Get(threads, b).priority
    ensures ReadyLess(threads)(b, a) && !ReadyLess(threads)(a, b)
  {
  }

  /** Blocking on a lock while one thread is queued: that one runs. */
  lemma BlockSwitches(s: State, r: SemaRef, x: Tid)
    requires s.ready == [x] && x != s.running
    ensures Schedule(Park(SortReady(s), r)) ==
            s.(semas := s.semas[r := GetSema(s.semas, r).(waiters := GetSema(s.semas, r).waiters + [s.running])],
               threads := s.threads[s.running := Current(s).(status := Blocked, downing := Some(r))]
                                   [x := Get(s.threads, x).(status := Running)],
               ready := [], running := x, slice := 0)
  {
    hide Pop, Rebuild, ReadyLess;
    PushNone(x, ReadyLess(s.threads));
    var parked := Park(SortReady(s), r);
    PushNone(x, ReadyLess(parked.threads));
  }

  lemma Step3()
    ensures Leads(S3(), ELockAcquire(2), S4())
  {
    assert [] + [2] == [2];
    SameState(Take(S3(), LockSema(2)), S4());
  }

  lemma Step4()
    ensures Leads(S4(), ELockAcquire(3), S5())
  {
    assert [2] + [3] == [2, 3];
    SameState(Take(S4(), LockSema(3)), S5());
  }

  lemma Step5()
    ensures Leads(S5(), ECreate(3, 40), S6())
  {
    hide Create;
    CreateSwitches(S5(), 3, 40);
    assert Int32(2) == 2 && Int32(3) == 3;
    SameState(Create(S5(), 3, 40), S6());
  }

  lemma Step6()
    ensures Leads(S6(), ELockAcquire(1), S7())
  {
    assert [] + [1] == [1];
    SameState(Take(S6(), LockSema(1)), S7());
  }

  lemma Step7()
    ensures Leads(S7(), ELockAcquire(2), S8())
  {
    hide Schedule, Park, SortReady;
    var s := S7();
    var s0 := SetRunning(s, Current(s).(waiting := Some(2)));
    var s1 := s0.(locks := s0.locks[2 := Lock(Some(1), 40)],
                  threads := s0.threads[1 := s0.threads[1].(priority := 40)]);
    assert Donate(s1, 1, 1) == Some(s1);
    assert Donate(s0, 3, 0) == Some(s1);
    BlockSwitches(s1, LockSema(2), 1);
    assert [] + [3] == [3];
    SameState(Schedule(Park(SortReady(s1), LockSema(2))), S8());
  }

  lemma Step8()
    ensures Leads(S8(), ECreate(4, 45), S9())
  {
    hide Create;
    CreateSwitches(S8(), 4, 45);
    assert Int32(4) == 4 && Int32(5) == 5;
    SameState(Create(S8(), 4, 45), S9());
  }

  /** After S9: the donations made, before the thread blocks. */
  function D9(): State {
    St(map[1 := T(Ready, 45, 31, 5, [2, 3], None),
           2 := T(Ready, 0, 0, 0, [], None),
           3 := T(Blocked, 45, 40, 2, [1], Some(2)),
           4 := T(Running, 45, 45, 4, [], Some(1)).(downing := None)],
       Lock(Some(3), 45), Lock(Some(1), 45), Lock(Some(1), 0), Sema(0, []), Sema(0, [3]), Sema(0, []),
       [1], 6, [], 4)
  }

  lemma Donation9()
    ensures var s0 := SetRunning(S9(), Current(S9()).(waiting := Some(1)));
            Donate(s0, 4, 0) == Some(D9())
  {
    var s := S9();
    var s0 := SetRunning(s, Current(s).(waiting := Some(1)));
    var s1 := s0.(locks := s0.locks[1 := Lock(Some(3), 45)],
                  threads := s0.threads[3 := s0.threads[3].(priority := 45)]);
    var s2 := s1.(locks := s1.locks[2 := Lock(Some(1), 45)],
                  threads := s1.threads[1 := s1.threads[1].(priority := 45)]);
    assert Donate(s2, 1, 2) == Some(s2);
    assert Donate(s1, 3, 1) == Some(s2);
    assert Donate(s0, 4, 0) == Some(s2);
    SameState(s2, D9());
  }

  lemma Step9()
    ensures Leads(S9(), ELockAcquire(1), S10())
  {
    hide Schedule, Park, SortReady, Donate;
    Donation9();
    BlockSwitches(D9(), LockSema(1), 1);
    assert [] + [4] == [4];
    SameState(Schedule(Park(SortReady(D9()), LockSema(1))), S10());
  }

  lemma Step10()
    ensures Leads(S10(), ECreate(5, 60), S11())
  {
    hide Create;
    CreateSwitches(S10(), 5, 60);
    assert Int32(6) == 6 && Int32(7) == 7;
    SameState(Create(S10(), 5, 60), S11());
  }

  lemma Step11()
    ensures Leads(S11(), ELockAcquire(3), S12())
  {
    hide Schedule, Park, SortReady;
    var s := S11();
    var s0 := SetRunning(s, Current(s).(waiting := Some(3)));
    var s1 := s0.(locks := s0.locks[3 := Lock(Some(1), 60)],
                  threads := s0.threads[1 := s0.threads[1].(priority := 60)]);
    assert Donate(s1, 1, 1) == Some(s1);
    assert Donate(s0, 5, 0) == Some(s1);
    BlockSwitches(s1, LockSema(3), 1);
    assert [] + [5] == [5];
    SameState(Schedule(Park(SortReady(s1), LockSema(3))), S12());
  }

  lemma Step12()
    ensures Leads(S12(), ECreate(6, 42), S13())
  {
    hide Push, ReadyLess;
    var s := S12();
    var s1 := Enqueue(s.(threads := s.threads[6 := NewThread(42)]), 6);
    PushNone(6, ReadyLess(s1.threads));
    assert s1.ready == [6] && Int32(8) == 8;
    SameState(s1, S13());
  }

  /** After S13: lock 2 is given up, */
  function R13(): State {
    St(map[1 := T(Running, 60, 31, 7, [3], None),
           2 := T(Ready, 0, 0, 0, [], None),
           3 := T(Blocked, 45, 40, 2, [1], Some(2)),
           4 := T(Blocked, 45, 45, 4, [], Some(1)),
           5 := T(Blocked, 60, 60, 6, [], Some(3)),
           6 := T(Ready, 42, 42, 8, [], None)],
       Lock(Some(3), 45), Lock(None, 0), Lock(Some(1), 60), Sema(0, [4]), Sema(0, [3]), Sema(0, [5]),
       [6], 9, [], 1)
  }

  /** and then its waiter is made ready. */
  function G13(): State {
    St(map[1 := T(Running, 60, 31, 7, [3], None),
           2 := T(Ready, 0, 0, 0, [], None),
           3 := T(Ready, 45, 40, 9, [1], Some(2)),
           4 := T(Blocked, 45, 45, 4, [], Some(1)),
           5 := T(Blocked, 60, 60, 6, [], Some(3)),
           6 := T(Ready, 42, 42, 8, [], None)],
       Lock(Some(3), 45), Lock(None, 0), Lock(Some(1), 60), Sema(0, [4]), Sema(1, []), Sema(0, [5]),
       [3, 6], 10, [], 1)
  }

  lemma Only(locks: map<LockId, Lock>, l: LockId)
    ensures MaxIndex([l], 1, DonateOf(locks)) == 0
  {
  }

  lemma Relinquish13()
    ensures Relinquish(S13(), 2) == R13()
  {
    hide MaxIndex, DonateOf;
    Only(S13().locks, 3);
    assert Without([2, 3], 2) == [3];
    SameState(Relinquish(S13(), 2), R13());
  }

  lemma Signal13()
    ensures Signal(R13(), LockSema(2)) == G13()
  {
    hide Push, ReadyLess;
    var waiters: seq<Tid> := [3];
    assert RemoveAt(waiters, 0) == [];
    var s := Signal(R13(), LockSema(2));
    Ahead(s.threads, 3, 6);
    PushOne(6, 3, ReadyLess(s.threads));
    assert Int32(9) == 9;
    SameState(s, G13());
  }

  lemma Step13()
    ensures Leads(S13(), ELockRelease(2), S14())
  {
    Relinquish13();
    Signal13();
    hide Push, Pop, ReadyLess, Relinquish, Signal;
    var s := Enqueue(G13(), 1);
    Ahead(s.threads, 1, 3);
    PushTwo(3, 6, 1, ReadyLess(s.threads));
    assert s.ready == [1, 6, 3] && Int32(10) == 10;
    Ahead(s.threads, 3, 6);
    PopThree(1, 6, 3, ReadyLess(s.threads));
    SameState(Schedule(s), S14());
  }

  lemma Step14()
    ensures Leads(S14(), ELockAcquire(2), S15())
  {
    assert [3] + [2] == [3, 2];
    SameState(Take(S14(), LockSema(2)), S15());
  }

  /** After S15: lock 3 is given up, */
  function R15(): State {
    St(map[1 := T(Running, 31, 31, 10, [2], None),
           2 := T(Ready, 0, 0, 0, [], None),
           3 := T(Ready, 45, 40, 9, [1], Some(2)),
           4 := T(Blocked, 45, 45, 4, [], Some(1)),
           5 := T(Blocked, 60, 60, 6, [], Some(3)),
           6 := T(Ready, 42, 42, 8, [], None)],
       Lock(Some(3), 45), Lock(Some(1), 0), Lock(None, 0), Sema(0, [4]), Sema(0, []), Sema(0, [5]),
       [3, 6], 11, [], 1)
  }

  /** and then its waiter is made ready. */
  function G15(): State {
    St(map[1 := T(Running, 31, 31, 10, [2], None),
           2 := T(Ready, 0, 0, 0, [], None),
           3 := T(Ready, 45, 40, 9, [1], Some(2)),
           4 := T(Blocked, 45, 45, 4, [], Some(1)),
           5 := T(Ready, 60, 60, 11, [], Some(3)),
           6 := T(Ready, 42, 42, 8, [], None)],
       Lock(Some(3), 45), Lock(Some(1), 0), Lock(None, 0), Sema(0, [4]), Sema(0, []), Sema(1, []),
       [5, 6, 3], 12, [], 1)
  }

  lemma Relinquish15()
    ensures Relinquish(S15(), 3) == R15()
  {
    hide MaxIndex, DonateOf;
    Only(S15().locks, 2);
    assert Without([3, 2], 3) == [2];
    SameState(Relinquish(S15(), 3), R15());
  }

  lemma Signal15()
    ensures Signal(R15(), LockSema(3)) == G15()
  {
    hide Push, ReadyLess;
    var waiters: seq<Tid> := [5];
    assert RemoveAt(waiters, 0) == [];
    var s := Signal(R15(), LockSema(3));
    Ahead(s.threads, 5, 3);
    PushTwo(3, 6, 5, ReadyLess(s.threads));
    assert Int32(11) == 11;
    SameState(s, G15());
  }

  lemma Step15()
    ensures Leads(S15(), ELockRelease(3), S16())
  {
    Relinquish15();
    Signal15();
    hide Push, Pop, ReadyLess, Relinquish, Signal;
    var s := Enqueue(G15(), 1);
    Ahead(s.threads, 6, 1);
    PushThree(5, 6, 3, 1, ReadyLess(s.threads));
    assert s.ready == [5, 6, 3, 1] && Int32(12) == 12;
    Ahead(s.threads, 3, 6);
    Ahead(s.threads, 3, 1);
    PopFour(5, 6, 3, 1, ReadyLess(s.threads));
    SameState(Schedule(s), S16());
  }

  lemma Step16()
    ensures Leads(S16(), EResume, S17())
  {
    assert [] + [3] == [3];
    SameState(Take(S16(), LockSema(3)), S17());
  }

  lemma Step17()
    ensures Leads(S17(), ESleep(0), S18())
  {
    hide Push, Pop, ReadyLess, SleepLess;
    var s := Doze(S17(), 0);
    PushNone(5, SleepLess(s.threads));
    assert s.sleepers == [5];
    Ahead(s.threads, 6, 1);
    PopThree(3, 6, 1, ReadyLess(s.threads));
    SameState(Schedule(s), S18());
  }

  lemma Step18()
    ensures Leads(S18(), EResume, S19())
  {
    hide Pop, ReadyLess;
    var s := Park(S18(), LockSema(2));
    assert [] + [3] == [3];
    PopTwo(6, 1, ReadyLess(s.threads));
    SameState(Schedule(s), S19());
  }

  /** Up to S3: the three locks are initialized. */
  lemma ReachS3()
    ensures Reachable(S3())
  {
    var s0 := Boot(2, 0);
    var s1 := s0.(locks := map[1 := Lock(None, 0)], semas := map[LockSema(1) := Sema(1, [])]);
    var s2 := s0.(locks := map[1 := Lock(None, 0), 2 := Lock(None, 0)],
                  semas := map[LockSema(1) := Sema(1, []), LockSema(2) := Sema(1, [])]);
    SameState(Step(s0, ELockInit(1)).value, s1);
    SameState(Step(s1, ELockInit(2)).value, s2);
    SameState(Step(s2, ELockInit(3)).value, S3());
    BootReachable();
    hide Step, Boot, Reachable;
    ReachableStep(s0, ELockInit(1));
    ReachableStep(s1, ELockInit(2));
    ReachableStep(s2, ELockInit(3));
  }

  lemma Follow(s: State, e: Event, s': State)
    requires Reachable(s) && Leads(s, e, s')
    ensures Reachable(s')
  {
    hide Reachable;
    ReachableStep(s, e);
  }

  lemma ReachS4()
    ensures Reachable(S4())
  {
    hide Leads, Reachable, S3, S4, S5, S6, S7, S8, S9, S10, S11, S12, S13, S14, S15, S16, S17, S18, S19;
    ReachS3();
    Step3();
    Follow(S3(), ELockAcquire(2), S4());
  }

  lemma ReachS14()
    ensures Reachable(S14())
  {
    hide Leads, Reachable, S3, S4, S5, S6, S7, S8, S9, S10, S11, S12, S13, S14, S15, S16, S17, S18, S19;
    ReachS4();
    Step4();
    Follow(S4(), ELockAcquire(3), S5());
    Step5();
    Follow(S5(), ECreate(3, 40), S6());
    Step6();
    Follow(S6(), ELockAcquire(1), S7());
    Step7();
    Follow(S7(), ELockAcquire(2), S8());
    Step8();
    Follow(S8(), ECreate(4, 45), S9());
    Step9();
    Follow(S9(), ELockAcquire(1), S10());
    Step10();
    Follow(S10(), ECreate(5, 60), S11());
    Step11();
    Follow(S11(), ELockAcquire(3), S12());
    Step12();
    Follow(S12(), ECreate(6, 42), S13());
    Step13();
    Follow(S13(), ELockRelease(2), S14());
  }

  lemma ReachS19()
    ensures Reachable(S19())
  {
    hide Leads, Reachable, S3, S4, S5, S6, S7, S8, S9, S10, S11, S12, S13, S14, S15, S16, S17, S18, S19;
    ReachS14();
    Step14();
    Follow(S14(), ELockAcquire(2), S15());
    Step15();
    Follow(S15(), ELockRelease(3), S16());
    Step16();
    Follow(S16(), EResume, S17());
    Step17();
    Follow(S17(), ESleep(0), S18());
    Step18();
    Follow(S18(), EResume, S19());
  }

  // ---- What goes wrong ---------------------------------------------------------------------

  /** In S4, "main" holds a lock nobody wants.  When it lowers itself, it stays where it was. */
  lemma SetPriorityCanLeaveStale()
    ensures exists s: State, p: int ::
              && Reachable(s) && Enabled(s, ESetPriority(p))
              && Get(SetPriority(s, p).threads, s.running).priority
                 != Recomputed(s.locks, Current(s).(base := p)).priority
  {
    hide Reachable, MaxIndex, DonateOf;
    ReachS4();
    var s := S4();
    Only(s.locks, 2);
    assert Enabled(s, ESetPriority(20));
    assert SetPriority(s, 20).threads[1].priority == 31;
    assert Recomputed(s.locks, Current(s).(base := 20)).priority == 20;
  }

  lemma PanicAtS14()
    ensures Enabled(S14(), ELockAcquire(1)) && Step(S14(), ELockAcquire(1)) == None
  {
    var s0 := SetRunning(S14(), Current(S14()).(waiting := Some(1)));
    var s1 := s0.(locks := s0.locks[1 := Lock(Some(3), 60)], threads := s0.threads[3 := s0.threads[3].(priority := 60)]);
    assert Donate(s1, 3, 1) == None;
    assert Donate(s0, 1, 0) == None;
  }

  /** In S14, lock 2 is free, but thread 3, which holds lock 1 and has been woken to take lock 2,
      is still on record as waiting for it: when "main" asks for lock 1, the assertion in
      donate_priority() fails. */
  lemma KernelCanPanic()
    ensures exists s: State, l: LockId :: Reachable(s) && Enabled(s, ELockAcquire(l)) && Step(s, ELockAcquire(l)) == None
  {
    hide Reachable, Enabled, Step, S14;
    ReachS14();
    PanicAtS14();
  }

  lemma StopsAtS19()
    ensures var s := S19();
            var s0 := Wanting(s, 1);
            && IsChain(s0, s.running, [1, 2]) && Donate(s0, s.running, 0) == Some(s0)
            && PriorityIn(s0, 1) == 31 && Current(s).priority == 42 && HolderOf(s, 2) == 1
            && s.locks[1].holder == Some(3) && Enabled(s, ELockAcquire(1))
  {
    var s0, c := Wanting(S19(), 1), [1, 2];
    assert IsChain(s0, 1, c[1..][1..]);
    assert IsChain(s0, 3, c[1..]);
  }

  /** In S19, lock 1 carries 45 from thread 4.  When thread 6 (priority 42) comes to wait for it,
      donation stops there, and "main", which holds up the chain behind it, stays at 31. */
  lemma DonationCanStopShort()
    ensures exists s: State, l: LockId, c: seq<LockId> ::
              && Reachable(s) && Enabled(s, ELockAcquire(l)) && IsChain(Wanting(s, l), s.running, c) && |c| == 2
              && Step(s, ELockAcquire(l)).Some?
              && PriorityIn(Step(s, ELockAcquire(l)).value, HolderOf(s, c[1])) < Current(s).priority
  {
    hide Reachable, Inv, Enabled, Step, IsChain, Donate, Schedule, Park, SortReady, Wanting, S19, Current;
    var s, c := S19(), [1, 2];
    ReachS19();
    ReachableInv(s);
    StopsAtS19();
    AcquireBlocks(s, 1);
    SwitchKeepsPriority(Wanting(s, 1), LockSema(1), 1);
    assert HolderOf(s, c[1]) == 1;
  }
}
