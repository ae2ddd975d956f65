/** A wait chain that is too long for donate_priority(), in a run from boot.

    Thread number 0, "main", holds lock 0; thread number j + 1, of higher priority, is created by
    "main", takes lock j + 1 and waits for lock j.  Up to nine locks the new priority reaches
    "main", which goes on to build; the tenth lock is beyond the depth limit. */
module KernelTower {
  import opened Common
  import opened HeapModel
  import opened KernelModel
  import opened KernelInvariant
  import opened KernelOperations
  import opened KernelTheorems
  import opened KernelDonation
  import opened KernelWitness

  /** The thread that holds lock j. */
  function Of(j: nat): Tid {
    if j == 0 then 1 else j + 2
  }

  /** Lock j and its holder, everything up to lock n - 1 carrying p. */
  ghost predicate Floor(s: State, n: nat, p: int, j: nat) {
    && j in s.locks && s.locks[j] == Lock(Some(Of(j)), if j < n then p else PRI_MIN)
    && Of(j) in s.threads && s.threads[Of(j)].priority == p
    && s.threads[Of(j)].waiting == (if j == 0 then None else Some(j - 1))
  }

  ghost predicate Floors(s: State, n: nat, p: int) {
    forall j: nat :: j <= n ==> Floor(s, n, p, j)
  }

  /** n + 1 threads stand on each other's shoulders, and "main" runs. */
  ghost predicate Tower(s: State, n: nat) {
    && Reachable(s) && s.running == 1 && s.idle == 2 && s.ready == [] && Current(s).downing.None?
    && Floors(s, n, 31 + n) && (forall t :: t in s.threads ==> t <= n + 2) && (forall l :: l in s.locks ==> l <= n)
  }

  /** The next thread has taken its lock and is about to climb. */
  ghost predicate Rising(s: State, n: nat) {
    && Reachable(s) && s.running == n + 3 && s.idle == 2 && s.ready == [1] && Floors(s, n, 31 + n)
    && n + 3 in s.threads && s.threads[n + 3].priority == 32 + n && s.threads[n + 3].waiting.None? && s.threads[n + 3].downing.None?
    && Get(s.threads, 1).downing.None?
    && n + 1 in s.locks && s.locks[n + 1] == Lock(Some(n + 3), PRI_MIN)
    && (forall t :: t in s.threads ==> t <= n + 3) && (forall l :: l in s.locks ==> l <= n + 1)
  }

  /** The locks n, ..., 0 */
  function Down(n: int): seq<LockId>
    requires n >= -1
  {
    seq(n + 1, i requires 0 <= i <= n => n - i)
  }

  lemma DownSteps(n: nat)
    ensures Down(n) != [] && Down(n)[0] == n && Down(n)[1..] == Down(n - 1) && Down(-1) == []
  {
  }

  lemma {:induction false} TowerIsChain(s: State, n: nat, p: int, t: Tid, k: nat)
    requires Floors(s, n, p) && k <= n && Get(s.threads, t).waiting == Some(k)
    ensures IsChain(s, t, Down(k))
    decreases k
  {
    DownSteps(k);
    assert Floor(s, n, p, k);
    if k > 0 {
      TowerIsChain(s, n, p, Of(k), k - 1);
    }
  }

  lemma TowerPropagated(s: State, n: nat, p: int)
    requires Floors(s, n, p) && p >= PRI_MIN
    ensures Propagated(s, Down(n))
  {
    var c := Down(n);
    forall i | 0 <= i < |c|
      ensures GetLock(s.locks, c[i]).donate <= PriorityIn(s, HolderOf(s, c[i]))
      ensures i > 0 ==> PriorityIn(s, HolderOf(s, c[i - 1])) <= GetLock(s.locks, c[i]).donate
    {
      assert Floor(s, n, p, c[i]);
      assert i > 0 ==> Floor(s, n, p, c[i - 1]);
    }
  }

  // ---- Building ----------------------------------------------------------------------------

  lemma GroundFloor() returns (s: State)
    ensures Tower(s, 0)
  {
    var s0 := Boot(2, 0);
    var s1 := s0.(locks := map[0 := Lock(None, PRI_MIN)], semas := map[LockSema(0) := Sema(1, [])]);
    SameState(Step(s0, ELockInit(0)).value, s1);
    s := Take(s1, LockSema(0));
    assert Floor(s, 0, 31, 0);
    assert Enabled(s1, ELockAcquire(0)) && Step(s1, ELockAcquire(0)) == Some(s);
    BootReachable();
    hide Step, Boot, Reachable, Enabled;
    ReachableStep(s0, ELockInit(0));
    ReachableStep(s1, ELockAcquire(0));
  }

  /** "main" creates the next thread, which gets a new lock. */
  lemma TowerRises(s: State, n: nat) returns (s': State)
    requires Tower(s, n) && n <= 9
    ensures Rising(s', n)
  {
    assert Floor(s, n, 31 + n, 0);
    hide Create, Int32, Reachable;
    CreateSwitches(s, n + 3, 32 + n);
    var s1 := Create(s, n + 3, 32 + n);
    ReachableStep(s, ECreate(n + 3, 32 + n));
    var s2 := s1.(locks := s1.locks[n + 1 := Lock(None, PRI_MIN)], semas := s1.semas[LockSema(n + 1) := Sema(1, [])]);
    ReachableStep(s1, ELockInit(n + 1));
    s' := Take(s2, LockSema(n + 1));
    ReachableStep(s2, ELockAcquire(n + 1));
    var p := 31 + n;
    forall j: nat | j <= n
      ensures Floor(s', n, p, j)
    {
      assert Floor(s, n, p, j);
    }
  }

  lemma WantingFloors(s: State, n: nat, p: int)
    requires Floors(s, n, p) && s.running == n + 3
    ensures Floors(Wanting(s, n), n, p)
  {
    var s0 := Wanting(s, n);
    forall j: nat | j <= n
      ensures Floor(s0, n, p, j)
    {
      assert Floor(s, n, p, j);
    }
  }

  lemma RisingFacts(s: State, n: nat)
    requires Rising(s, n)
    ensures Inv(s) && Enabled(s, ELockAcquire(n)) && GetLock(s.locks, n).holder.Some? && Current(s).priority == 32 + n
    ensures LinksExist(Wanting(s, n)) && Floors(Wanting(s, n), n, 31 + n) && IsChain(Wanting(s, n), n + 3, Down(n))
  {
    hide Inv, Reachable, IsChain, LinksExist;
    ReachableInv(s);
    assert Floor(s, n, 31 + n, n);
    WantingLinks(s, n);
    WantingFloors(s, n, 31 + n);
    TowerIsChain(Wanting(s, n), n, 31 + n, n + 3, n);
  }

  /** The donation reaches the ground. */
  lemma RisingDonates(s: State, n: nat)
    requires Rising(s, n) && n < 9
    ensures Donate(Wanting(s, n), s.running, 0) == Some(Raised(Wanting(s, n), Down(n), 32 + n))
  {
    hide Inv, Enabled, IsChain, LinksExist, Propagated, Donate, Raised;
    RisingFacts(s, n);
    var s0 := Wanting(s, n);
    TowerPropagated(s0, n, 31 + n);
    DonateRaisesChain(s0, n + 3, Down(n), 0);
  }

  /** On up to nine locks the donation reaches the ground, and "main" runs again. */
  lemma RisingBlocks(s: State, n: nat) returns (s': State)
    requires Rising(s, n) && n < 9
    ensures Tower(s', n + 1)
  {
    hide Reachable, Inv, Enabled, Step, IsChain, LinksExist, Donate, Schedule, Park, SortReady, Raised, Wanting, Floors, Down;
    RisingFacts(s, n);
    RisingDonates(s, n);
    var s1 := Raised(Wanting(s, n), Down(n), 32 + n);
    RaisedFloors(s, n);
    AcquireBlocks(s, n);
    BlockSwitches(s1, LockSema(n), 1);
    s' := Step(s, ELockAcquire(n)).value;
    ReachableStep(s, ELockAcquire(n));
    BlockedFloors(s1, s', n + 1, 32 + n);
  }

  lemma BlockedFloors(s1: State, s': State, n: nat, p: int)
    requires Floors(s1, n, p) && s'.locks == s1.locks && 1 in s1.threads && s1.running in s1.threads
    requires s1.running in s'.threads && s1.running != 1
    requires s'.threads == s1.threads[s1.running := Current(s1).(status := Blocked, downing := s'.threads[s1.running].downing)]
                                     [1 := s1.threads[1].(status := Running)]
    ensures Floors(s', n, p)
  {
    forall j: nat | j <= n
      ensures Floor(s', n, p, j)
    {
      assert Floor(s1, n, p, j);
    }
  }

  lemma RaisedFloors(s: State, n: nat)
    requires Rising(s, n)
    ensures var s1 := Raised(Wanting(s, n), Down(n), 32 + n);
            && Floors(s1, n + 1, 32 + n) && s1.ready == [1] && s1.running == n + 3 && s1.idle == 2
            && s1.threads.Keys == s.threads.Keys && s1.locks.Keys == s.locks.Keys
            && 1 in s1.threads && s1.threads[1].downing.None? && n + 3 in s1.threads
  {
    var s0, c, m, p := Wanting(s, n), Down(n), n + 1, 32 + n;
    var s1 := Raised(s0, c, p);
    assert Floor(s, n, 31 + n, 0);
    forall j: nat | j <= m
      ensures Floor(s1, m, p, j)
    {
      if j <= n {
        assert Floor(s, n, 31 + n, j);
        assert c[n - j] == j && j in c;
        assert GetLock(s0.locks, j).holder == Some(Of(j));
        assert HoldsOneOf(s0, Of(j), c);
      } else {
        NotOnShoulders(s, n);
        assert n + 1 !in c;
      }
    }
  }

  lemma NotOnShoulders(s: State, n: nat)
    requires Rising(s, n)
    ensures !HoldsOneOf(Wanting(s, n), n + 3, Down(n))
  {
    forall l: LockId | l in Down(n)
      ensures GetLock(s.locks, l).holder != Some(n + 3)
    {
      assert Floor(s, n, 31 + n, l);
    }
  }

  lemma {:induction false} BuildTower(n: nat) returns (s: State)
    requires n <= 9
    ensures Tower(s, n)
    decreases n
  {
    hide Tower, Rising;
    if n == 0 {
      s := GroundFloor();
    } else {
      var s0 := BuildTower(n - 1);
      var s1 := TowerRises(s0, n - 1);
      s := RisingBlocks(s1, n - 1);
    }
  }

  // ---- The tenth lock ------------------------------------------------------------------------

  /** A donation above all that the chain carries passes locks until the depth limit. */
  lemma {:induction false} ReachOf(s: State, n: nat, p: int, carry: int, k: int, dep: int)
    requires Floors(s, n, p) && -1 <= k <= n && PRI_MIN <= p < carry && dep <= 9
    ensures Reach(s, carry, Down(k), dep) == if k + 1 <= 9 - dep then k + 1 else 9 - dep
    decreases k
  {
    if k >= 0 && dep <= 8 {
      DownSteps(k);
      assert Floor(s, n, p, k);
      ReachOf(s, n, p, carry, k - 1, dep + 1);
    }
  }

  /** A thread of priority 41 comes to wait for the first of ten locks, all held and each carrying
      the priority of the thread in front of it; the holder of the last stays at 40. */
  lemma TenthLockUnreached()
    ensures exists s: State, l: LockId, c: seq<LockId> ::
              && Reachable(s) && Enabled(s, ELockAcquire(l)) && |c| == 10
              && IsChain(Wanting(s, l), s.running, c) && Propagated(Wanting(s, l), c)
              && Step(s, ELockAcquire(l)).Some?
              && PriorityIn(Step(s, ELockAcquire(l)).value, HolderOf(s, c[9])) < Current(s).priority
  {
    hide Reachable, Inv, Enabled, Step, IsChain, Propagated, LinksExist, Donate, Schedule, Park, SortReady, Floors, Tower;
    var s9 := BuildTower(9);
    var s := TowerRises(s9, 9);
    RisingFacts(s, 9);
    var s0, c := Wanting(s, 9), Down(9);
    TowerPropagated(s0, 9, 40);
    TenthFacts(s0);
    DonateReaches(s0, 12, c, 0);
    AcquireBlocks(s, 9);
    SwitchKeepsPriority(Donate(s0, 12, 0).value, LockSema(9), 1);
    assert HolderOf(s, c[9]) == HolderOf(s0, c[9]);
  }

  lemma TenthFacts(s0: State)
    requires Floors(s0, 9, 40)
    ensures |Down(9)| == 10 && HolderOf(s0, Down(9)[9]) == 1 && PriorityIn(s0, 1) == 40 && Reach(s0, 41, Down(9), 0) == 9
  {
    ReachOf(s0, 9, 40, 41, 9, 0);
    assert Floor(s0, 9, 40, 0) && Down(9)[9] == 0;
  }
}
