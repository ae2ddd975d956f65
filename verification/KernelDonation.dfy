/** What donate_priority() does along a chain of locks, and when its assertion fails. */
module KernelDonation {
  import opened Common
  import opened HeapModel
  import opened KernelModel
  import opened KernelInvariant
  import opened KernelOperations

  // ---- Wait chains ----------------------------------------------------------------------

  /** c lists the locks from t's wait to a thread that waits for nothing, all of them held. */
  ghost predicate IsChain(s: State, t: Tid, c: seq<LockId>)
    decreases |c|
  {
    if c == [] then Get(s.threads, t).waiting.None?
    else
      && Get(s.threads, t).waiting == Some(c[0])
      && GetLock(s.locks, c[0]).holder.Some?
      && IsChain(s, GetLock(s.locks, c[0]).holder.value, c[1..])
  }

  /** c lists the locks from t's wait to a free lock. */
  ghost predicate LeadsToFree(s: State, t: Tid, c: seq<LockId>)
    decreases |c|
  {
    && c != [] && Get(s.threads, t).waiting == Some(c[0])
    && var holder := GetLock(s.locks, c[0]).holder;
       if holder.None? then |c| == 1 else LeadsToFree(s, holder.value, c[1..])
  }

  function HolderOf(s: State, l: LockId): Tid {
    var holder := GetLock(s.locks, l).holder;
    if holder.Some? then holder.value else 0
  }

  function PriorityIn(s: State, t: Tid): int {
    Get(s.threads, t).priority
  }

  lemma {:induction false} ChainUnique(s: State, t: Tid, a: seq<LockId>, b: seq<LockId>)
    requires IsChain(s, t, a) && IsChain(s, t, b)
    ensures a == b
    decreases |a|
  {
    if a != [] {
      ChainUnique(s, HolderOf(s, a[0]), a[1..], b[1..]);
      assert a == [a[0]] + a[1..] && b == [b[0]] + b[1..];
    }
  }

  lemma {:induction false} FreeChainUnique(s: State, t: Tid, a: seq<LockId>, b: seq<LockId>)
    requires LeadsToFree(s, t, a) && LeadsToFree(s, t, b)
    ensures a == b
    decreases |a|
  {
    if GetLock(s.locks, a[0]).holder.Some? {
      FreeChainUnique(s, HolderOf(s, a[0]), a[1..], b[1..]);
    }
    assert a == [a[0]] + a[1..] && b == [b[0]] + b[1..];
  }

  lemma {:induction false} ChainSuffix(s: State, t: Tid, c: seq<LockId>, i: nat)
    requires IsChain(s, t, c) && i < |c|
    ensures GetLock(s.locks, c[i]).holder.Some? && IsChain(s, HolderOf(s, c[i]), c[i + 1..])
    decreases i
  {
    if i > 0 {
      ChainSuffix(s, HolderOf(s, c[0]), c[1..], i - 1);
      assert c[1..][i..] == c[i + 1..];
    }
  }

  lemma {:induction false} FreeChainSuffix(s: State, t: Tid, c: seq<LockId>, i: nat)
    requires LeadsToFree(s, t, c) && i < |c|
    ensures GetLock(s.locks, c[i]).holder.Some? ==> LeadsToFree(s, HolderOf(s, c[i]), c[i + 1..])
    decreases i
  {
    if i > 0 {
      FreeChainSuffix(s, HolderOf(s, c[0]), c[1..], i - 1);
      assert c[1..][i..] == c[i + 1..];
    }
  }

  /** A chain that ends visits no lock and no holder twice. */
  lemma ChainHeadOnce(s: State, t: Tid, c: seq<LockId>)
    requires IsChain(s, t, c) && c != []
    ensures c[0] !in c[1..]
    ensures forall l :: l in c[1..] ==> HolderOf(s, l) != HolderOf(s, c[0])
  {
    var h := HolderOf(s, c[0]);
    forall l | l in c[1..]
      ensures l != c[0] && HolderOf(s, l) != h
    {
      var i: nat :| i < |c[1..]| && c[1..][i] == l;
      ChainSuffix(s, h, c[1..], i);
      if HolderOf(s, l) == h {
        ChainUnique(s, h, c[1..], c[1..][i + 1..]);
      }
    }
  }

  lemma FreeChainHeadOnce(s: State, t: Tid, c: seq<LockId>)
    requires LeadsToFree(s, t, c) && GetLock(s.locks, c[0]).holder.Some?
    ensures c[0] !in c[1..]
    ensures forall l :: l in c[1..] && GetLock(s.locks, l).holder.Some? ==> HolderOf(s, l) != HolderOf(s, c[0])
  {
    var h := HolderOf(s, c[0]);
    forall l | l in c[1..]
      ensures l != c[0] && (GetLock(s.locks, l).holder.Some? ==> HolderOf(s, l) != h)
    {
      var i: nat :| i < |c[1..]| && c[1..][i] == l;
      FreeChainSuffix(s, h, c[1..], i);
      if GetLock(s.locks, l).holder.Some? && HolderOf(s, l) == h {
        FreeChainUnique(s, h, c[1..], c[1..][i + 1..]);
      }
    }
  }

  // ---- One level of donation leaves the chain as it is ------------------------------------

  ghost predicate SameLinks(s: State, s': State) {
    && (forall t :: Get(s'.threads, t).waiting == Get(s.threads, t).waiting)
    && (forall l :: GetLock(s'.locks, l).holder == GetLock(s.locks, l).holder)
  }

  lemma {:induction false} ChainFrame(s: State, s': State, t: Tid, c: seq<LockId>)
    requires SameLinks(s, s')
    ensures IsChain(s', t, c) == IsChain(s, t, c)
    ensures LeadsToFree(s', t, c) == LeadsToFree(s, t, c)
    decreases |c|
  {
    if c != [] {
      ChainFrame(s, s', HolderOf(s, c[0]), c[1..]);
    }
  }

  // ---- The effect on a propagated chain -------------------------------------------------

  /** Every lock on the chain carries at least the priority of the thread waiting in front
      of it, and every holder at least what its lock carries. */
  ghost predicate Propagated(s: State, c: seq<LockId>) {
    && (forall i :: 0 <= i < |c| ==> GetLock(s.locks, c[i]).donate <= PriorityIn(s, HolderOf(s, c[i])))
    && (forall i :: 0 < i < |c| ==> PriorityIn(s, HolderOf(s, c[i - 1])) <= GetLock(s.locks, c[i]).donate)
  }

  predicate HoldsOneOf(s: State, u: Tid, c: seq<LockId>) {
    exists l :: l in c && GetLock(s.locks, l).holder == Some(u)
  }

  /** Everything on the chain raised to at least p, everything else as it was. */
  function Raised(s: State, c: seq<LockId>, p: int): State {
    s.(threads := map u | u in s.threads ::
                    if HoldsOneOf(s, u, c) then s.threads[u].(priority := Max(s.threads[u].priority, p))
                    else s.threads[u],
       locks := map l | l in s.locks ::
                  if l in c then s.locks[l].(donate := Max(s.locks[l].donate, p)) else s.locks[l])
  }

  lemma {:induction false} PropagatedAbove(s: State, c: seq<LockId>, p: int, i: nat)
    requires Propagated(s, c) && i < |c| && p <= GetLock(s.locks, c[0]).donate
    ensures p <= GetLock(s.locks, c[i]).donate && p <= PriorityIn(s, HolderOf(s, c[i]))
  {
    if i > 0 {
      PropagatedAbove(s, c, p, i - 1);
    }
  }

  lemma {:induction false} ChainExists(s: State, t: Tid, c: seq<LockId>, i: nat)
    requires t in s.threads && LinksExist(s) && IsChain(s, t, c) && i < |c|
    ensures c[i] in s.locks && s.locks[c[i]].holder.Some? && s.locks[c[i]].holder.value in s.threads
    decreases |c|
  {
    if i > 0 {
      ChainExists(s, HolderOf(s, c[0]), c[1..], i - 1);
    }
  }

  /** Raising a propagated chain leaves it propagated. */
  lemma RaisedPropagated(s: State, t: Tid, c: seq<LockId>, p: int)
    requires t in s.threads && LinksExist(s) && IsChain(s, t, c) && Propagated(s, c)
    ensures Propagated(Raised(s, c, p), c) && (c != [] ==> p <= GetLock(Raised(s, c, p).locks, c[0]).donate)
  {
    var s' := Raised(s, c, p);
    forall i | 0 <= i < |c|
      ensures GetLock(s'.locks, c[i]).donate == Max(GetLock(s.locks, c[i]).donate, p)
      ensures HolderOf(s', c[i]) == HolderOf(s, c[i])
      ensures PriorityIn(s', HolderOf(s, c[i])) == Max(PriorityIn(s, HolderOf(s, c[i])), p)
    {
      ChainExists(s, t, c, i);
      assert HoldsOneOf(s, HolderOf(s, c[i]), c);
    }
  }

  lemma RaisedNoChange(s: State, c: seq<LockId>, p: int)
    requires forall l :: l in c ==> p <= GetLock(s.locks, l).donate && p <= PriorityIn(s, HolderOf(s, l))
    ensures Raised(s, c, p) == s
  {
    var s' := Raised(s, c, p);
    assert s'.threads == s.threads;
    assert s'.locks == s.locks;
  }

  /** A donation no larger than what the chain already carries is absorbed at its start. */
  lemma RaisedAbsorbed(s: State, c: seq<LockId>, p: int)
    requires Propagated(s, c) && (c != [] ==> p <= GetLock(s.locks, c[0]).donate)
    ensures Raised(s, c, p) == s
  {
    forall l | l in c
      ensures p <= GetLock(s.locks, l).donate && p <= PriorityIn(s, HolderOf(s, l))
    {
      var i: nat :| i < |c| && c[i] == l;
      PropagatedAbove(s, c, p, i);
    }
    RaisedNoChange(s, c, p);
  }

  /** The ids of a chain name existing threads and locks. */
  ghost predicate LinksExist(s: State) {
    && (forall t :: t in s.threads && s.threads[t].waiting.Some? ==> s.threads[t].waiting.value in s.locks)
    && (forall l :: l in s.locks && s.locks[l].holder.Some? ==> s.locks[l].holder.value in s.threads)
  }

  lemma HandLinks(s: State, t: Tid, c: seq<LockId>)
    requires t in s.threads && LinksExist(s) && IsChain(s, t, c) && c != []
    ensures SameLinks(s, Hand(s, t)) && LinksExist(Hand(s, t))
    ensures IsChain(Hand(s, t), HolderOf(s, c[0]), c[1..])
  {
    ChainFrame(s, Hand(s, t), HolderOf(s, c[0]), c[1..]);
  }

  lemma HandPropagated(s: State, t: Tid, c: seq<LockId>)
    requires t in s.threads && LinksExist(s) && IsChain(s, t, c) && c != [] && Propagated(s, c)
    ensures Propagated(Hand(s, t), c[1..])
  {
    var s1, d := Hand(s, t), c[1..];
    ChainHeadOnce(s, t, c);
    forall i | 0 <= i < |d|
      ensures GetLock(s1.locks, d[i]) == GetLock(s.locks, d[i]) && d[i] in d
      ensures PriorityIn(s1, HolderOf(s1, d[i])) == PriorityIn(s, HolderOf(s, d[i]))
    {
      assert d[i] in d && d[i] == c[i + 1];
    }
    assert forall i :: 0 <= i < |d| ==> d[i] == c[i + 1];
  }

  /** Handing on and then raising the rest of the chain raises the whole chain. */
  lemma HandThenRaise(s: State, t: Tid, c: seq<LockId>, p: int)
    requires t in s.threads && LinksExist(s) && IsChain(s, t, c) && c != []
    requires p == PriorityIn(s, t) && GetLock(s.locks, c[0]).donate <= p
    ensures Raised(Hand(s, t), c[1..], p) == Raised(s, c, p)
  {
    var s1, d := Hand(s, t), c[1..];
    var a, b := Raised(s1, d, p), Raised(s, c, p);
    ChainHeadOnce(s, t, c);
    assert c == [c[0]] + d;
    assert a.locks == b.locks;
    forall u | u in s.threads
      ensures a.threads[u] == b.threads[u]
    {
      assert HoldsOneOf(s, u, c) <==> HoldsOneOf(s1, u, d) || u == HolderOf(s, c[0]);
    }
    assert a.threads == b.threads;
  }

  /** donate_priority() along a propagated chain that fits its depth limit: every lock and
      every holder on the chain ends up at the larger of its old value and the donor's
      priority, nothing off the chain changes, and the chain is propagated again, from the donor
      on. */
  lemma {:induction false} DonateRaisesChain(s: State, t: Tid, c: seq<LockId>, dep: int)
    requires t in s.threads && LinksExist(s) && IsChain(s, t, c) && Propagated(s, c)
    requires |c| <= 9 - dep
    ensures Donate(s, t, dep) == Some(Raised(s, c, PriorityIn(s, t)))
    ensures Propagated(Raised(s, c, PriorityIn(s, t)), c)
    ensures c != [] ==> PriorityIn(s, t) <= GetLock(Raised(s, c, PriorityIn(s, t)).locks, c[0]).donate
    decreases |c|
  {
    hide IsChain, Propagated, Raised, Donate, Hand, LinksExist;
    var p := PriorityIn(s, t);
    RaisedPropagated(s, t, c, p);
    if c == [] || p <= GetLock(s.locks, c[0]).donate {
      RaisedAbsorbed(s, c, p);
      DonateStops(s, t, c, dep);
    } else {
      ChainDonates(s, t, c);
      HandLinks(s, t, c);
      HandPropagated(s, t, c);
      DonateHands(s, t, c, dep);
      RestRaised(s, t, c, p);
      DonateRaisesChain(Hand(s, t), HolderOf(s, c[0]), c[1..], dep + 1);
    }
  }

  lemma ChainDonates(s: State, t: Tid, c: seq<LockId>)
    requires t in s.threads && LinksExist(s) && IsChain(s, t, c) && c != []
    ensures s.threads[t].waiting.Some?
    ensures var l := s.threads[t].waiting.value; l == c[0] && l in s.locks && s.locks[l].holder.Some?
  {
  }

  lemma DonateStops(s: State, t: Tid, c: seq<LockId>, dep: int)
    requires t in s.threads && IsChain(s, t, c)
    requires c == [] || PriorityIn(s, t) <= GetLock(s.locks, c[0]).donate
    ensures Donate(s, t, dep) == Some(s)
  {
  }

  /** donate_priority() hands on to the holder and recurs. */
  lemma DonateHands(s: State, t: Tid, c: seq<LockId>, dep: int)
    requires t in s.threads && LinksExist(s) && IsChain(s, t, c) && c != [] && dep <= DONATE_MAX_DEPTH
    requires GetLock(s.locks, c[0]).donate < PriorityIn(s, t)
    ensures HolderOf(s, c[0]) in Hand(s, t).threads
    ensures Donate(s, t, dep) == Donate(Hand(s, t), HolderOf(s, c[0]), dep + 1)
  {
  }

  /** What the holder hands on raises the rest of the chain no further than the donor would. */
  lemma RestRaised(s: State, t: Tid, c: seq<LockId>, p: int)
    requires t in s.threads && LinksExist(s) && IsChain(s, t, c) && c != [] && Propagated(s, c)
    requires p == PriorityIn(s, t) && GetLock(s.locks, c[0]).donate < p
    ensures Raised(Hand(s, t), c[1..], PriorityIn(Hand(s, t), HolderOf(s, c[0]))) == Raised(s, c, p)
  {
    var s1, h, d := Hand(s, t), HolderOf(s, c[0]), c[1..];
    HandThenRaise(s, t, c, p);
    if PriorityIn(s, h) > p && d != [] {
      HandPropagated(s, t, c);
      ChainHeadOnce(s, t, c);
      assert d[0] == c[1] && d[0] in d;
      RaisedAbsorbed(s1, d, PriorityIn(s, h));
      RaisedAbsorbed(s1, d, p);
    } else if d == [] {
      RaisedNoChange(s1, d, p);
      RaisedNoChange(s1, d, PriorityIn(s1, h));
    }
  }

  // ---- How far an arbitrary chain is raised ---------------------------------------------

  lemma {:induction false} DonateMonotone(s: State, t: Tid, dep: int, u: Tid)
    requires Donate(s, t, dep).Some?
    ensures PriorityIn(s, u) <= PriorityIn(Donate(s, t, dep).value, u)
    decreases DONATE_MAX_DEPTH + 1 - dep
  {
    var donor := Get(s.threads, t);
    if dep <= DONATE_MAX_DEPTH && donor.waiting.Some? {
      var l := donor.waiting.value;
      var lock := GetLock(s.locks, l);
      if lock.donate < donor.priority && lock.holder.Some? {
        var h := lock.holder.value;
        var holder := Get(s.threads, h);
        var s1 := s.(locks := s.locks[l := lock.(donate := donor.priority)],
                     threads := s.threads[h := holder.(priority := Max(holder.priority, donor.priority))]);
        DonateMonotone(s1, h, dep + 1, u);
      }
    }
  }

  /** How many locks of chain c the donation of priority `carry` passes before it meets the
      depth limit, the end of the chain, or a lock that already carries as much. */
  ghost function Reach(s: State, carry: int, c: seq<LockId>, dep: int): (r: nat)
    ensures r <= |c|
    decreases |c|
  {
    if c == [] || dep > 8 || carry <= GetLock(s.locks, c[0]).donate then 0
    else 1 + Reach(s, Max(PriorityIn(s, HolderOf(s, c[0])), carry), c[1..], dep + 1)
  }

  /** The two states agree on everything donation looks at along c. */
  ghost predicate SameAlong(s: State, s': State, c: seq<LockId>) {
    forall l :: l in c ==>
      && GetLock(s'.locks, l) == GetLock(s.locks, l)
      && PriorityIn(s', HolderOf(s', l)) == PriorityIn(s, HolderOf(s, l))
  }

  lemma {:induction false} ReachFrame(s: State, s': State, carry: int, c: seq<LockId>, dep: int)
    requires SameAlong(s, s', c)
    ensures Reach(s', carry, c, dep) == Reach(s, carry, c, dep)
    decreases |c|
  {
    if c != [] {
      assert c[0] in c && forall l :: l in c[1..] ==> l in c;
      ReachFrame(s, s', Max(PriorityIn(s, HolderOf(s, c[0])), carry), c[1..], dep + 1);
    }
  }

  lemma HandSameAlong(s: State, t: Tid, c: seq<LockId>)
    requires t in s.threads && LinksExist(s) && IsChain(s, t, c) && c != []
    ensures SameAlong(s, Hand(s, t), c[1..])
  {
    ChainHeadOnce(s, t, c);
  }

  /** Holders within reach end up at least at the donor's priority; those beyond it do not move. */
  lemma {:induction false} DonateReaches(s: State, t: Tid, c: seq<LockId>, dep: int)
    requires t in s.threads && LinksExist(s) && IsChain(s, t, c)
    ensures Donate(s, t, dep).Some?
    ensures var s', p := Donate(s, t, dep).value, PriorityIn(s, t);
            forall i :: 0 <= i < |c| ==>
              var h := HolderOf(s, c[i]);
              if i < Reach(s, p, c, dep) then p <= PriorityIn(s', h) else PriorityIn(s', h) == PriorityIn(s, h)
    decreases |c|
  {
    var p := PriorityIn(s, t);
    if c != [] && dep <= DONATE_MAX_DEPTH && GetLock(s.locks, c[0]).donate < p {
      var s1, h, d := Hand(s, t), HolderOf(s, c[0]), c[1..];
      HandLinks(s, t, c);
      HandSameAlong(s, t, c);
      ReachFrame(s, s1, PriorityIn(s1, h), d, dep + 1);
      DonateHands(s, t, c, dep);
      DonateReaches(s1, h, d, dep + 1);
      var s' := Donate(s1, h, dep + 1).value;
      DonateMonotone(s1, h, dep + 1, h);
      forall i | 0 <= i < |c|
        ensures var u := HolderOf(s, c[i]);
                if i < Reach(s, p, c, dep) then p <= PriorityIn(s', u) else PriorityIn(s', u) == PriorityIn(s, u)
      {
        if i > 0 {
          assert c[i] == d[i - 1] && d[i - 1] in d;
        }
      }
    }
  }

  /** Every holder on the chain outranks the donor afterwards exactly when the holders out
      of the donation's reach did before.  Neither a chain longer than the depth limit nor
      one that lost its donations to a release is guaranteed this. */
  lemma DonationReachesAllIff(s: State, t: Tid, c: seq<LockId>)
    requires t in s.threads && LinksExist(s) && IsChain(s, t, c)
    ensures var p := PriorityIn(s, t);
            && Donate(s, t, 0).Some?
            && ((forall i :: 0 <= i < |c| ==> p <= PriorityIn(Donate(s, t, 0).value, HolderOf(s, c[i])))
                <==> (forall i :: Reach(s, p, c, 0) <= i < |c| ==> p <= PriorityIn(s, HolderOf(s, c[i]))))
  {
    DonateReaches(s, t, c, 0);
  }

  // ---- When the assertion in donate_priority() fails ------------------------------------

  /** Along c, each lock carries less than the donation that arrives at it. */
  ghost predicate Carried(s: State, carry: int, c: seq<LockId>)
    decreases |c|
  {
    c == [] || (&& GetLock(s.locks, c[0]).donate < carry
                && Carried(s, Max(PriorityIn(s, HolderOf(s, c[0])), carry), c[1..]))
  }

  lemma {:induction false} CarriedFrame(s: State, s': State, carry: int, c: seq<LockId>)
    requires forall l :: l in c ==> GetLock(s'.locks, l) == GetLock(s.locks, l)
    requires forall i :: 0 <= i < |c| - 1 ==> PriorityIn(s', HolderOf(s, c[i])) == PriorityIn(s, HolderOf(s, c[i]))
    ensures Carried(s', carry, c) == Carried(s, carry, c)
    decreases |c|
  {
    if |c| > 1 {
      assert c[0] in c && forall l :: l in c[1..] ==> l in c;
      CarriedFrame(s, s', Max(PriorityIn(s, HolderOf(s, c[0])), carry), c[1..]);
    } else if |c| == 1 {
      assert c[0] in c;
    }
  }

  lemma HandCarried(s: State, t: Tid, c: seq<LockId>, carry: int)
    requires t in s.threads && LinksExist(s) && LeadsToFree(s, t, c) && GetLock(s.locks, c[0]).holder.Some?
    ensures Carried(Hand(s, t), carry, c[1..]) == Carried(s, carry, c[1..])
  {
    var d, h := c[1..], HolderOf(s, c[0]);
    FreeChainHeadOnce(s, t, c);
    forall i | 0 <= i < |d| - 1
      ensures HolderOf(s, d[i]) != h
    {
      FreeChainSuffix(s, h, d, i);
      assert d[i] in d;
      FreeChainHeld(s, h, d, i);
    }
    CarriedFrame(s, Hand(s, t), carry, d);
  }

  lemma {:induction false} FreeChainHeld(s: State, t: Tid, c: seq<LockId>, i: nat)
    requires LeadsToFree(s, t, c) && i < |c| - 1
    ensures GetLock(s.locks, c[i]).holder.Some?
    decreases i
  {
    if i > 0 {
      FreeChainHeld(s, HolderOf(s, c[0]), c[1..], i - 1);
    }
  }

  lemma {:induction false} PanicsIf(s: State, t: Tid, c: seq<LockId>, dep: int)
    requires t in s.threads && LinksExist(s) && LeadsToFree(s, t, c) && Carried(s, PriorityIn(s, t), c)
    requires |c| <= 9 - dep
    ensures Donate(s, t, dep).None?
    decreases |c|
  {
    if GetLock(s.locks, c[0]).holder.Some? {
      var s1, h := Hand(s, t), HolderOf(s, c[0]);
      ChainFrame(s, s1, h, c[1..]);
      HandCarried(s, t, c, PriorityIn(s1, h));
      PanicsIf(s1, h, c[1..], dep + 1);
    }
  }

  lemma {:induction false} PanicsOnlyIf(s: State, t: Tid, dep: int) returns (c: seq<LockId>)
    requires t in s.threads && LinksExist(s) && Donate(s, t, dep).None?
    ensures |c| <= 9 - dep && LeadsToFree(s, t, c) && Carried(s, PriorityIn(s, t), c)
    decreases DONATE_MAX_DEPTH + 1 - dep
  {
    var l := s.threads[t].waiting.value;
    if s.locks[l].holder.None? {
      c := [l];
      assert c[1..] == [];
    } else {
      var s1, h := Hand(s, t), HolderOf(s, l);
      var d := PanicsOnlyIf(s1, h, dep + 1);
      c := [l] + d;
      assert c[1..] == d;
      ChainFrame(s, s1, h, d);
      HandCarried(s, t, c, PriorityIn(s1, h));
    }
  }

  /** donate_priority() trips its assertion exactly when t's wait chain leads, within the
      depth limit, to a lock nobody holds, past locks that all carry less than what reaches them. */
  lemma DonatePanicsIff(s: State, t: Tid)
    requires t in s.threads && LinksExist(s)
    ensures Donate(s, t, 0).None? <==>
            exists c :: |c| <= 9 && LeadsToFree(s, t, c) && Carried(s, PriorityIn(s, t), c)
  {
    if Donate(s, t, 0).None? {
      var c := PanicsOnlyIf(s, t, 0);
    } else if c :| |c| <= 9 && LeadsToFree(s, t, c) && Carried(s, PriorityIn(s, t), c) {
      PanicsIf(s, t, c, 0);
    }
  }

  // ---- lock_acquire() -------------------------------------------------------------------

  lemma WantingLinks(s: State, l: LockId)
    requires Inv(s) && Enabled(s, ELockAcquire(l))
    ensures LinksExist(Wanting(s, l))
  {
    WaitedLocksExist(s);
  }

  /** Of all operations only lock_acquire() can panic, and it does so exactly when the lock
      is held and the caller's wait chain leads to a free lock as DonatePanicsIff says. */
  lemma AcquirePanicsIff(s: State, l: LockId)
    requires Inv(s) && Enabled(s, ELockAcquire(l))
    ensures var s0 := Wanting(s, l);
            Step(s, ELockAcquire(l)).None? <==>
            && s.locks[l].holder.Some?
            && exists c :: |c| <= 9 && LeadsToFree(s0, s.running, c) && Carried(s0, Current(s).priority, c)
  {
    assert LockSemaOk(s.locks[l], s.semas[LockSema(l)]);
    WantingLinks(s, l);
    DonatePanicsIff(Wanting(s, l), s.running);
  }

  lemma SwitchKeepsPriority(s: State, r: SemaRef, t: Tid)
    ensures PriorityIn(Schedule(Park(SortReady(s), r)), t) == PriorityIn(s, t)
  {
    hide Rebuild, Pop, ReadyLess;
  }

  /** A thread that blocks on a held lock lends its priority to every holder down a
      propagated chain, and to nobody else. */
  lemma AcquireLendsPriority(s: State, l: LockId, c: seq<LockId>, t: Tid)
    requires Inv(s) && Enabled(s, ELockAcquire(l)) && s.locks[l].holder.Some? && t in s.threads
    requires IsChain(Wanting(s, l), s.running, c) && Propagated(Wanting(s, l), c) && |c| <= 9
    ensures Step(s, ELockAcquire(l)).Some?
    ensures PriorityIn(Step(s, ELockAcquire(l)).value, t)
            == if HoldsOneOf(s, t, c) then Max(PriorityIn(s, t), Current(s).priority) else PriorityIn(s, t)
  {
    hide Raised, Donate, Inv, Enabled, IsChain, Propagated, LinksExist, Schedule, Park, SortReady, Step;
    var s0, p := Wanting(s, l), Current(s).priority;
    AcquireBlocks(s, l);
    WantingLinks(s, l);
    DonateRaisesChain(s0, s.running, c, 0);
    RaisedPriority(s, l, c, p, t);
    SwitchKeepsPriority(Raised(s0, c, p), LockSema(l), t);
  }

  /** The slow path of lock_acquire(). */
  lemma AcquireBlocks(s: State, l: LockId)
    requires Inv(s) && Enabled(s, ELockAcquire(l)) && s.locks[l].holder.Some?
    ensures s.running in s.threads && PriorityIn(Wanting(s, l), s.running) == Current(s).priority
    ensures var r := Donate(Wanting(s, l), s.running, 0);
            Step(s, ELockAcquire(l)) == if r.None? then None else Some(Schedule(Park(SortReady(r.value), LockSema(l))))
  {
    hide Donate, Schedule, Park, SortReady;
    assert LockSemaOk(s.locks[l], s.semas[LockSema(l)]);
  }

  lemma RaisedPriority(s: State, l: LockId, c: seq<LockId>, p: int, t: Tid)
    requires t in s.threads
    ensures PriorityIn(Raised(Wanting(s, l), c, p), t)
            == if HoldsOneOf(s, t, c) then Max(PriorityIn(s, t), p) else PriorityIn(s, t)
  {
    assert HoldsOneOf(Wanting(s, l), t, c) == HoldsOneOf(s, t, c);
  }
}
