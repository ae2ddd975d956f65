/** The rehashing hash table of lib/kernel/hash.c, against the collection of its elements. */
module HashTable {
  import opened Common

  // ---- Bit tricks -----------------------------------------------------------------------------

  /** The bitwise and of two numbers. */
  function And(a: nat, b: nat): nat {
    if a == 0 || b == 0 then 0 else 2 * And(a / 2, b / 2) + if a % 2 == 1 && b % 2 == 1 then 1 else 0
  }

  function TurnOffLeast1Bit(x: nat): nat
    requires x > 0
  {
    And(x, x - 1)
  }

  predicate IsPowerOf2(x: nat) {
    x != 0 && TurnOffLeast1Bit(x) == 0
  }

  lemma {:induction false} AndSelf(x: nat)
    ensures And(x, x) == x
  {
    if x > 0 {
      AndSelf(x / 2);
    }
  }

  /** One step of it, on an odd and on an even number. */
  lemma TurnOffStep(x: nat)
    requires x > 0
    ensures x % 2 == 1 ==> TurnOffLeast1Bit(x) == x - 1
    ensures x % 2 == 0 ==> x / 2 > 0 && TurnOffLeast1Bit(x) == 2 * TurnOffLeast1Bit(x / 2)
  {
    if x % 2 == 1 {
      assert (x - 1) / 2 == x / 2;
      AndSelf(x / 2);
    } else {
      assert (x - 1) / 2 == x / 2 - 1;
    }
  }

  /** The trick recognizes exactly the powers of two. */
  lemma {:induction false} PowerOf2Iff(x: nat)
    ensures IsPowerOf2(x) <==> exists k: nat :: x == Pow2(k)
    decreases x
  {
    if x > 1 {
      TurnOffStep(x);
      if x % 2 == 0 {
        PowerOf2Iff(x / 2);
        if IsPowerOf2(x / 2) {
          var k: nat :| x / 2 == Pow2(k);
          assert x == Pow2(k + 1);
        } else {
          NotDoubled(x);
        }
      } else {
        OddPower(x);
      }
    } else if x == 1 {
      assert x == Pow2(0);
    }
  }

  lemma OddPower(x: nat)
    requires x > 1 && x % 2 == 1
    ensures forall k: nat :: x != Pow2(k)
  {
  }

  lemma NotDoubled(x: nat)
    requires x > 1 && x % 2 == 0 && forall k: nat :: x / 2 != Pow2(k)
    ensures forall k: nat :: x != Pow2(k)
  {
    forall k: nat
      ensures x != Pow2(k)
    {
      assert k > 0 ==> x / 2 != Pow2(k - 1);
    }
  }

  /** Turning off the least bit leaves less, but at least half. */
  lemma {:induction false} TurnOffBounds(x: nat)
    requires x > 0
    ensures TurnOffLeast1Bit(x) < x
    ensures TurnOffLeast1Bit(x) > 0 ==> x < 2 * TurnOffLeast1Bit(x)
    decreases x
  {
    TurnOffStep(x);
    if x % 2 == 0 {
      TurnOffBounds(x / 2);
    }
  }

  /** For a power of two, masking with one less is taking the remainder. */
  lemma {:induction false} MaskIsRemainder(h: nat, k: nat)
    ensures And(h, Pow2(k) - 1) == h % Pow2(k)
    decreases k
  {
    if k > 0 {
      MaskIsRemainder(h / 2, k - 1);
      AndOdd(h, Pow2(k - 1));
      HalfRemainder(h, Pow2(k - 1));
    }
  }

  lemma AndOdd(h: nat, p: nat)
    requires p > 0
    ensures And(h, 2 * p - 1) == 2 * And(h / 2, p - 1) + h % 2
  {
    assert (2 * p - 1) / 2 == p - 1 && (2 * p - 1) % 2 == 1;
  }

  lemma HalfRemainder(h: nat, p: nat)
    requires p > 0
    ensures h % (2 * p) == 2 * (h / 2 % p) + h % 2
  {
    var q, r := h / 2 / p, h / 2 % p;
    assert h == 2 * p * q + (2 * r + h % 2) by {
      assert h / 2 == q * p + r;
    }
    RemainderIs(h, 2 * p, q, 2 * r + h % 2);
  }

  lemma RemainderIs(h: nat, d: nat, q: nat, r: nat)
    requires d > 0 && r < d && h == d * q + r
    ensures h % d == r
  {
    var q', r' := h / d, h % d;
    assert h == d * q' + r';
    AtLeastOnce(d, q - q');
    AtLeastOnce(d, q' - q);
    assert d * (q - q') == r' - r && d * (q' - q) == r - r';
  }

  lemma AtLeastOnce(d: nat, z: int)
    ensures z >= 1 ==> d * z >= d
  {
    if z >= 1 {
      assert d * z == d + d * (z - 1);
    }
  }

  // ---- Buckets ----------------------------------------------------------------------------------

  /** All elements of all buckets. */
  ghost function Bag<E>(buckets: seq<seq<E>>): multiset<E> {
    if buckets == [] then multiset{} else multiset(buckets[0]) + Bag(buckets[1..])
  }

  lemma Reassociate<E>(a: multiset<E>, b: multiset<E>, c: multiset<E>)
    ensures (a + b) + c == a + (b + c)
  {
  }

  lemma {:induction false} BagUpdated<E>(buckets: seq<seq<E>>, i: nat, bucket: seq<E>)
    requires i < |buckets|
    ensures Bag(buckets[i := bucket]) + multiset(buckets[i]) == Bag(buckets) + multiset(bucket)
    decreases |buckets|
  {
    if i == 0 {
      assert buckets[i := bucket][1..] == buckets[1..];
    } else {
      var rest := buckets[1..];
      BagUpdated(rest, i - 1, bucket);
      assert buckets[i := bucket][1..] == rest[i - 1 := bucket];
      Reassociate(multiset(buckets[0]), Bag(rest[i - 1 := bucket]), multiset(buckets[i]));
      Reassociate(multiset(buckets[0]), Bag(rest), multiset(bucket));
    }
  }

  lemma {:induction false} BagHas<E>(buckets: seq<seq<E>>, e: E)
    ensures e in Bag(buckets) <==> exists i :: 0 <= i < |buckets| && e in buckets[i]
    decreases |buckets|
  {
    if buckets != [] {
      var rest := buckets[1..];
      BagHas(rest, e);
      assert (exists j :: 0 <= j < |rest| && e in rest[j]) ==> exists i :: 0 < i < |buckets| && e in buckets[i] by {
        if j :| 0 <= j < |rest| && e in rest[j] {
          assert e in buckets[j + 1];
        }
      }
      assert (exists i :: 0 < i < |buckets| && e in buckets[i]) ==> exists j :: 0 <= j < |rest| && e in rest[j] by {
        if i :| 0 < i < |buckets| && e in buckets[i] {
          assert e in rest[i - 1];
        }
      }
      assert e in multiset(buckets[0]) <==> e in buckets[0];
    }
  }

  lemma {:induction false} BagSplit<E>(buckets: seq<seq<E>>, i: nat)
    requires i < |buckets|
    ensures Bag(buckets[i..]) == multiset(buckets[i]) + Bag(buckets[i + 1..])
  {
    assert buckets[i..][1..] == buckets[i + 1..];
  }

  /** list_init() of n buckets */
  function Empties<E>(n: nat): seq<seq<E>> {
    seq(n, _ => [])
  }

  lemma {:induction false} BagOfEmpties<E>(n: nat)
    ensures Bag(Empties<E>(n)) == multiset{}
    decreases n
  {
    if n > 0 {
      BagOfEmpties<E>(n - 1);
      assert Empties<E>(n)[1..] == Empties<E>(n - 1);
    }
  }

  type Less<!E> = (E, E) -> bool

  /** What hash_less_func compares as neither less. */
  predicate Equal<E>(less: Less<E>, a: E, b: E) {
    !less(a, b) && !less(b, a)
  }

  /** The order's equality is transitive, and equal elements hash alike. */
  ghost predicate Consistent<E(!new)>(hash: E -> nat, less: Less<E>) {
    && (forall a, b :: Equal(less, a, b) ==> hash(a) == hash(b))
    && (forall a, b, c :: Equal(less, a, b) && Equal(less, b, c) ==> Equal(less, a, c))
    && (forall a :: Equal(less, a, a))
  }

  /** No two equal elements. */
  ghost predicate Unique<E(!new)>(less: Less<E>, m: multiset<E>) {
    && (forall a :: m[a] <= 1)
    && (forall a, b :: a in m && b in m && Equal(less, a, b) ==> a == b)
  }

  /** The element of m equal to e, if there is one. */
  ghost predicate IsFound<E(!new)>(less: Less<E>, m: multiset<E>, e: E, r: Option<E>) {
    match r
    case Some(x) => x in m && Equal(less, x, e)
    case None => forall x :: x in m ==> !Equal(less, x, e)
  }

  /** Every element sits in the bucket its hash value selects. */
  ghost predicate Placed<E(!new)>(hash: E -> nat, buckets: seq<seq<E>>) {
    forall i, e :: 0 <= i < |buckets| && e in buckets[i] ==> And(hash(e), |buckets| - 1) == i
  }

  lemma {:induction false} AndBelow(a: nat, b: nat)
    ensures And(a, b) <= b
    decreases a
  {
    if a != 0 && b != 0 {
      AndBelow(a / 2, b / 2);
    }
  }

  /** The bucket of e is where an equal element would be. */
  lemma FoundInBucket<E(!new)>(hash: E -> nat, less: Less<E>, buckets: seq<seq<E>>, e: E, i: nat)
    requires Consistent(hash, less) && Placed(hash, buckets) && i < |buckets| && i == And(hash(e), |buckets| - 1)
    ensures forall x :: x in Bag(buckets) && Equal(less, x, e) ==> x in buckets[i]
  {
    forall x | x in Bag(buckets) && Equal(less, x, e)
      ensures x in buckets[i]
    {
      BagHas(buckets, x);
    }
  }

  lemma InBucketInBag<E>(buckets: seq<seq<E>>, i: nat)
    requires i < |buckets|
    ensures forall x :: x in buckets[i] ==> x in Bag(buckets)
  {
    forall x | x in buckets[i]
      ensures x in Bag(buckets)
    {
      BagHas(buckets, x);
    }
  }

  /** One element more or less in a bucket is one more or less in all. */
  lemma BagPushed<E>(buckets: seq<seq<E>>, i: nat, e: E)
    requires i < |buckets|
    ensures Bag(buckets[i := [e] + buckets[i]]) == Bag(buckets) + multiset{e}
  {
    BagUpdated(buckets, i, [e] + buckets[i]);
    var a, b, c := Bag(buckets[i := [e] + buckets[i]]), Bag(buckets), multiset(buckets[i]);
    assert a + c == b + (multiset{e} + c);
    assert a == (a + c) - c == b + multiset{e};
  }

  lemma CancelCut<E>(now: multiset<E>, all: multiset<E>, cut: multiset<E>, e: E)
    requires now + (cut + multiset{e}) == all + cut
    ensures now == all - multiset{e}
  {
    assert all == (all + cut) - cut;
    assert now + multiset{e} == (now + (cut + multiset{e})) - cut;
    assert now == (now + multiset{e}) - multiset{e};
  }

  lemma BagCut<E>(buckets: seq<seq<E>>, i: nat, p: nat)
    requires i < |buckets| && p < |buckets[i]|
    ensures Bag(buckets[i := buckets[i][..p] + buckets[i][p + 1..]]) == Bag(buckets) - multiset{buckets[i][p]}
  {
    var b, e := buckets[i], buckets[i][p];
    var cut := b[..p] + b[p + 1..];
    BagUpdated(buckets, i, cut);
    assert b == b[..p] + [e] + b[p + 1..];
    var now := Bag(buckets[i := cut]);
    assert multiset(b) == multiset(cut) + multiset{e};
    CancelCut(now, Bag(buckets), multiset(cut), e);
  }

  lemma PlacedCut<E(!new)>(hash: E -> nat, buckets: seq<seq<E>>, i: nat, p: nat)
    requires Placed(hash, buckets) && i < |buckets| && p < |buckets[i]|
    ensures Placed(hash, buckets[i := buckets[i][..p] + buckets[i][p + 1..]])
  {
  }

  lemma PlacedPushed<E(!new)>(hash: E -> nat, buckets: seq<seq<E>>, i: nat, e: E)
    requires Placed(hash, buckets) && i < |buckets| && i == And(hash(e), |buckets| - 1)
    ensures Placed(hash, buckets[i := [e] + buckets[i]])
  {
  }

  /** No power of two up to x is lost by turning off a bit, unless x is one. */
  lemma {:induction false} PowersKept(x: nat, k: nat)
    requires x > 0 && !IsPowerOf2(x) && Pow2(k) <= x
    ensures Pow2(k) <= TurnOffLeast1Bit(x)
    decreases x
  {
    TurnOffStep(x);
    PowerOf2Iff(x);
    if x % 2 == 0 && k > 0 {
      PowersKept(x / 2, k - 1);
    }
  }

  /** cnt is the largest power of two not above goal. */
  ghost predicate LargestPower(goal: nat, cnt: nat) {
    (exists k: nat :: cnt == Pow2(k)) && cnt <= goal && forall k: nat :: Pow2(k) <= goal ==> Pow2(k) <= cnt
  }

  /** The bucket count that rehash() aims at */
  method BestCount(elemCnt: nat) returns (cnt: nat)
    ensures cnt >= 4 && LargestPower(if elemCnt / 2 < 4 then 4 else elemCnt / 2, cnt)
  {
    cnt := elemCnt / 2;
    if cnt < 4 {
      cnt := 4;
    }
    ghost var goal := cnt;
    assert Pow2(2) == 4;
    while !IsPowerOf2(cnt)
      invariant 4 <= cnt <= goal && forall k: nat :: Pow2(k) <= goal ==> Pow2(k) <= cnt
      decreases cnt
    {
      TurnOffBounds(cnt);
      forall k: nat | Pow2(k) <= goal
        ensures Pow2(k) <= TurnOffLeast1Bit(cnt)
      {
        PowersKept(cnt, k);
      }
      assert Pow2(2) <= TurnOffLeast1Bit(cnt);
      cnt := TurnOffLeast1Bit(cnt);
    }
    PowerOf2Iff(cnt);
  }

  /** The inner loop of rehash(): moves the elements of an old bucket to new ones. */
  method MoveAll<E(!new)>(hash: E -> nat, bucket: seq<E>, into: seq<seq<E>>) returns (now: seq<seq<E>>)
    requires |into| > 0 && Placed(hash, into)
    ensures |now| == |into| && Placed(hash, now) && Bag(now) == Bag(into) + multiset(bucket)
  {
    now := into;
    var p := 0;
    while p < |bucket|
      invariant p <= |bucket| && |now| == |into| && Placed(hash, now) && Bag(now) == Bag(into) + multiset(bucket[..p])
    {
      var e := bucket[p];
      var i := And(hash(e), |now| - 1);
      AndBelow(hash(e), |now| - 1);
      BagPushed(now, i, e);
      assert bucket[..p + 1] == bucket[..p] + [e];
      Reassociate(Bag(into), multiset(bucket[..p]), multiset{e});
      now := now[i := [e] + now[i]];
      p := p + 1;
    }
    assert bucket[..p] == bucket;
  }

  /** The outer loop of rehash() */
  method Redistribute<E(!new)>(hash: E -> nat, was: seq<seq<E>>, cnt: nat) returns (now: seq<seq<E>>)
    requires cnt > 0
    ensures |now| == cnt && Placed(hash, now) && Bag(now) == Bag(was)
  {
    now := Empties<E>(cnt);
    BagOfEmpties<E>(cnt);
    assert Placed(hash, now);
    hide Placed, Bag;
    var i := 0;
    assert was[0..] == was;
    while i < |was|
      invariant i <= |was| && |now| == cnt && Placed(hash, now) && Bag(now) + Bag(was[i..]) == Bag(was)
    {
      BagSplit(was, i);
      Reassociate(Bag(now), multiset(was[i]), Bag(was[i + 1..]));
      now := MoveAll(hash, was[i], now);
      i := i + 1;
    }
    BagOfNone(was[i..]);
  }

  lemma BagOfNone<E>(none: seq<seq<E>>)
    requires none == []
    ensures Bag(none) == multiset{}
  {
  }

  lemma UniqueAdded<E(!new)>(less: Less<E>, m: multiset<E>, e: E)
    requires Unique(less, m) && IsFound(less, m, e, None) && Equal(less, e, e)
    ensures Unique(less, m + multiset{e})
  {
  }

  lemma UniqueRemoved<E(!new)>(less: Less<E>, m: multiset<E>, e: E)
    requires Unique(less, m)
    ensures Unique(less, m - multiset{e})
  {
  }

  class Hash<!E(==, !new)> {
    const hash: E -> nat
    const less: Less<E>
    var buckets: seq<seq<E>>
    var elemCnt: nat

    ghost predicate Valid()
      reads this
    {
      && Consistent(hash, less) && Placed(hash, buckets) && Unique(less, Bag(buckets)) && elemCnt == |Bag(buckets)|
      && |buckets| >= 4 && exists k: nat :: |buckets| == Pow2(k)
    }

    ghost function Contents(): multiset<E>
      reads this
    {
      Bag(buckets)
    }

    /** One bucket for two elements, as near as a power of two of at least 4 comes from below. */
    ghost predicate WellSized()
      reads this
    {
      LargestPower(if elemCnt / 2 < 4 then 4 else elemCnt / 2, |buckets|)
    }

    /** hash_init() with its first buckets */
    constructor (hash: E -> nat, less: Less<E>)
      requires Consistent(hash, less)
      ensures Valid() && Contents() == multiset{} && this.hash == hash && this.less == less
    {
      this.hash, this.less := hash, less;
      buckets, elemCnt := Empties(4), 0;
      BagOfEmpties<E>(4);
      assert 4 == Pow2(2);
    }

    /** find_bucket() and find_elem() */
    method FindElem(e: E) returns (i: nat, r: Option<E>)
      requires Valid()
      ensures i < |buckets| && i == And(hash(e), |buckets| - 1)
      ensures IsFound(less, Contents(), e, r) && (r.Some? ==> r.value in buckets[i])
    {
      AndBelow(hash(e), |buckets| - 1);
      i := And(hash(e), |buckets| - 1);
      FoundInBucket(hash, less, buckets, e, i);
      InBucketInBag(buckets, i);
      var bucket, p := buckets[i], 0;
      while p < |bucket|
        invariant p <= |bucket| && forall q :: 0 <= q < p ==> !Equal(less, bucket[q], e)
      {
        if !less(bucket[p], e) && !less(e, bucket[p]) {
          return i, Some(bucket[p]);
        }
        p := p + 1;
      }
      return i, None;
    }

    /** rehash(); `memory` tells whether the new buckets can be had */
    method Rehash(memory: bool)
      requires Valid()
      modifies this`buckets
      ensures Valid() && Contents() == old(Contents())
      ensures if memory then WellSized() else buckets == old(buckets)
    {
      hide Placed, Bag, Unique, Consistent, LargestPower;
      var cnt := BestCount(elemCnt);
      if cnt == |buckets| || !memory {
        return;
      }
      buckets := Redistribute(hash, buckets, cnt);
    }

    /** hash_insert() */
    method Insert(e: E, memory: bool) returns (old_: Option<E>)
      requires Valid()
      modifies this`buckets, this`elemCnt
      ensures Valid() && IsFound(less, old(Contents()), e, old_)
      ensures Contents() == if old_.Some? then old(Contents()) else old(Contents()) + multiset{e}
      ensures memory ==> WellSized()
    {
      var i;
      i, old_ := FindElem(e);
      if old_.None? {
        UniqueAdded(less, Bag(buckets), e);
        InsertElem(i, e);
      }
      Rehash(memory);
    }

    /** insert_elem() */
    method InsertElem(i: nat, e: E)
      requires Valid() && i < |buckets| && i == And(hash(e), |buckets| - 1) && Unique(less, Contents() + multiset{e})
      modifies this`buckets, this`elemCnt
      ensures Valid() && |buckets| == |old(buckets)| && Contents() == old(Contents()) + multiset{e}
    {
      hide Placed, Unique, Consistent, Bag, And;
      BagPushed(buckets, i, e);
      PlacedPushed(hash, buckets, i, e);
      elemCnt := elemCnt + 1;
      buckets := buckets[i := [e] + buckets[i]];
    }

    /** remove_elem(): e is in bucket i */
    method RemoveElem(i: nat, e: E)
      requires Valid() && i < |buckets| && e in buckets[i]
      modifies this`buckets, this`elemCnt
      ensures Valid() && |buckets| == |old(buckets)| && Contents() == old(Contents()) - multiset{e}
    {
      hide Placed, Unique, Consistent, Bag;
      var bucket, p := buckets[i], 0;
      while bucket[p] != e
        invariant p < |bucket| && e in bucket[p..]
        decreases |bucket| - p
      {
        p := p + 1;
      }
      BagCut(buckets, i, p);
      PlacedCut(hash, buckets, i, p);
      InBucketInBag(buckets, i);
      UniqueRemoved(less, Contents(), e);
      elemCnt := elemCnt - 1;
      buckets := buckets[i := bucket[..p] + bucket[p + 1..]];
    }

    /** hash_delete() */
    method Delete(e: E, memory: bool) returns (found: Option<E>)
      requires Valid()
      modifies this`buckets, this`elemCnt
      ensures Valid() && IsFound(less, old(Contents()), e, found)
      ensures Contents() == if found.Some? then old(Contents()) - multiset{found.value} else old(Contents())
      ensures memory && found.Some? ==> WellSized()
    {
      var i;
      i, found := FindElem(e);
      if found.Some? {
        RemoveElem(i, found.value);
        Rehash(memory);
      }
    }

    /** hash_replace() */
    method Replace(e: E, memory: bool) returns (found: Option<E>)
      requires Valid()
      modifies this`buckets, this`elemCnt
      ensures Valid() && IsFound(less, old(Contents()), e, found)
      ensures Contents() == (if found.Some? then old(Contents()) - multiset{found.value} else old(Contents())) + multiset{e}
      ensures memory ==> WellSized()
    {
      hide Placed, Unique, Consistent, Bag, And, IsFound;
      var i;
      i, found := FindElem(e);
      NoneLeft(hash, less, Contents(), e, found);
      if found.Some? {
        RemoveElem(i, found.value);
      }
      UniqueAdded(less, Contents(), e);
      InsertElem(i, e);
      Rehash(memory);
    }
  }

  lemma Transitive<E(!new)>(hash: E -> nat, less: Less<E>, a: E, b: E, c: E)
    requires Consistent(hash, less)
    ensures Equal(less, a, b) && Equal(less, b, c) ==> Equal(less, a, c)
  {
  }

  /** Once the equal element is taken out, no other is left. */
  lemma NoneLeft<E(!new)>(hash: E -> nat, less: Less<E>, m: multiset<E>, e: E, found: Option<E>)
    requires Consistent(hash, less) && Unique(less, m) && IsFound(less, m, e, found)
    ensures Equal(less, e, e)
    ensures IsFound(less, if found.Some? then m - multiset{found.value} else m, e, None)
  {
    forall x | found.Some? && x in m - multiset{found.value}
      ensures !Equal(less, x, e)
    {
      assert x in m && m[found.value] == 1;
      Transitive(hash, less, x, e, found.value);
    }
  }

  // ---- Iteration --------------------------------------------------------------------------------

  ghost function Flat<E>(buckets: seq<seq<E>>): seq<E> {
    if buckets == [] then [] else buckets[0] + Flat(buckets[1..])
  }

  lemma {:induction false} FlatIsBag<E>(buckets: seq<seq<E>>)
    ensures multiset(Flat(buckets)) == Bag(buckets)
    decreases |buckets|
  {
    if buckets != [] {
      FlatIsBag(buckets[1..]);
    }
  }

  /** struct hash_iterator: a bucket, and a place in it; place -1 is the list head. */
  class Iterator<E> {
    const buckets: seq<seq<E>>
    var bucket: nat
    var place: int

    ghost predicate Valid()
      reads this
    {
      bucket < |buckets| && -1 <= place < |buckets[bucket]|
    }

    /** What hash_next() has yet to return */
    ghost function Remaining(): seq<E>
      requires Valid()
      reads this
    {
      buckets[bucket][place + 1..] + Flat(buckets[bucket + 1..])
    }

    /** hash_first(): everything is to come. */
    constructor (buckets: seq<seq<E>>)
      requires |buckets| > 0
      ensures Valid() && Remaining() == Flat(buckets) && this.buckets == buckets
    {
      this.buckets, bucket, place := buckets, 0, -1;
    }

    /** hash_next(): returns what is to come one by one, and a null pointer when nothing is. */
    method Next() returns (r: Option<E>)
      requires Valid()
      modifies this
      ensures r.None? <==> old(Remaining()) == []
      ensures r.Some? ==> Valid() && old(Remaining()) == [r.value] + Remaining()
    {
      place := place + 1;
      while place == |buckets[bucket]|
        invariant bucket < |buckets| && 0 <= place <= |buckets[bucket]|
        invariant buckets[bucket][place..] + Flat(buckets[bucket + 1..]) == old(Remaining())
        decreases |buckets| - bucket
      {
        bucket := bucket + 1;
        if bucket == |buckets| {
          return None;
        }
        assert buckets[bucket..][1..] == buckets[bucket + 1..];
        place := 0;
      }
      r := Some(buckets[bucket][place]);
      assert buckets[bucket][place..] == [r.value] + buckets[bucket][place + 1..];
    }
  }

  /** hash_init(); `memory` tells whether the first buckets can be had. */
  method HashInit<E(==, !new)>(hash: E -> nat, less: Less<E>, memory: bool) returns (r: Option<Hash<E>>)
    requires Consistent(hash, less)
    ensures r.Some? <==> memory
    ensures r.Some? ==> fresh(r.value) && r.value.Valid() && r.value.Contents() == multiset{}
    ensures r.Some? ==> r.value.hash == hash && r.value.less == less
  {
    if !memory {
      return None;
    }
    var h := new Hash(hash, less);
    return Some(h);
  }
}
