/** The binary max-heap of lib/kernel/heap.c.

    A heap is a sequence `h` whose node number `i`, counted from 1, is `h[i - 1]`; the
    children of node `i` are nodes `2 * i` and `2 * i + 1`.  The functions below say what
    the loops of the C code compute, the lemmas say what that means, and class `Heap`
    runs the loops in place on the fixed buffer `elems`. */
module HeapModel {

  const MAX_HEAP_SIZE: nat := 2048

  /** What a heap_less_func must be for the heap to make sense. */
  ghost predicate StrictWeakOrder<T(!new)>(less: (T, T) -> bool) {
    && (forall a, b :: less(a, b) ==> !less(b, a))
    && (forall a, b, c :: !less(a, b) && !less(b, c) ==> !less(a, c))
  }

  function Swap<T>(h: seq<T>, i: nat, j: nat): seq<T>
    requires 1 <= i <= |h| && 1 <= j <= |h|
  {
    h[i - 1 := h[j - 1]][j - 1 := h[i - 1]]
  }

  function UpHeap<T>(h: seq<T>, i: nat, less: (T, T) -> bool): seq<T>
    requires i <= |h|
    decreases i
  {
    if i > 1 && less(h[i / 2 - 1], h[i - 1])
    then UpHeap(Swap(h, i / 2, i), i / 2, less)
    else h
  }

  /** The child that down_heap compares with: the left one unless the right one exists and is larger. */
  function LargerChild<T>(h: seq<T>, i: nat, less: (T, T) -> bool): (ch: nat)
    requires 1 <= i && 2 * i <= |h|
    ensures i < ch <= |h| && ch / 2 == i
  {
    if 2 * i < |h| && less(h[2 * i - 1], h[2 * i]) then 2 * i + 1 else 2 * i
  }

  function DownHeap<T>(h: seq<T>, i: nat, less: (T, T) -> bool): seq<T>
    requires 1 <= i
    decreases |h| - i
  {
    if 2 * i <= |h| then
      var ch := LargerChild(h, i, less);
      if less(h[i - 1], h[ch - 1]) then DownHeap(Swap(h, i, ch), ch, less) else h
    else h
  }

  function Push<T>(h: seq<T>, x: T, less: (T, T) -> bool): seq<T> {
    UpHeap(h + [x], |h| + 1, less)
  }

  /** What heap_pop leaves behind; it returns `h[0]`. */
  function Pop<T>(h: seq<T>, less: (T, T) -> bool): seq<T>
    requires h != []
  {
    DownHeap(Swap(h, 1, |h|)[..|h| - 1], 1, less)
  }

  /** The loop of heap_rebuild, run for i, i - 1, ..., 1. */
  function RebuildFrom<T>(h: seq<T>, i: nat, less: (T, T) -> bool): seq<T>
    requires i <= |h|
    decreases i
  {
    if i == 0 then h
    else
      DownHeapKeeps(h, i, less);
      RebuildFrom(DownHeap(h, i, less), i - 1, less)
  }

  function Rebuild<T>(h: seq<T>, less: (T, T) -> bool): seq<T> {
    RebuildFrom(h, |h|, less)
  }

  // ---- Heap order -----------------------------------------------------------------------

  /** Node j is not larger than its parent. */
  predicate Dominated<T>(h: seq<T>, less: (T, T) -> bool, j: nat)
    requires 2 <= j <= |h|
  {
    !less(h[j / 2 - 1], h[j - 1])
  }

  /** Every node whose parent is numbered at least `lo` is dominated. */
  ghost predicate OrderedFrom<T>(h: seq<T>, less: (T, T) -> bool, lo: nat) {
    forall j: nat :: 2 <= j <= |h| && lo <= j / 2 ==> Dominated(h, less, j)
  }

  ghost predicate Ordered<T>(h: seq<T>, less: (T, T) -> bool) {
    OrderedFrom(h, less, 1)
  }

  // ---- Contents -------------------------------------------------------------------------

  lemma SwapKeeps<T>(h: seq<T>, i: nat, j: nat)
    requires 1 <= i <= |h| && 1 <= j <= |h|
    ensures |Swap(h, i, j)| == |h| && multiset(Swap(h, i, j)) == multiset(h)
  {
  }

  lemma {:induction false} UpHeapKeeps<T>(h: seq<T>, i: nat, less: (T, T) -> bool)
    requires i <= |h|
    ensures |UpHeap(h, i, less)| == |h| && multiset(UpHeap(h, i, less)) == multiset(h)
    decreases i
  {
    if i > 1 && less(h[i / 2 - 1], h[i - 1]) {
      SwapKeeps(h, i / 2, i);
      UpHeapKeeps(Swap(h, i / 2, i), i / 2, less);
    }
  }

  lemma {:induction false} DownHeapKeeps<T>(h: seq<T>, i: nat, less: (T, T) -> bool)
    requires 1 <= i
    ensures |DownHeap(h, i, less)| == |h| && multiset(DownHeap(h, i, less)) == multiset(h)
    decreases |h| - i
  {
    if 2 * i <= |h| {
      var ch := LargerChild(h, i, less);
      if less(h[i - 1], h[ch - 1]) {
        SwapKeeps(h, i, ch);
        DownHeapKeeps(Swap(h, i, ch), ch, less);
      }
    }
  }

  lemma PushKeeps<T>(h: seq<T>, x: T, less: (T, T) -> bool)
    ensures |Push(h, x, less)| == |h| + 1
    ensures multiset(Push(h, x, less)) == multiset(h) + multiset{x}
  {
    UpHeapKeeps(h + [x], |h| + 1, less);
  }

  lemma PopKeeps<T>(h: seq<T>, less: (T, T) -> bool)
    requires h != []
    ensures |Pop(h, less)| == |h| - 1
    ensures multiset(h) == multiset(Pop(h, less)) + multiset{h[0]}
  {
    var n, s := |h|, Swap(h, 1, |h|);
    SwapKeeps(h, 1, n);
    assert s == s[..n - 1] + [h[0]];
    DownHeapKeeps(s[..n - 1], 1, less);
  }

  lemma PushMember<T>(h: seq<T>, x: T, less: (T, T) -> bool, y: T)
    ensures y in Push(h, x, less) <==> y in h || y == x
  {
    PushKeeps(h, x, less);
    assert y in Push(h, x, less) <==> y in multiset(Push(h, x, less));
    assert y in h <==> y in multiset(h);
  }

  lemma {:induction false} RebuildFromKeeps<T>(h: seq<T>, i: nat, less: (T, T) -> bool)
    requires i <= |h|
    ensures |RebuildFrom(h, i, less)| == |h| && multiset(RebuildFrom(h, i, less)) == multiset(h)
    decreases i
  {
    if i > 0 {
      DownHeapKeeps(h, i, less);
      RebuildFromKeeps(DownHeap(h, i, less), i - 1, less);
    }
  }

  // ---- Order ----------------------------------------------------------------------------

  /** Sifting up: only node k may be out of order, and k's children are already below k's parent. */
  lemma {:induction false} UpHeapOrders<T(!new)>(h: seq<T>, k: nat, less: (T, T) -> bool)
    requires StrictWeakOrder(less) && 1 <= k <= |h|
    requires forall j: nat :: 2 <= j <= |h| && j != k ==> Dominated(h, less, j)
    requires k >= 2 ==> forall c: nat :: 2 <= c <= |h| && c / 2 == k ==> !less(h[k / 2 - 1], h[c - 1])
    ensures Ordered(UpHeap(h, k, less), less)
    decreases k
  {
    if k > 1 && less(h[k / 2 - 1], h[k - 1]) {
      var p := k / 2;
      var g := Swap(h, p, k);
      forall j: nat | 2 <= j <= |g| && j != p
        ensures Dominated(g, less, j)
      {
        assert j != k ==> Dominated(h, less, j);
      }
      if p >= 2 {
        assert Dominated(h, less, p);
        forall c: nat | 2 <= c <= |g| && c / 2 == p
          ensures !less(g[p / 2 - 1], g[c - 1])
        {
          assert c != k ==> Dominated(h, less, c);
        }
      }
      UpHeapOrders(g, p, less);
    } else if k > 1 {
      assert Dominated(h, less, k);
    }
  }

  /** Sifting down: only k's children may be out of order, and they are already below k's parent. */
  lemma {:induction false} DownHeapOrders<T(!new)>(h: seq<T>, k: nat, less: (T, T) -> bool, lo: nat)
    requires StrictWeakOrder(less) && 1 <= lo <= k
    requires forall j: nat :: 2 <= j <= |h| && lo <= j / 2 != k ==> Dominated(h, less, j)
    requires k / 2 >= lo && k <= |h| ==>
               forall c: nat :: 2 <= c <= |h| && c / 2 == k ==> !less(h[k / 2 - 1], h[c - 1])
    ensures OrderedFrom(DownHeap(h, k, less), less, lo)
    decreases |h| - k
  {
    if 2 * k <= |h| {
      var ch := LargerChild(h, k, less);
      if less(h[k - 1], h[ch - 1]) {
        var g := Swap(h, k, ch);
        forall j: nat | 2 <= j <= |g| && lo <= j / 2 != ch
          ensures Dominated(g, less, j)
        {
          assert j / 2 != k ==> Dominated(h, less, j);
        }
        forall c: nat | 2 <= c <= |g| && c / 2 == ch
          ensures !less(g[k - 1], g[c - 1])
        {
          assert Dominated(h, less, c);
        }
        DownHeapOrders(g, ch, less, lo);
      } else {
        forall j: nat | 2 <= j <= |h| && j / 2 == k
          ensures Dominated(h, less, j)
        {
          assert j == 2 * k || j == 2 * k + 1;
        }
      }
    }
  }

  /** heap_push keeps the heap order. */
  lemma PushOrders<T(!new)>(h: seq<T>, x: T, less: (T, T) -> bool)
    requires StrictWeakOrder(less) && Ordered(h, less)
    ensures Ordered(Push(h, x, less), less)
  {
    var g := h + [x];
    forall j: nat | 2 <= j <= |g| && j != |g|
      ensures Dominated(g, less, j)
    {
      assert Dominated(h, less, j);
    }
    UpHeapOrders(g, |g|, less);
  }

  /** Sifting up puts the element at the root only if it is above the root. */
  lemma {:induction false} UpHeapRoot<T>(h: seq<T>, k: nat, less: (T, T) -> bool)
    requires 1 <= k <= |h|
    ensures |UpHeap(h, k, less)| == |h|
    ensures UpHeap(h, k, less)[0] == h[0] || (less(h[0], h[k - 1]) && UpHeap(h, k, less)[0] == h[k - 1])
    decreases k
  {
    if k > 1 && less(h[k / 2 - 1], h[k - 1]) {
      UpHeapRoot(Swap(h, k / 2, k), k / 2, less);
    }
  }

  /** A pushed element becomes the root exactly when it is above the old root. */
  lemma PushRoot<T(!new)>(h: seq<T>, x: T, less: (T, T) -> bool)
    requires StrictWeakOrder(less) && Ordered(h, less) && h != []
    ensures Push(h, x, less) != [] && Push(h, x, less)[0] == if less(h[0], x) then x else h[0]
  {
    var g := Push(h, x, less);
    UpHeapRoot(h + [x], |h| + 1, less);
    PushKeeps(h, x, less);
    PushOrders(h, x, less);
    RootIsMaximum(g, less);
    PushMember(h, x, less, x);
  }

  /** heap_pop keeps the heap order. */
  lemma PopOrders<T(!new)>(h: seq<T>, less: (T, T) -> bool)
    requires StrictWeakOrder(less) && Ordered(h, less) && h != []
    ensures Ordered(Pop(h, less), less)
  {
    var g := Swap(h, 1, |h|)[..|h| - 1];
    forall j: nat | 2 <= j <= |g| && 1 <= j / 2 != 1
      ensures Dominated(g, less, j)
    {
      assert Dominated(h, less, j);
    }
    DownHeapOrders(g, 1, less, 1);
  }

  lemma {:induction false} RebuildFromOrders<T(!new)>(h: seq<T>, i: nat, less: (T, T) -> bool)
    requires StrictWeakOrder(less) && i <= |h| && OrderedFrom(h, less, i + 1)
    ensures Ordered(RebuildFrom(h, i, less), less)
    decreases i
  {
    if i > 0 {
      DownHeapKeeps(h, i, less);
      DownHeapOrders(h, i, less, i);
      RebuildFromOrders(DownHeap(h, i, less), i - 1, less);
    } else {
      assert forall j: nat :: 2 <= j <= |h| ==> 1 <= j / 2;
    }
  }

  /** heap_rebuild makes a heap of arbitrary contents, without losing or duplicating any. */
  lemma RebuildRestores<T(!new)>(h: seq<T>, less: (T, T) -> bool)
    requires StrictWeakOrder(less)
    ensures Ordered(Rebuild(h, less), less)
    ensures |Rebuild(h, less)| == |h| && multiset(Rebuild(h, less)) == multiset(h)
  {
    RebuildFromKeeps(h, |h|, less);
    RebuildFromOrders(h, |h|, less);
  }

  lemma {:induction false} RootAbove<T(!new)>(h: seq<T>, less: (T, T) -> bool, i: nat)
    requires StrictWeakOrder(less) && Ordered(h, less) && 1 <= i <= |h|
    ensures !less(h[0], h[i - 1])
    decreases i
  {
    if i >= 2 {
      RootAbove(h, less, i / 2);
      assert Dominated(h, less, i);
    }
  }

  /** heap_pop returns a maximum of what the heap holds. */
  lemma RootIsMaximum<T(!new)>(h: seq<T>, less: (T, T) -> bool)
    requires StrictWeakOrder(less) && Ordered(h, less) && h != []
    ensures forall x :: x in h ==> !less(h[0], x)
  {
    forall x | x in h
      ensures !less(h[0], x)
    {
      var i: nat :| i < |h| && h[i] == x;
      RootAbove(h, less, i + 1);
    }
  }

  /** The order only looks at the comparisons between elements of the heap. */
  lemma OrderedUnder<T>(h: seq<T>, less: (T, T) -> bool, other: (T, T) -> bool)
    requires Ordered(h, less)
    requires forall a, b :: a in h && b in h ==> less(a, b) == other(a, b)
    ensures Ordered(h, other)
  {
    forall j: nat | 2 <= j <= |h|
      ensures Dominated(h, other, j)
    {
      assert Dominated(h, less, j);
      assert h[j / 2 - 1] in h && h[j - 1] in h;
    }
  }

  // ---- The buffer -----------------------------------------------------------------------

  /** How heap_push() ends. */
  datatype PushOutcome = AssertionFails | PastBuffer | Stored

  /** heap_push() on a heap of `size` elements: its assertion, then the index it stores at. */
  function PushAt(size: nat): PushOutcome {
    if !(size + 1 <= MAX_HEAP_SIZE) then AssertionFails
    else if size + 1 < MAX_HEAP_SIZE then Stored
    else PastBuffer
  }

  /** The outcomes of n pushes on an empty heap, up to the first that is not stored. */
  function Pushes(n: nat): (r: (nat, PushOutcome))
    ensures r.0 <= n
  {
    if n == 0 then (0, Stored)
    else
      var r := Pushes(n - 1);
      if r.1 == Stored && PushAt(r.0) == Stored then (r.0 + 1, Stored)
      else if r.1 == Stored then (r.0, PushAt(r.0))
      else r
  }

  /** The assertion never stops a heap from running over its buffer: n pushes are all stored exactly
      when n < MAX_HEAP_SIZE, and otherwise push number MAX_HEAP_SIZE passes the assertion and goes
      past the end. */
  lemma {:induction false} PushesStoredIff(n: nat)
    ensures Pushes(n).1 == Stored <==> n < 2048
    ensures Pushes(n).1 == Stored ==> Pushes(n).0 == n
    ensures Pushes(n).1 != Stored ==> Pushes(n) == (2047, PastBuffer)
  {
    if n > 0 {
      PushesStoredIff(n - 1);
    }
  }

  // ---- The heap in place ----------------------------------------------------------------

  /** struct heap.  The comparison function is passed to each operation: the C function
      pointer reads the structures the elements point to, which change between calls. */
  class Heap<T(0)> {
    const elems: array<T>
    var size: nat
    var pushCnt: int

    ghost predicate Valid()
      reads this
    {
      elems.Length == MAX_HEAP_SIZE && size < MAX_HEAP_SIZE
    }

    /** The elements, node 1 first. */
    ghost function Contents(): (h: seq<T>)
      requires Valid()
      reads this, elems
    {
      elems[1..size + 1]
    }

    constructor ()
      ensures Valid() && fresh(elems) && Contents() == [] && pushCnt == 0
    {
      elems := new T[MAX_HEAP_SIZE];
      size := 0;
      pushCnt := 0;
    }

    method IsEmpty() returns (b: bool)
      requires Valid()
      ensures b == (Contents() == [])
    {
      b := size == 0;
    }

    method Top() returns (x: T)
      requires Valid() && Contents() != []
      ensures x == Contents()[0]
    {
      x := elems[1];
    }

    method EntryCount() returns (n: int)
      modifies this`pushCnt
      ensures n == old(pushCnt) && pushCnt == n + 1
    {
      n := pushCnt;
      pushCnt := pushCnt + 1;
    }

    method SwapNodes(i: nat, j: nat)
      requires Valid() && 1 <= i <= size && 1 <= j <= size
      modifies elems
      ensures Contents() == Swap(old(Contents()), i, j)
    {
      elems[i], elems[j] := elems[j], elems[i];
    }

    method SiftUp(i: nat, less: (T, T) -> bool)
      requires Valid() && i <= size
      modifies elems
      ensures Contents() == UpHeap(old(Contents()), i, less)
    {
      var index := i;
      while index > 1
        invariant 0 <= index <= i
        invariant UpHeap(Contents(), index, less) == UpHeap(old(Contents()), i, less)
      {
        if less(elems[index / 2], elems[index]) {
          SwapNodes(index / 2, index);
        } else {
          break;
        }
        index := index / 2;
      }
    }

    method SiftDown(i: nat, less: (T, T) -> bool)
      requires Valid() && 1 <= i
      modifies elems
      ensures Contents() == DownHeap(old(Contents()), i, less)
    {
      var index := i;
      while 2 * index <= size
        invariant 1 <= index
        invariant DownHeap(Contents(), index, less) == DownHeap(old(Contents()), i, less)
        decreases size - index
      {
        var ch := 2 * index;
        if ch < size && less(elems[ch], elems[ch + 1]) {
          ch := ch + 1;
        }
        if less(elems[index], elems[ch]) {
          SwapNodes(index, ch);
        } else {
          break;
        }
        index := ch;
      }
    }

    /** heap_push().  What a store past the buffer does is not modelled: the heap stays as it was. */
    method Insert(x: T, less: (T, T) -> bool) returns (outcome: PushOutcome)
      requires Valid()
      modifies this`size, elems
      ensures Valid()
      ensures outcome == Stored <==> old(size) + 1 < elems.Length
      ensures outcome == PastBuffer <==> old(size) + 1 == elems.Length
      ensures outcome == Stored ==> Contents() == Push(old(Contents()), x, less) && size == old(size) + 1
      ensures outcome != Stored ==> Contents() == old(Contents())
    {
      outcome := PushAt(size);
      if outcome == Stored {
        size := size + 1;
        elems[size] := x;
        assert Contents() == old(Contents()) + [x];
        SiftUp(size, less);
      }
    }

    method Remove(less: (T, T) -> bool) returns (top: T)
      requires Valid() && Contents() != []
      modifies this`size, elems
      ensures Valid() && top == old(Contents())[0] && Contents() == Pop(old(Contents()), less)
    {
      top := elems[1];
      SwapNodes(1, size);
      ghost var swapped := Contents();
      size := size - 1;
      assert Contents() == swapped[..|swapped| - 1];
      SiftDown(1, less);
    }

    method RebuildAll(less: (T, T) -> bool)
      requires Valid()
      modifies elems
      ensures Contents() == RebuildFrom(old(Contents()), old(size), less)
    {
      var i := size;
      while i > 0
        invariant 0 <= i <= size
        invariant RebuildFrom(Contents(), i, less) == RebuildFrom(old(Contents()), old(size), less)
      {
        SiftDown(i, less);
        i := i - 1;
      }
    }
  }
}
