/** The doubly linked list with two sentinels of lib/kernel/list.c, and its natural merge sort. */
module LinkedList {
  import opened Common

  /** struct list_elem.  What an element stands for is known to the comparison function only. */
  class Elem {
    var prev: Elem?
    var next: Elem?
    constructor ()
      ensures prev == null && next == null
    {
      prev, next := null, null;
    }
  }

  type Less = (Elem, Elem) -> bool

  // ---- Orders on sequences of elements --------------------------------------------------

  /** What a list_less_func must be on the elements it is applied to. */
  ghost predicate OrderOn(less: Less, all: set<Elem>) {
    && (forall a, b :: a in all && b in all && less(a, b) ==> !less(b, a))
    && (forall a, b, c :: a in all && b in all && c in all && !less(a, b) && !less(b, c) ==> !less(a, c))
  }

  ghost predicate Within(xs: seq<Elem>, lo: int, hi: int, all: set<Elem>)
    requires 0 <= lo && hi <= |xs|
  {
    forall p :: lo <= p < hi ==> xs[p] in all
  }

  /** The elements at positions lo, ..., hi - 1 are in nondecreasing order. */
  ghost predicate Sorted(less: Less, xs: seq<Elem>, lo: int, hi: int)
    requires 0 <= lo && hi <= |xs|
  {
    forall p, q :: lo <= p < q < hi ==> !less(xs[q], xs[p])
  }

  /** Elements at lo, ..., hi - 1 that compare equal are in the order of their ranks. */
  ghost predicate Stable(less: Less, rank: map<Elem, int>, xs: seq<Elem>, lo: int, hi: int)
    requires 0 <= lo && hi <= |xs| && Within(xs, lo, hi, rank.Keys)
  {
    forall p, q :: lo <= p < q < hi && !less(xs[p], xs[q]) && !less(xs[q], xs[p]) ==> rank[xs[p]] < rank[xs[q]]
  }

  /** The block i, ..., j - 1 moved forward to position k. */
  ghost function Moved<T>(xs: seq<T>, k: nat, i: nat, j: nat): seq<T>
    requires k <= i <= j <= |xs|
  {
    xs[..k] + xs[i..j] + xs[k..i] + xs[j..]
  }

  lemma MovedKeeps<T>(xs: seq<T>, k: nat, i: nat, j: nat)
    requires k <= i <= j <= |xs|
    ensures |Moved(xs, k, i, j)| == |xs| && multiset(Moved(xs, k, i, j)) == multiset(xs)
  {
    assert xs == xs[..k] + xs[k..i] + xs[i..j] + xs[j..];
  }

  /** Where the element now at position p was before. */
  ghost function Source(k: nat, i: nat, j: nat, p: nat): nat
    requires k <= i <= j
  {
    if p < k || p >= j then p else if p < k + (j - i) then p - k + i else p - (j - i)
  }

  lemma MovedAt<T>(xs: seq<T>, k: nat, i: nat, j: nat, p: nat)
    requires k <= i <= j <= |xs| && p < |xs|
    ensures Source(k, i, j, p) < |xs| && |Moved(xs, k, i, j)| == |xs| && Moved(xs, k, i, j)[p] == xs[Source(k, i, j, p)]
  {
  }

  lemma MovedDistinct(xs: seq<Elem>, k: nat, i: nat, j: nat)
    requires k <= i <= j <= |xs| && Distinct(xs)
    ensures Distinct(Moved(xs, k, i, j))
  {
    var ys := Moved(xs, k, i, j);
    forall p, q | 0 <= p < q < |ys|
      ensures ys[p] != ys[q]
    {
      MovedAt(xs, k, i, j, p);
      MovedAt(xs, k, i, j, q);
    }
  }

  /** What a single-element move within x, ..., z - 1 leaves where it was. */
  lemma MovedFrame<T>(xs: seq<T>, i: nat, j: nat, x: nat, z: nat)
    requires x <= i < j < z <= |xs|
    ensures var ys := Moved(xs, i, j, j + 1);
            && |ys| == |xs| && multiset(ys) == multiset(xs) && ys[..x] == xs[..x] && ys[z..] == xs[z..]
            && ys[i + 1] == xs[i] && (forall p :: j < p < |xs| ==> ys[p] == xs[p])
  {
    MovedKeeps(xs, i, j, j + 1);
    MovedAt(xs, i, j, j + 1, i + 1);
    var ys := Moved(xs, i, j, j + 1);
    forall p | 0 <= p < |xs| && (p < i || p > j)
      ensures ys[p] == xs[p]
    {
      MovedAt(xs, i, j, j + 1, p);
    }
  }

  // ---- Runs -----------------------------------------------------------------------------

  /** The number of maximal nondecreasing runs. */
  ghost function Runs(less: Less, xs: seq<Elem>): nat {
    if |xs| <= 1 then |xs| else Runs(less, xs[1..]) + (if less(xs[1], xs[0]) then 1 else 0)
  }

  /** A run that stops at m counts once; what follows counts by itself. */
  lemma {:induction false} RunsSplit(less: Less, xs: seq<Elem>, m: nat)
    requires 0 < m <= |xs|
    requires forall p :: 0 <= p < m - 1 ==> !less(xs[p + 1], xs[p])
    requires m < |xs| ==> less(xs[m], xs[m - 1])
    ensures Runs(less, xs) == 1 + Runs(less, xs[m..])
    decreases m
  {
    if m > 1 {
      RunsSplit(less, xs[1..], m - 1);
      assert xs[1..][m - 1..] == xs[m..];
      assert !less(xs[0 + 1], xs[0]);
    }
  }

  lemma {:induction false} RunsConcat(less: Less, xs: seq<Elem>, ys: seq<Elem>)
    ensures Runs(less, xs + ys) <= Runs(less, xs) + Runs(less, ys)
    decreases |xs|
  {
    if xs == [] {
      assert xs + ys == ys;
    } else if |xs| == 1 {
      assert (xs + ys)[1..] == ys;
    } else {
      RunsConcat(less, xs[1..], ys);
      assert (xs + ys)[1..] == xs[1..] + ys;
    }
  }

  lemma {:induction false} RunsOfSorted(less: Less, xs: seq<Elem>)
    requires Sorted(less, xs, 0, |xs|)
    ensures Runs(less, xs) <= 1
    decreases |xs|
  {
    if |xs| > 1 {
      RunsOfSorted(less, xs[1..]);
    }
  }

  /** A list of a single run is in order throughout. */
  lemma {:induction false} SingleRunSorted(less: Less, xs: seq<Elem>, all: set<Elem>)
    requires OrderOn(less, all) && Within(xs, 0, |xs|, all) && Runs(less, xs) <= 1
    ensures Sorted(less, xs, 0, |xs|)
    decreases |xs|
  {
    if |xs| > 1 {
      assert Runs(less, xs[1..]) >= 1 by {
        RunsPositive(less, xs[1..]);
      }
      SingleRunSorted(less, xs[1..], all);
      forall p, q | 0 <= p < q < |xs|
        ensures !less(xs[q], xs[p])
      {
        assert xs[q] == xs[1..][q - 1] && xs[1] == xs[1..][0];
        if p == 0 && q > 1 {
          assert !less(xs[1..][q - 1], xs[1..][0]);
        } else if p > 0 {
          assert !less(xs[1..][q - 1], xs[1..][p - 1]);
        }
      }
    }
  }

  lemma {:induction false} RunsPositive(less: Less, xs: seq<Elem>)
    requires xs != []
    ensures Runs(less, xs) >= 1
    decreases |xs|
  {
    if |xs| > 1 {
      RunsPositive(less, xs[1..]);
    }
  }

  /** A stretch without descents is in order throughout. */
  lemma {:induction false} NoDescentSorted(less: Less, xs: seq<Elem>, lo: nat, hi: nat, all: set<Elem>)
    requires lo <= hi <= |xs| && OrderOn(less, all) && Within(xs, lo, hi, all)
    requires forall p :: lo <= p < hi - 1 ==> !less(xs[p + 1], xs[p])
    ensures Sorted(less, xs, lo, hi)
    decreases hi
  {
    if hi - lo > 1 {
      NoDescentSorted(less, xs, lo, hi - 1, all);
      assert !less(xs[hi - 2 + 1], xs[hi - 2]);
      forall p | lo <= p < hi - 1
        ensures !less(xs[hi - 1], xs[p])
      {
        assert p < hi - 2 ==> !less(xs[hi - 2], xs[p]);
      }
    }
  }

  // ---- Merging --------------------------------------------------------------------------

  /** The state of inplace_merge() with a0 at i and a1b0 at j: x, ..., i - 1 is merged,
      i, ..., j - 1 is left of the first run and j, ..., z - 1 of the second. */
  ghost predicate Merging(less: Less, xs: seq<Elem>, x: int, i: int, j: int, z: int)
    requires 0 <= x <= i <= j <= z <= |xs|
  {
    && Sorted(less, xs, x, j) && Sorted(less, xs, j, z)
    && forall p, q :: x <= p < i && j <= q < z ==> !less(xs[q], xs[p])
  }

  /** The elements to be sorted sit at positions 1, ..., |xs| - 2, stably arranged. */
  ghost predicate Sortable(less: Less, rank: map<Elem, int>, xs: seq<Elem>) {
    && |xs| >= 2 && OrderOn(less, rank.Keys) && Within(xs, 1, |xs| - 1, rank.Keys)
    && Stable(less, rank, xs, 1, |xs| - 1)
  }

  /** Stepping over an element of the first run that is not larger. */
  lemma MergeSteps(less: Less, rank: map<Elem, int>, xs: seq<Elem>, x: int, i: int, j: int, z: int)
    requires Sortable(less, rank, xs) && 1 <= x <= i < j < z < |xs| && Merging(less, xs, x, i, j, z)
    requires !less(xs[j], xs[i])
    ensures Merging(less, xs, x, i + 1, j, z)
  {
    forall q | j <= q < z
      ensures !less(xs[q], xs[i])
    {
      assert q > j ==> !less(xs[q], xs[j]);
    }
  }

  /** The head of the second run is smaller than all that is left of the first. */
  lemma MergeSmaller(less: Less, rank: map<Elem, int>, xs: seq<Elem>, x: int, i: int, j: int, z: int)
    requires Sortable(less, rank, xs) && 1 <= x <= i < j < z < |xs| && Merging(less, xs, x, i, j, z)
    requires less(xs[j], xs[i])
    ensures forall p :: i <= p < j ==> less(xs[j], xs[p]) && !less(xs[p], xs[j])
  {
    forall p | i <= p < j
      ensures less(xs[j], xs[p]) && !less(xs[p], xs[j])
    {
      assert p > i ==> !less(xs[p], xs[i]);
    }
  }

  /** Moving it in front of them keeps the merge going ... */
  lemma MergeMoves(less: Less, rank: map<Elem, int>, xs: seq<Elem>, x: int, i: int, j: int, z: int)
    requires Sortable(less, rank, xs) && 1 <= x <= i < j < z < |xs| && Merging(less, xs, x, i, j, z)
    requires less(xs[j], xs[i])
    ensures |Moved(xs, i, j, j + 1)| == |xs| && Merging(less, Moved(xs, i, j, j + 1), x, i + 1, j + 1, z)
  {
    var ys := Moved(xs, i, j, j + 1);
    MergeSmaller(less, rank, xs, x, i, j, z);
    forall p | 0 <= p < |xs|
      ensures |ys| == |xs| && ys[p] == xs[Source(i, j, j + 1, p)]
    {
      MovedAt(xs, i, j, j + 1, p);
    }
  }

  /** ... and moves it past no element equal to it. */
  lemma MergeStable(less: Less, rank: map<Elem, int>, xs: seq<Elem>, x: int, i: int, j: int, z: int)
    requires Sortable(less, rank, xs) && 1 <= x <= i < j < z < |xs| && Merging(less, xs, x, i, j, z)
    requires less(xs[j], xs[i])
    ensures Sortable(less, rank, Moved(xs, i, j, j + 1))
  {
    var ys := Moved(xs, i, j, j + 1);
    MergeSmaller(less, rank, xs, x, i, j, z);
    forall p | 0 <= p < |xs|
      ensures |ys| == |xs| && ys[p] == xs[Source(i, j, j + 1, p)]
    {
      MovedAt(xs, i, j, j + 1, p);
    }
    assert Within(ys, 1, |ys| - 1, rank.Keys);
    forall p, q | 1 <= p < q < |ys| - 1 && !less(ys[p], ys[q]) && !less(ys[q], ys[p])
      ensures rank[ys[p]] < rank[ys[q]]
    {
      var a, b := Source(i, j, j + 1, p), Source(i, j, j + 1, q);
      assert a < b || (a == j && i <= b < j);
    }
  }

  /** Everything inplace_merge() keeps, `was` being the list it started from. */
  ghost predicate MergeState(less: Less, rank: map<Elem, int>, was: seq<Elem>, xs: seq<Elem>, x: int, i: int, j: int, z: int) {
    && |xs| == |was| && 1 <= x <= i <= j <= z < |xs|
    && multiset(xs) == multiset(was) && xs[..x] == was[..x] && xs[z..] == was[z..]
    && Sortable(less, rank, xs) && Merging(less, xs, x, i, j, z)
  }

  lemma MergeStateSteps(less: Less, rank: map<Elem, int>, was: seq<Elem>, xs: seq<Elem>, x: int, i: int, j: int, z: int)
    requires MergeState(less, rank, was, xs, x, i, j, z) && i < j < z && !less(xs[j], xs[i])
    ensures MergeState(less, rank, was, xs, x, i + 1, j, z)
  {
    MergeSteps(less, rank, xs, x, i, j, z);
  }

  lemma MergeStateMoves(less: Less, rank: map<Elem, int>, was: seq<Elem>, xs: seq<Elem>, x: int, i: int, j: int, z: int)
    requires MergeState(less, rank, was, xs, x, i, j, z) && i < j < z && less(xs[j], xs[i])
    ensures var ys := Moved(xs, i, j, j + 1);
            MergeState(less, rank, was, ys, x, i + 1, j + 1, z) && ys[i + 1] == xs[i] && ys[j + 1] == xs[j + 1] && ys[z] == xs[z]
  {
    MergeMoves(less, rank, xs, x, i, j, z);
    MergeStable(less, rank, xs, x, i, j, z);
    hide Moved, Sortable, Merging;
    MovedFrame(xs, i, j, x, z);
  }

  lemma MergeStarts(less: Less, rank: map<Elem, int>, xs: seq<Elem>, x: int, y: int, z: int)
    requires Sortable(less, rank, xs) && 1 <= x < y < z < |xs| && Sorted(less, xs, x, y) && Sorted(less, xs, y, z)
    ensures MergeState(less, rank, xs, xs, x, x, y, z)
  {
  }

  lemma SameMembers<T>(xs: seq<T>, ys: seq<T>)
    requires multiset(xs) == multiset(ys)
    ensures forall p :: 0 <= p < |xs| ==> xs[p] in ys
  {
    forall p | 0 <= p < |xs|
      ensures xs[p] in ys
    {
      assert xs[p] in multiset(xs);
    }
  }

  lemma MergeStateBounds(less: Less, rank: map<Elem, int>, was: seq<Elem>, xs: seq<Elem>, x: int, i: int, j: int, z: int)
    requires MergeState(less, rank, was, xs, x, i, j, z)
    ensures |xs| == |was| && 1 <= x <= i <= j <= z < |xs| && multiset(xs) == multiset(was)
  {
  }

  lemma MergeStateDone(less: Less, rank: map<Elem, int>, was: seq<Elem>, xs: seq<Elem>, x: int, i: int, j: int, z: int)
    requires MergeState(less, rank, was, xs, x, i, j, z) && (i == j || j == z)
    ensures Sortable(less, rank, xs) && Sorted(less, xs, x, z)
    ensures |xs| == |was| && multiset(xs) == multiset(was) && xs[..x] == was[..x] && xs[z..] == was[z..]
  {
  }

  // ---- A pass over the list -------------------------------------------------------------

  /** From `from` on there is no descent before `to`, and one there unless `to` ends the list. */
  ghost predicate RunAt(less: Less, xs: seq<Elem>, from: int, to: int) {
    && 0 < from < to < |xs|
    && (forall p :: from <= p < to - 1 ==> !less(xs[p + 1], xs[p]))
    && (to < |xs| - 1 ==> less(xs[to], xs[to - 1]))
  }

  /** The state of the inner loop of list_sort() with a0 at x, after cnt output runs. */
  ghost predicate PassState(less: Less, rank: map<Elem, int>, was: seq<Elem>, xs: seq<Elem>, x: int, cnt: nat) {
    && |xs| == |was| && 1 <= x < |xs| && multiset(xs) == multiset(was) && Sortable(less, rank, xs)
    && Runs(less, xs[1..x]) <= cnt
    && Runs(less, xs[x..|xs| - 1]) + 2 * cnt == Runs(less, was[1..|was| - 1])
  }

  lemma RunCounts(less: Less, xs: seq<Elem>, from: int, to: int)
    requires RunAt(less, xs, from, to)
    ensures Runs(less, xs[from..|xs| - 1]) == 1 + Runs(less, xs[to..|xs| - 1])
  {
    var ys, m := xs[from..|xs| - 1], to - from;
    assert ys[m..] == xs[to..|xs| - 1];
    forall p | 0 <= p < m - 1
      ensures !less(ys[p + 1], ys[p])
    {
      assert !less(xs[from + p + 1], xs[from + p]);
    }
    RunsSplit(less, ys, m);
  }

  lemma RunsAppended(less: Less, ys: seq<Elem>, x: int, z: int)
    requires 1 <= x <= z <= |ys| && Sorted(less, ys, x, z)
    ensures Runs(less, ys[1..z]) <= Runs(less, ys[1..x]) + 1
  {
    assert ys[1..z] == ys[1..x] + ys[x..z];
    RunsConcat(less, ys[1..x], ys[x..z]);
    RunsOfSorted(less, ys[x..z]);
  }

  lemma PassAdvances(less: Less, rank: map<Elem, int>, was: seq<Elem>, xs: seq<Elem>, ys: seq<Elem>, x: int, y: int, z: int, cnt: nat)
    requires PassState(less, rank, was, xs, x, cnt) && RunAt(less, xs, x, y) && RunAt(less, xs, y, z)
    requires |ys| == |xs| && multiset(ys) == multiset(xs) && Sortable(less, rank, ys)
    requires ys[..x] == xs[..x] && ys[z..] == xs[z..] && Sorted(less, ys, x, z)
    ensures PassState(less, rank, was, ys, z, cnt + 1) && multiset(ys) == multiset(was)
  {
    hide Sortable, Sorted, Runs;
    RunCounts(less, xs, x, y);
    RunCounts(less, xs, y, z);
    assert ys[1..x] == ys[..x][1..] == xs[1..x];
    assert ys[z..|ys| - 1] == ys[z..][..|ys| - 1 - z] == xs[z..|xs| - 1];
    RunsAppended(less, ys, x, z);
  }

  /** The pass ends with the list used up, or with one run left over. */
  lemma PassEnds(less: Less, rank: map<Elem, int>, was: seq<Elem>, xs: seq<Elem>, x: int, cnt: nat)
    requires PassState(less, rank, was, xs, x, cnt)
    ensures x == |xs| - 1 ==>
              && cnt == (Runs(less, was[1..|was| - 1]) + 1) / 2 && Runs(less, xs[1..|xs| - 1]) <= cnt
    ensures RunAt(less, xs, x, |xs| - 1) ==>
              && cnt + 1 == (Runs(less, was[1..|was| - 1]) + 1) / 2 && Runs(less, xs[1..|xs| - 1]) <= cnt + 1
  {
    if x == |xs| - 1 {
      assert xs[x..|xs| - 1] == [];
    } else if RunAt(less, xs, x, |xs| - 1) {
      RunCounts(less, xs, x, |xs| - 1);
      assert xs[|xs| - 1..|xs| - 1] == [];
      assert xs[1..|xs| - 1] == xs[1..x] + xs[x..|xs| - 1];
      RunsConcat(less, xs[1..x], xs[x..|xs| - 1]);
    }
  }

  lemma PassSortable(less: Less, rank: map<Elem, int>, was: seq<Elem>, xs: seq<Elem>, x: int, cnt: nat)
    requires PassState(less, rank, was, xs, x, cnt)
    ensures Sortable(less, rank, xs) && |xs| == |was| && multiset(xs) == multiset(was)
  {
  }

  lemma PassStarts(less: Less, rank: map<Elem, int>, xs: seq<Elem>)
    requires Sortable(less, rank, xs)
    ensures |xs| >= 2 && PassState(less, rank, xs, xs, 1, 0)
  {
    assert xs[1..1] == [];
  }

  lemma RunsAdvance(less: Less, xs: seq<Elem>, x: int, y: int, z: int)
    requires RunAt(less, xs, x, y) && RunAt(less, xs, y, z)
    ensures 1 <= x < y < z < |xs|
  {
  }

  /** The two runs found in a pass are in order. */
  lemma RunSorted(less: Less, rank: map<Elem, int>, xs: seq<Elem>, from: int, to: int)
    requires Sortable(less, rank, xs) && RunAt(less, xs, from, to)
    ensures Sorted(less, xs, from, to)
  {
    NoDescentSorted(less, xs, from, to, rank.Keys);
  }

  // ---- Stable sorting -------------------------------------------------------------------

  ghost function Members(xs: seq<Elem>): set<Elem> {
    set e | e in xs
  }

  /** Where each element stands. */
  ghost function Ranks(xs: seq<Elem>): map<Elem, int>
    requires Distinct(xs)
  {
    map p | 0 <= p < |xs| :: xs[p] := p
  }

  ghost predicate InOrder(less: Less, rank: map<Elem, int>, ys: seq<Elem>) {
    Sorted(less, ys, 0, |ys|) && Within(ys, 0, |ys|, rank.Keys) && Stable(less, rank, ys, 0, |ys|)
  }

  /** ys is xs in order, elements that compare equal staying in the order they had. */
  ghost predicate StableSort(less: Less, xs: seq<Elem>, ys: seq<Elem>) {
    Distinct(xs) && multiset(ys) == multiset(xs) && InOrder(less, Ranks(xs), ys)
  }

  /** There is only one: the contract of Sort determines the list. */
  lemma StableSortUnique(less: Less, xs: seq<Elem>, ys: seq<Elem>, zs: seq<Elem>)
    requires StableSort(less, xs, ys) && StableSort(less, xs, zs)
    ensures ys == zs
  {
    SortedUnique(less, Ranks(xs), ys, zs);
  }

  lemma TailMultiset<T>(xs: seq<T>, ys: seq<T>)
    requires xs != [] && ys != [] && multiset(xs) == multiset(ys) && xs[0] == ys[0]
    ensures multiset(xs[1..]) == multiset(ys[1..])
  {
    assert xs == [xs[0]] + xs[1..] && ys == [ys[0]] + ys[1..];
    Cancel(xs[0], multiset(xs[1..]), multiset(ys[1..]));
  }

  lemma Cancel<T>(x: T, a: multiset<T>, b: multiset<T>)
    requires multiset{x} + a == multiset{x} + b
    ensures a == b
  {
    assert a == (multiset{x} + a) - multiset{x};
    assert b == (multiset{x} + b) - multiset{x};
  }

  /** Taking away equal first and last elements. */
  lemma InnerMultiset<T>(xs: seq<T>, ys: seq<T>)
    requires |xs| >= 2 && |ys| >= 2 && multiset(xs) == multiset(ys)
    requires xs[0] == ys[0] && xs[|xs| - 1] == ys[|ys| - 1]
    ensures multiset(xs[1..|xs| - 1]) == multiset(ys[1..|ys| - 1])
  {
    TailMultiset(xs, ys);
    var u, v, e := xs[1..|xs| - 1], ys[1..|ys| - 1], xs[|xs| - 1];
    assert xs[1..] == u + [e] && ys[1..] == v + [e];
    assert multiset(u + [e]) == multiset{e} + multiset(u) && multiset(v + [e]) == multiset{e} + multiset(v);
    Cancel(e, multiset(u), multiset(v));
  }

  lemma BeforeAll(less: Less, rank: map<Elem, int>, ys: seq<Elem>, e: Elem)
    requires e in ys && InOrder(less, rank, ys)
    ensures Within(ys, 0, |ys|, rank.Keys)
    ensures ys[0] == e || (!less(e, ys[0]) && (less(ys[0], e) || rank[ys[0]] < rank[e]))
  {
    var p :| 0 <= p < |ys| && ys[p] == e;
  }

  lemma InOrderTail(less: Less, rank: map<Elem, int>, ys: seq<Elem>)
    requires ys != [] && InOrder(less, rank, ys)
    ensures InOrder(less, rank, ys[1..])
  {
  }

  /** The first element is determined. */
  lemma SameFirst(less: Less, rank: map<Elem, int>, ys: seq<Elem>, zs: seq<Elem>)
    requires ys != [] && zs != [] && ys[0] in zs && zs[0] in ys
    requires InOrder(less, rank, ys) && InOrder(less, rank, zs)
    ensures ys[0] == zs[0]
  {
    BeforeAll(less, rank, ys, zs[0]);
    BeforeAll(less, rank, zs, ys[0]);
  }

  lemma {:induction false} SortedUnique(less: Less, rank: map<Elem, int>, ys: seq<Elem>, zs: seq<Elem>)
    requires multiset(ys) == multiset(zs)
    requires InOrder(less, rank, ys) && InOrder(less, rank, zs)
    ensures ys == zs
    decreases |ys|
  {
    hide InOrder;
    SameMembers(ys, zs);
    SameMembers(zs, ys);
    if ys == [] || zs == [] {
      assert |ys| == |multiset(ys)| && |zs| == |multiset(zs)|;
    } else {
      SameFirst(less, rank, ys, zs);
      TailMultiset(ys, zs);
      InOrderTail(less, rank, ys);
      InOrderTail(less, rank, zs);
      assert ys == [ys[0]] + ys[1..] && zs == [zs[0]] + zs[1..];
      SortedUnique(less, rank, ys[1..], zs[1..]);
    }
  }

  /** The list as it stands is arranged stably with regard to itself. */
  lemma SortStarts(less: Less, nodes: seq<Elem>)
    requires |nodes| >= 2 && Distinct(nodes)
    requires OrderOn(less, Members(nodes[1..|nodes| - 1]))
    ensures Distinct(nodes[1..|nodes| - 1]) && Sortable(less, Ranks(nodes[1..|nodes| - 1]), nodes)
  {
    var xs := nodes[1..|nodes| - 1];
    var rank := Ranks(xs);
    assert rank.Keys == Members(xs);
    forall p | 1 <= p < |nodes| - 1
      ensures nodes[p] in rank && rank[nodes[p]] == p - 1
    {
      assert nodes[p] == xs[p - 1];
    }
  }

  /** A stable arrangement of at most one run is the stable sort. */
  lemma SortEnds(less: Less, xs: seq<Elem>, nodes: seq<Elem>)
    requires Distinct(xs) && Sortable(less, Ranks(xs), nodes)
    requires multiset(nodes[1..|nodes| - 1]) == multiset(xs) && Runs(less, nodes[1..|nodes| - 1]) <= 1
    ensures StableSort(less, xs, nodes[1..|nodes| - 1])
  {
    var ys := nodes[1..|nodes| - 1];
    SingleRunSorted(less, ys, Ranks(xs).Keys);
  }

  // ---- The chain of nodes ---------------------------------------------------------------

  ghost predicate Linked(a: Elem, b: Elem)
    reads a, b
  {
    a.next == b && b.prev == a
  }

  /** The nodes, sentinels included, are chained both ways and end in null. */
  ghost predicate Chain(nodes: seq<Elem>)
    reads nodes
  {
    && |nodes| >= 2 && Distinct(nodes)
    && nodes[0].prev == null && nodes[|nodes| - 1].next == null
    && forall p :: 0 <= p < |nodes| - 1 ==> Linked(nodes[p], nodes[p + 1])
  }

  lemma NextInChain(nodes: seq<Elem>, p: nat)
    requires Chain(nodes) && p < |nodes| - 1
    ensures nodes[p].next == nodes[p + 1]
  {
    assert Linked(nodes[p], nodes[p + 1]);
  }

  lemma SamePlace(nodes: seq<Elem>, p: nat, q: nat)
    requires Chain(nodes) && p < |nodes| && q < |nodes|
    ensures nodes[p] == nodes[q] <==> p == q
  {
  }

  /** Rewiring the three seams of a move gives the chain of the moved sequence. */
  lemma ChainAfterMove(xs: seq<Elem>, k: nat, i: nat, j: nat)
    requires 1 <= k < i < j < |xs| && Distinct(xs)
    requires xs[0].prev == null && xs[|xs| - 1].next == null
    requires forall p :: 0 <= p < |xs| - 1 && p != k - 1 && p != i - 1 && p != j - 1 ==> Linked(xs[p], xs[p + 1])
    requires Linked(xs[k - 1], xs[i]) && Linked(xs[j - 1], xs[k]) && Linked(xs[i - 1], xs[j])
    ensures Chain(Moved(xs, k, i, j))
  {
    var ys := Moved(xs, k, i, j);
    MovedDistinct(xs, k, i, j);
    MovedAt(xs, k, i, j, 0);
    MovedAt(xs, k, i, j, |xs| - 1);
    forall p | 0 <= p < |ys| - 1
      ensures Linked(ys[p], ys[p + 1])
    {
      MovedAt(xs, k, i, j, p);
      MovedAt(xs, k, i, j, p + 1);
    }
  }

  /** What follows xs[p], and what precedes it, when xs[i], ..., xs[j - 1] are taken out of the chain
      xs and put back before xs[k]. */
  ghost function NextAt(xs: seq<Elem>, k: nat, i: nat, j: nat, p: nat): Elem?
    requires 1 <= k < |xs| && 1 <= i < j < |xs| && p < |xs|
  {
    if p == j - 1 then xs[k] else if p == k - 1 || (p == i - 1 && j == k) then xs[i]
    else if p == i - 1 then xs[j] else if p + 1 < |xs| then xs[p + 1] else null
  }

  ghost function PrevAt(xs: seq<Elem>, k: nat, i: nat, j: nat, p: nat): Elem?
    requires 1 <= k < |xs| && 1 <= i < j < |xs| && p < |xs|
  {
    if p == k then xs[j - 1] else if p == i && k != j then xs[k - 1]
    else if p == j then xs[i - 1] else if p > 0 then xs[p - 1] else null
  }

  ghost predicate Rewired(xs: seq<Elem>, k: nat, i: nat, j: nat)
    requires 1 <= k < |xs| && 1 <= i < j < |xs|
    reads xs
  {
    forall p :: 0 <= p < |xs| ==> xs[p].next == NextAt(xs, k, i, j, p) && xs[p].prev == PrevAt(xs, k, i, j, p)
  }

  lemma RewiredLink(xs: seq<Elem>, k: nat, i: nat, j: nat, p: nat, q: nat)
    requires 1 <= k < |xs| && 1 <= i < j < |xs| && Rewired(xs, k, i, j) && p < |xs| && q < |xs|
    requires NextAt(xs, k, i, j, p) == xs[q] && PrevAt(xs, k, i, j, q) == xs[p]
    ensures Linked(xs[p], xs[q])
  {
  }

  lemma RewiredBack(xs: seq<Elem>, k: nat, i: nat, j: nat)
    requires 1 <= k < i < j < |xs| && Distinct(xs) && Rewired(xs, k, i, j)
    ensures Chain(Moved(xs, k, i, j))
  {
    hide Rewired, Moved, Chain, Distinct, Linked;
    RewiredEnds(xs, k, i, j);
    forall p | 0 <= p < |xs| - 1 && p != k - 1 && p != i - 1 && p != j - 1
      ensures Linked(xs[p], xs[p + 1])
    {
      RewiredLink(xs, k, i, j, p, p + 1);
    }
    RewiredLink(xs, k, i, j, k - 1, i);
    RewiredLink(xs, k, i, j, j - 1, k);
    RewiredLink(xs, k, i, j, i - 1, j);
    ChainAfterMove(xs, k, i, j);
  }

  lemma RewiredOn(xs: seq<Elem>, k: nat, i: nat, j: nat)
    requires 1 <= i < j <= k < |xs| && Distinct(xs) && Rewired(xs, k, i, j)
    ensures Chain(Moved(xs, i, j, k))
  {
    hide Rewired, Moved, Chain, Distinct, Linked;
    RewiredEnds(xs, k, i, j);
    forall p | 0 <= p < |xs| - 1 && (j == k || (p != k - 1 && p != i - 1 && p != j - 1))
      ensures Linked(xs[p], xs[p + 1])
    {
      RewiredLink(xs, k, i, j, p, p + 1);
    }
    if j < k {
      RewiredLink(xs, k, i, j, i - 1, j);
      RewiredLink(xs, k, i, j, k - 1, i);
      RewiredLink(xs, k, i, j, j - 1, k);
      ChainAfterMove(xs, i, j, k);
    } else {
      MovedNone(xs, i, j, k);
      ChainFrom(xs);
    }
  }

  lemma ChainFrom(xs: seq<Elem>)
    requires |xs| >= 2 && Distinct(xs) && xs[0].prev == null && xs[|xs| - 1].next == null
    requires forall p :: 0 <= p < |xs| - 1 ==> Linked(xs[p], xs[p + 1])
    ensures Chain(xs)
  {
  }

  lemma RewiredEnds(xs: seq<Elem>, k: nat, i: nat, j: nat)
    requires 1 <= k < |xs| && 1 <= i < j < |xs| && (k < i || j <= k) && Rewired(xs, k, i, j)
    ensures xs[0].prev == null && xs[|xs| - 1].next == null
  {
    assert xs[0].prev == PrevAt(xs, k, i, j, 0) && xs[|xs| - 1].next == NextAt(xs, k, i, j, |xs| - 1);
  }

  lemma MovedNone(xs: seq<Elem>, k: nat, i: nat, j: nat)
    requires k <= i <= j <= |xs| && (k == i || i == j)
    ensures Moved(xs, k, i, j) == xs
  {
  }

  lemma ChainDistinct(xs: seq<Elem>)
    requires Chain(xs)
    ensures Distinct(xs)
  {
  }

  lemma MovedEnds(xs: seq<Elem>, k: nat, i: nat, j: nat)
    requires 1 <= k <= i <= j < |xs|
    ensures var ys := Moved(xs, k, i, j); |ys| == |xs| && ys[0] == xs[0] && ys[|ys| - 1] == xs[|xs| - 1]
  {
    MovedAt(xs, k, i, j, 0);
    MovedAt(xs, k, i, j, |xs| - 1);
  }

  class List {
    const head: Elem
    const tail: Elem
    ghost var nodes: seq<Elem>  // head, elements, tail

    ghost predicate Valid()
      reads this, nodes
    {
      Chain(nodes) && nodes[0] == head && nodes[|nodes| - 1] == tail
    }

    ghost function Elems(): seq<Elem>
      requires Valid()
      reads this, nodes
    {
      nodes[1..|nodes| - 1]
    }

    /** list_init() */
    constructor ()
      ensures Valid() && fresh(head) && fresh(tail) && Elems() == []
    {
      head := new Elem();
      tail := new Elem();
      new;
      head.next := tail;
      tail.prev := head;
      nodes := [head, tail];
      assert Linked(nodes[0], nodes[1]);
    }

    /** list_splice() within one list: takes first, ..., the one before last, and puts them
        just before `before`, which is not among them.  k, i and j are the places of before,
        first and last. */
    method Splice(before: Elem, first: Elem, last: Elem, ghost k: nat, ghost i: nat, ghost j: nat)
      requires Valid() && 1 <= k < |nodes| && 1 <= i <= j < |nodes| && (k < i || j <= k)
      requires nodes[k] == before && nodes[i] == first && nodes[j] == last
      modifies this`nodes, nodes
      ensures Valid()
      ensures nodes == if k < i then Moved(old(nodes), k, i, j) else Moved(old(nodes), i, j, k)
    {
      ghost var was := nodes;
      SamePlace(nodes, i, j);
      if first == last {
        MovedNone(was, if k < i then k else i, i, if k < i then i else k);
        return;
      }
      hide Chain, Moved, Rewired;
      assert Distinct(was) by {
        ChainDistinct(was);
      }
      Rewire(before, first, last, k, i, j);
      if k < i {
        nodes := Moved(was, k, i, j);
        RewiredBack(was, k, i, j);
        MovedEnds(was, k, i, j);
      } else {
        nodes := Moved(was, i, j, k);
        RewiredOn(was, k, i, j);
        MovedEnds(was, i, j, k);
      }
    }

    /** The six assignments of list_splice(); first, ..., the one before last are not empty. */
    method Rewire(before: Elem, first: Elem, last: Elem, ghost k: nat, ghost i: nat, ghost j: nat)
      requires Valid() && 1 <= k < |nodes| && 1 <= i < j < |nodes| && (k < i || j <= k)
      requires nodes[k] == before && nodes[i] == first && nodes[j] == last
      modifies nodes
      ensures Rewired(nodes, k, i, j)
    {
      assert Linked(nodes[j - 1], nodes[j]) && Linked(nodes[i - 1], nodes[i]) && Linked(nodes[k - 1], nodes[k]);
      var end := last.prev;
      first.prev.next := end.next;
      end.next.prev := first.prev;
      first.prev := before.prev;
      end.next := before;
      before.prev.next := first;
      before.prev := end;
    }

    /** find_end_of_run(), for the run that starts at a */
    method FindEndOfRun(a: Elem, less: Less, ghost x: nat) returns (e: Elem, ghost y: nat)
      requires Valid() && 1 <= x < |nodes| - 1 && nodes[x] == a
      ensures y < |nodes| && nodes[y] == e && RunAt(less, nodes, x, y) && (e == tail <==> y == |nodes| - 1)
    {
      assert Linked(nodes[x], nodes[x + 1]);
      e, y := a.next, x + 1;
      while e != tail && !less(e, e.prev)
        invariant x < y < |nodes| && nodes[y] == e
        invariant e.prev == nodes[y - 1]
        invariant forall p :: x <= p < y - 1 ==> !less(nodes[p + 1], nodes[p])
        decreases |nodes| - y
      {
        assert Linked(nodes[y], nodes[y + 1]);
        e, y := e.next, y + 1;
      }
    }

    /** inplace_merge() of the runs x, ..., y - 1 and y, ..., z - 1 */
    method InplaceMerge(start: Elem, middle: Elem, b1: Elem, less: Less,
                        ghost x: nat, ghost y: nat, ghost z: nat, ghost rank: map<Elem, int>)
      requires Valid() && Sortable(less, rank, nodes) && 1 <= x < y < z < |nodes|
      requires nodes[x] == start && nodes[y] == middle && nodes[z] == b1
      requires Sorted(less, nodes, x, y) && Sorted(less, nodes, y, z)
      modifies this`nodes, nodes
      ensures Valid() && Sortable(less, rank, nodes) && multiset(nodes) == multiset(old(nodes))
      ensures |nodes| == |old(nodes)| && nodes[..x] == old(nodes)[..x] && nodes[z..] == old(nodes)[z..]
      ensures Sorted(less, nodes, x, z)
    {
      hide Sortable, Merging, MergeState, Moved, Sorted, Chain;
      ghost var was := nodes;
      var a0, a1b0 := start, middle;
      ghost var i, j := x, y;
      MergeStarts(less, rank, nodes, x, y, z);
      while a0 != a1b0 && a1b0 != b1
        invariant Valid() && MergeState(less, rank, was, nodes, x, i, j, z) && i <= j <= z < |nodes|
        invariant nodes[i] == a0 && nodes[j] == a1b0 && nodes[z] == b1
        invariant forall p :: 0 <= p < |nodes| ==> nodes[p] in old(nodes)
        decreases 2 * z - i - j
      {
        MergeStateBounds(less, rank, was, nodes, x, i, j, z);
        NextInChain(nodes, i);
        NextInChain(nodes, j);
        SamePlace(nodes, i, j);
        SamePlace(nodes, j, z);
        if !less(a1b0, a0) {
          MergeStateSteps(less, rank, was, nodes, x, i, j, z);
          a0, i := a0.next, i + 1;
        } else {
          MergeStateMoves(less, rank, was, nodes, x, i, j, z);
          var moving := a1b0;
          a1b0 := a1b0.next;
          SpliceOne(a0, moving, a1b0, i, j);
          i, j := i + 1, j + 1;
          MergeStateBounds(less, rank, was, nodes, x, i, j, z);
          SameMembers(nodes, was);
        }
      }
      SamePlace(nodes, i, j);
      SamePlace(nodes, j, z);
      MergeStateDone(less, rank, was, nodes, x, i, j, z);
    }

    /** list_splice() of a single element */
    method SpliceOne(before: Elem, first: Elem, last: Elem, ghost k: nat, ghost i: nat)
      requires Valid() && 1 <= k < i < |nodes| - 1
      requires nodes[k] == before && nodes[i] == first && nodes[i + 1] == last
      modifies this`nodes, nodes
      ensures Valid() && nodes == Moved(old(nodes), k, i, i + 1)
    {
      hide Chain, Moved;
      Splice(before, first, last, k, i, i + 1);
    }

    /** One pass of list_sort(): merges the runs two by two and returns how many are output. */
    method Pass(less: Less, ghost rank: map<Elem, int>) returns (cnt: nat)
      requires Valid() && Sortable(less, rank, nodes)
      modifies this`nodes, nodes
      ensures Valid() && Sortable(less, rank, nodes) && multiset(nodes) == multiset(old(nodes))
      ensures cnt == (Runs(less, old(Elems())) + 1) / 2 && Runs(less, Elems()) <= cnt
    {
      hide Sortable, Sorted, Runs, RunAt, PassState, Chain;
      ghost var was := nodes;
      PassStarts(less, rank, nodes);
      NextInChain(nodes, 0);
      SamePlace(nodes, 1, |nodes| - 1);
      var a0 := head.next;
      ghost var x := 1;
      cnt := 0;
      while a0 != tail
        invariant Valid() && PassState(less, rank, was, nodes, x, cnt) && 1 <= x < |nodes|
        invariant nodes[x] == a0 && (a0 == tail <==> x == |nodes| - 1)
        invariant forall p :: 0 <= p < |nodes| ==> nodes[p] in old(nodes)
        decreases |nodes| - x
      {
        ghost var y, z;
        var a1b0, b1;
        a1b0, y := FindEndOfRun(a0, less, x);
        if a1b0 == tail {
          PassSortable(less, rank, was, nodes, x, cnt);
          PassEnds(less, rank, was, nodes, x, cnt);
          cnt := cnt + 1;
          return;
        }
        b1, z := FindEndOfRun(a1b0, less, y);
        PassSortable(less, rank, was, nodes, x, cnt);
        RunSorted(less, rank, nodes, x, y);
        RunSorted(less, rank, nodes, y, z);
        RunsAdvance(less, nodes, x, y, z);
        ghost var before := nodes;
        InplaceMerge(a0, a1b0, b1, less, x, y, z, rank);
        PassAdvances(less, rank, was, before, nodes, x, y, z, cnt);
        SameMembers(nodes, was);
        assert nodes[z] == nodes[z..][0] == before[z];
        cnt, a0, x := cnt + 1, b1, z;
      }
      PassSortable(less, rank, was, nodes, x, cnt);
      PassEnds(less, rank, was, nodes, x, cnt);
    }

    /** list_sort() */
    method Sort(less: Less)
      requires Valid() && OrderOn(less, Members(Elems()))
      modifies this`nodes, nodes
      ensures Valid() && StableSort(less, old(Elems()), Elems())
    {
      hide Sortable, Runs, Ranks, StableSort;
      ghost var was := nodes;
      SortStarts(less, nodes);
      ghost var rank := Ranks(Elems());
      var cnt := Pass(less, rank);
      SameMembers(nodes, was);
      while cnt > 1
        invariant Valid() && Sortable(less, rank, nodes) && multiset(nodes) == multiset(was)
        invariant Runs(less, Elems()) <= cnt
        invariant forall p :: 0 <= p < |nodes| ==> nodes[p] in old(nodes)
      {
        cnt := Pass(less, rank);
        SameMembers(nodes, was);
      }
      InnerMultiset(was, nodes);
      SortEnds(less, was[1..|was| - 1], nodes);
    }
  }
}
