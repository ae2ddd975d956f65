/** Definitions shared by the models. */
module Common {

  datatype Option<+T> = None | Some(value: T)

  // ---- Machine words and system constants --------------------------------------------------

  const UINT_RANGE: nat := 0x1_0000_0000 // an unsigned int and a size_t have 32 bits

  const PRI_MIN: int := 0
  const PRI_MAX: int := 63

  const SECTOR_SIZE: nat := 512 // BLOCK_SECTOR_SIZE

  type Byte = b: int | 0 <= b < 256

  /** The conversion to a 32-bit int. */
  function Int32(n: int): int {
    (n + 0x8000_0000) % 0x1_0000_0000 - 0x8000_0000
  }

  function Pow2(k: nat): (p: nat)
    ensures p >= 1
  {
    if k == 0 then 1 else 2 * Pow2(k - 1)
  }

  lemma MulLe(a: int, b: int, c: int)
    ensures a <= b && 0 <= c ==> a * c <= b * c
  {
  }

  // ---- Lists -------------------------------------------------------------------------------

  /** No element occurs twice. */
  ghost predicate Distinct<T>(xs: seq<T>) {
    forall i, j :: 0 <= i < j < |xs| ==> xs[i] != xs[j]
  }

  /** The same, counted: what moves elements around keeps it. */
  lemma {:induction false} DistinctByCount<T(!new)>(xs: seq<T>)
    ensures Distinct(xs) <==> forall x :: multiset(xs)[x] <= 1
    decreases |xs|
  {
    if xs != [] {
      var h, rest := xs[0], xs[1..];
      assert xs == [h] + rest;
      DistinctByCount(rest);
      assert h in rest <==> multiset(rest)[h] > 0;
      DistinctHead(xs);
      assert multiset(xs)[h] == multiset(rest)[h] + 1;
      assert forall x :: x != h ==> multiset(xs)[x] == multiset(rest)[x];
    }
  }

  lemma DistinctHead<T>(xs: seq<T>)
    requires xs != []
    ensures Distinct(xs) <==> Distinct(xs[1..]) && xs[0] !in xs[1..]
  {
    var rest := xs[1..];
    assert forall i :: 0 < i < |xs| ==> xs[i] == rest[i - 1];
    if Distinct(rest) && xs[0] !in rest {
      forall i, j | 0 <= i < j < |xs|
        ensures xs[i] != xs[j]
      {
        assert xs[j] == rest[j - 1] && rest[j - 1] in rest;
      }
    }
  }

  /** What list_remove() does to a list that holds x once. */
  function Without<T(==)>(xs: seq<T>, x: T): seq<T> {
    if xs == [] then [] else if xs[0] == x then xs[1..] else [xs[0]] + Without(xs[1..], x)
  }

  /** list_remove() of the element that stands for x, found on the list. */
  method ListRemove<T(==)>(list: seq<T>, x: T) returns (r: seq<T>)
    ensures r == Without(list, x)
  {
    var p := 0;
    while p < |list| && list[p] != x
      invariant p <= |list| && Without(list, x) == list[..p] + Without(list[p..], x)
    {
      assert list[..p + 1] == list[..p] + [list[p]];
      p := p + 1;
    }
    r := if p < |list| then list[..p] + list[p + 1..] else list;
  }

  /** Of a list without repetitions, everything but x is left. */
  lemma {:induction false} WithoutIs<T>(list: seq<T>, x: T)
    requires Distinct(list)
    ensures Distinct(Without(list, x)) && forall y :: y in Without(list, x) <==> y in list && y != x
    decreases |list|
  {
    if list != [] {
      var rest := list[1..];
      WithoutIs(rest, x);
      assert list == [list[0]] + rest;
      assert list[0] !in rest;
      assert forall y :: y in list <==> y == list[0] || y in rest;
    }
  }
}
