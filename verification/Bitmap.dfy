/** The packed bitmap of lib/kernel/bitmap.c, against the sequence of its bits. */
module Bitmaps {
  import opened Common

  const ELEM_BITS := 32

  // ---- Bits of a word ---------------------------------------------------------------------

  /** bit_mask(): one, shifted left k times. */
  function Mask(k: nat): bv32 {
    if k == 0 then 1 else Mask(k - 1) << 1
  }

  predicate On(w: bv32, m: bv32) {
    w & m != 0
  }

  /** The effects of the OR and AND instructions of bitmap_mark() and bitmap_reset(). */
  function Marked(w: bv32, m: bv32): bv32 {
    w | m
  }

  function Cleared(w: bv32, m: bv32): bv32 {
    w & !m
  }

  predicate Apart(a: bv32, b: bv32) {
    a & b == 0
  }

  lemma ShiftApart(a: bv32, b: bv32)
    requires Apart(a, b)
    ensures Apart(a << 1, b << 1)
  {
  }

  lemma OneApart(a: bv32)
    ensures Apart(1, a << 1) && Apart(a << 1, 1)
  {
  }

  lemma {:induction false} MasksApart(j: nat, k: nat)
    requires j != k
    ensures Apart(Mask(j), Mask(k))
    decreases j
  {
    if j == 0 {
      OneApart(Mask(k - 1));
    } else if k == 0 {
      OneApart(Mask(j - 1));
    } else {
      MasksApart(j - 1, k - 1);
      ShiftApart(Mask(j - 1), Mask(k - 1));
    }
  }

  lemma {:induction false} ZeroStays(k: nat, n: nat)
    requires k <= n
    ensures Mask(k) == 0 ==> Mask(n) == 0
    decreases n - k
  {
    if k < n {
      ZeroStays(k + 1, n);
    }
  }

  lemma TopMask()
    ensures Mask(31) == 0x8000_0000
  {
    assert Mask(2) == 0x4 && Mask(4) == 0x10 && Mask(6) == 0x40 && Mask(8) == 0x100;
    assert Mask(10) == 0x400 && Mask(12) == 0x1000 && Mask(14) == 0x4000 && Mask(16) == 0x1_0000;
    assert Mask(18) == 0x4_0000 && Mask(20) == 0x10_0000 && Mask(22) == 0x40_0000 && Mask(24) == 0x100_0000;
    assert Mask(26) == 0x400_0000 && Mask(28) == 0x1000_0000 && Mask(30) == 0x4000_0000;
  }

  lemma MaskNonzero(k: nat)
    requires k < ELEM_BITS
    ensures Mask(k) != 0
  {
    TopMask();
    ZeroStays(k, 31);
  }

  lemma OrOther(w: bv32, a: bv32, b: bv32)
    requires a & b == 0
    ensures (w | a) & b == w & b
  {
  }

  lemma AndNotOther(w: bv32, a: bv32, b: bv32)
    requires Apart(a, b)
    ensures Cleared(w, a) & b == w & b
  {
  }

  lemma SameBit(x: bv32, y: bv32, m: bv32)
    requires x & m == y & m
    ensures On(x, m) == On(y, m)
  {
  }

  lemma OrOwn(w: bv32, a: bv32)
    ensures (w | a) & a == a
  {
  }

  lemma AndNotOwn(w: bv32, a: bv32)
    ensures (w & !a) & a == 0
  {
  }

  lemma MarkedOther(w: bv32, a: bv32, b: bv32)
    requires Apart(a, b)
    ensures On(Marked(w, a), b) == On(w, b)
  {
    OrOther(w, a, b);
  }

  lemma ClearedOther(w: bv32, a: bv32, b: bv32)
    requires Apart(a, b)
    ensures On(Cleared(w, a), b) == On(w, b)
  {
    hide On, Cleared, Apart;
    AndNotOther(w, a, b);
    SameBit(Cleared(w, a), w, b);
  }

  lemma MarkedOwn(w: bv32, a: bv32)
    requires a != 0
    ensures On(Marked(w, a), a)
  {
    OrOwn(w, a);
  }

  lemma ClearedOwn(w: bv32, a: bv32)
    ensures !On(Cleared(w, a), a)
  {
    AndNotOwn(w, a);
  }

  /** Marking bit k sets it, clearing bit k resets it, and the other bits stay. */
  lemma MarkedWord(w: bv32, j: nat, k: nat)
    requires j < ELEM_BITS && k < ELEM_BITS
    ensures On(Marked(w, Mask(k)), Mask(j)) == (j == k || On(w, Mask(j)))
    ensures On(Cleared(w, Mask(k)), Mask(j)) == (j != k && On(w, Mask(j)))
  {
    hide On, Marked, Cleared, Apart, Mask;
    if j == k {
      MaskNonzero(k);
      MarkedOwn(w, Mask(k));
      ClearedOwn(w, Mask(k));
    } else {
      MasksApart(k, j);
      MarkedOther(w, Mask(k), Mask(j));
      ClearedOther(w, Mask(k), Mask(j));
    }
  }

  // ---- Searching ---------------------------------------------------------------------------

  /** The cnt bits from start on are all v. */
  predicate AllAre(s: seq<bool>, start: nat, cnt: nat, v: bool)
    requires start + cnt <= |s|
  {
    forall i :: start <= i < start + cnt ==> s[i] == v
  }

  function FirstFit(s: seq<bool>, start: nat, cnt: nat, v: bool): (r: Option<nat>)
    ensures r.Some? ==> r.value + cnt <= |s|
    decreases |s| - start
  {
    if start + cnt > |s| then None
    else if AllAre(s, start, cnt, v) then Some(start)
    else if start == |s| then None
    else FirstFit(s, start + 1, cnt, v)
  }

  /** The least place at or after start, or that there is none. */
  lemma {:induction false} FirstFitIs(s: seq<bool>, start: nat, cnt: nat, v: bool)
    ensures var r := FirstFit(s, start, cnt, v);
            && (r.Some? ==> start <= r.value && r.value + cnt <= |s| && AllAre(s, r.value, cnt, v))
            && forall i :: start <= i < (if r.Some? then r.value else |s| - cnt + 1) ==> !AllAre(s, i, cnt, v)
    decreases |s| - start
  {
    if start + cnt <= |s| && !AllAre(s, start, cnt, v) && start < |s| {
      FirstFitIs(s, start + 1, cnt, v);
    }
  }

  /** An empty group is found at START itself, not at 0 as the comment on
      bitmap_scan_and_flip() has it. */
  lemma EmptyGroup(s: seq<bool>, start: nat, v: bool)
    requires start <= |s|
    ensures FirstFit(s, start, 0, v) == Some(start)
  {
  }

  function Filled(s: seq<bool>, start: nat, cnt: nat, v: bool): (r: seq<bool>)
    requires start + cnt <= |s|
    ensures |r| == |s| && forall i :: 0 <= i < |s| ==> r[i] == if start <= i < start + cnt then v else s[i]
  {
    s[..start] + seq(cnt, _ => v) + s[start + cnt..]
  }

  class Bitmap {
    const bitCnt: nat
    const bits: array<bv32>

    ghost predicate Valid()
      reads this, bits
    {
      bits.Length == (bitCnt + 31) / ELEM_BITS
    }

    ghost function Contents(): (s: seq<bool>)
      requires Valid()
      reads this, bits
      ensures |s| == bitCnt
    {
      seq(bitCnt, i requires 0 <= i < bitCnt reads this, bits => On(bits[i / ELEM_BITS], Mask(i % ELEM_BITS)))
    }

    /** bitmap_create() with its memory */
    constructor (bitCnt: nat)
      ensures Valid() && fresh(bits) && this.bitCnt == bitCnt && Contents() == seq(bitCnt, _ => false)
    {
      this.bitCnt := bitCnt;
      bits := new bv32[(bitCnt + 31) / ELEM_BITS];
      new;
      SetMultiple(0, bitCnt, false);
      assert Contents() == seq(bitCnt, _ => false);
    }

    /** bitmap_test() */
    method Test(i: nat) returns (b: bool)
      requires Valid() && i < bitCnt
      ensures b == Contents()[i]
    {
      b := On(bits[i / ELEM_BITS], Mask(i % ELEM_BITS));
    }

    /** bitmap_set(), by bitmap_mark() or bitmap_reset() */
    method Set(i: nat, v: bool)
      requires Valid() && i < bitCnt
      modifies bits
      ensures Valid() && Contents() == old(Contents())[i := v]
    {
      hide On, Marked, Cleared, Mask;
      ghost var was := bits[..];
      var e, m := i / ELEM_BITS, Mask(i % ELEM_BITS);
      if v {
        bits[e] := Marked(bits[e], m);
      } else {
        bits[e] := Cleared(bits[e], m);
      }
      forall j | 0 <= j < bitCnt
        ensures On(bits[j / ELEM_BITS], Mask(j % ELEM_BITS)) == if j == i then v else On(was[j / ELEM_BITS], Mask(j % ELEM_BITS))
      {
        MarkedWord(was[e], j % ELEM_BITS, i % ELEM_BITS);
      }
    }

    /** bitmap_set_multiple() */
    method SetMultiple(start: nat, cnt: nat, v: bool)
      requires Valid() && start + cnt <= bitCnt
      modifies bits
      ensures Valid() && Contents() == Filled(old(Contents()), start, cnt, v)
    {
      var i := 0;
      while i < cnt
        invariant i <= cnt && Valid() && Contents() == Filled(old(Contents()), start, i, v)
      {
        Set(start + i, v);
        i := i + 1;
      }
    }

    /** bitmap_contains() */
    method Contains(start: nat, cnt: nat, v: bool) returns (b: bool)
      requires Valid() && start + cnt <= bitCnt
      ensures b == !AllAre(Contents(), start, cnt, !v)
    {
      var i := 0;
      while i < cnt
        invariant i <= cnt && AllAre(Contents(), start, i, !v)
      {
        var t := Test(start + i);
        if t == v {
          return true;
        }
        i := i + 1;
      }
      return false;
    }

    /** bitmap_scan() */
    method Scan(start: nat, cnt: nat, v: bool) returns (r: Option<nat>)
      requires Valid() && start <= bitCnt
      ensures r == FirstFit(Contents(), start, cnt, v)
    {
      if cnt <= bitCnt {
        var last, i := bitCnt - cnt, start;
        while i <= last
          invariant start <= i && FirstFit(Contents(), start, cnt, v) == FirstFit(Contents(), i, cnt, v)
          decreases last - i
        {
          var other := Contains(i, cnt, !v);
          if !other {
            return Some(i);
          }
          i := i + 1;
        }
      }
      return None;
    }

    /** bitmap_scan_and_flip(): the first fit, flipped; no fit, no change. */
    method ScanAndFlip(start: nat, cnt: nat, v: bool) returns (r: Option<nat>)
      requires Valid() && start <= bitCnt
      modifies bits
      ensures Valid() && r == FirstFit(old(Contents()), start, cnt, v)
      ensures r.Some? ==> r.value + cnt <= bitCnt && Contents() == Filled(old(Contents()), r.value, cnt, !v)
      ensures r.None? ==> Contents() == old(Contents())
    {
      r := Scan(start, cnt, v);
      FirstFitIs(Contents(), start, cnt, v);
      if r.Some? {
        SetMultiple(r.value, cnt, !v);
      }
    }
  }

  /** bitmap_create(): `record` and `words` tell whether memory for the record and for the bits can be
      had; no bits need none. */
  method BitmapCreate(bitCnt: nat, record: bool, words: bool) returns (r: Option<Bitmap>)
    ensures r.Some? <==> record && (words || bitCnt == 0)
    ensures r.Some? ==> fresh(r.value) && fresh(r.value.bits) && r.value.Valid() && r.value.bitCnt == bitCnt
    ensures r.Some? ==> r.value.Contents() == seq(bitCnt, _ => false)
  {
    if !record || !(words || bitCnt == 0) {
      return None;
    }
    var b := new Bitmap(bitCnt);
    return Some(b);
  }
}
