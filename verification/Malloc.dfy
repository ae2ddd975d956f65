/** The block allocator of threads/malloc.c: descriptors, arenas of one page each, big blocks. */
module Malloc {
  import opened Common

  const PGSIZE := 4096
  const HEADER := 12                // sizeof (struct arena)
  const DESC_CNT := 7

  type Page = nat      // address / PGSIZE
  type Address = nat

  /** The descriptors that malloc_init() makes: powers of two from 16 up to below half a page. */
  function BlockSize(d: nat): nat {
    if d == 0 then 16 else if d == 1 then 32 else if d == 2 then 64 else if d == 3 then 128
    else if d == 4 then 256 else if d == 5 then 512 else 1024
  }

  function PerArena(d: nat): nat {
    (PGSIZE - HEADER) / BlockSize(d)
  }

  /** struct arena: the descriptor and the number of free blocks, or the pages of a big block */
  datatype Arena = Small(desc: nat, freeCnt: int) | Big(pages: nat)

  /** Arenas by page, the free lists, and what is handed out with the size asked for. */
  datatype Heap = Heap(arenas: map<Page, Arena>, free: seq<seq<Address>>, live: map<Address, nat>)

  /** arena_to_block() */
  function BlockAt(p: Page, d: nat, i: nat): Address {
    p * PGSIZE + HEADER + i * BlockSize(d)
  }

  /** The offset within a page is that of a block. */
  predicate Slot(d: nat, ofs: nat) {
    ofs >= HEADER && (ofs - HEADER) % BlockSize(d) == 0 && (ofs - HEADER) / BlockSize(d) < PerArena(d)
  }

  /** The assertions of block_to_arena() on the arena found by rounding down */
  predicate Checks(arenas: map<Page, Arena>, b: Address) {
    && b / PGSIZE in arenas
    && match arenas[b / PGSIZE]
       case Small(d, _) => b % PGSIZE >= HEADER && (b % PGSIZE - HEADER) % BlockSize(d) == 0
       case Big(_) => b % PGSIZE == HEADER
  }

  /** The least descriptor whose blocks are large enough, or DESC_CNT. */
  function DescFor(size: nat): nat {
    if size <= 16 then 0 else if size <= 32 then 1 else if size <= 64 then 2 else if size <= 128 then 3
    else if size <= 256 then 4 else if size <= 512 then 5 else if size <= 1024 then 6 else DESC_CNT
  }

  /** The pages of a big block, as computed in 32 bits */
  function PageCnt(size: nat): nat {
    (size + HEADER + PGSIZE - 1) % UINT_RANGE / PGSIZE
  }

  function ArenaBlocks(p: Page, d: nat, n: nat): seq<Address> {
    seq(n, (i: nat) => BlockAt(p, d, i))
  }

  /** A call ends in a failed assertion, or with a new heap and a block or a null pointer. */
  datatype Outcome = Panic | Done(heap: Heap, block: Option<Address>)

  /** malloc() from a free list that has a block */
  function Take(s: Heap, d: nat, size: nat): Outcome
    requires d < |s.free| && s.free[d] != []
  {
    var b := s.free[d][0];
    var p := b / PGSIZE;
    if !Checks(s.arenas, b) || s.arenas[p].Big? then Panic
    else
      var a := s.arenas[p];
      Done(Heap(s.arenas[p := a.(freeCnt := a.freeCnt - 1)], s.free[d := s.free[d][1..]], s.live[b := size]), Some(b))
  }

  function Grow(s: Heap, d: nat, p: Page): Heap
    requires d < |s.free|
  {
    s.(arenas := s.arenas[p := Small(d, PerArena(d))], free := s.free[d := s.free[d] + ArenaBlocks(p, d, PerArena(d))])
  }

  /** malloc(); `page` is what the page allocator gives when asked, if it gives anything. */
  function MallocSpec(s: Heap, size: nat, page: Option<Page>): Outcome
    requires |s.free| == DESC_CNT
  {
    var d := DescFor(size);
    if size == 0 then Done(s, None)
    else if d == DESC_CNT then
      if page.None? || PageCnt(size) == 0 then Done(s, None)
      else
        var b := page.value * PGSIZE + HEADER;
        Done(s.(arenas := s.arenas[page.value := Big(PageCnt(size))], live := s.live[b := size]), Some(b))
    else if s.free[d] != [] then Take(s, d, size)
    else if page.None? then Done(s, None)
    else Take(Grow(s, d, page.value), d, size)
  }

  /** The elements of a list that are not on page p. */
  function OffPage(list: seq<Address>, p: Page): seq<Address> {
    if list == [] then []
    else (if list[0] / PGSIZE == p then [] else [list[0]]) + OffPage(list[1..], p)
  }

  /** free() of a block */
  function FreeSpec(s: Heap, b: Address): Outcome
    requires |s.free| == DESC_CNT
  {
    var p := b / PGSIZE;
    if !Checks(s.arenas, b) then Panic
    else if s.arenas[p].Big? then Done(s.(arenas := s.arenas - {p}, live := s.live - {b}), None)
    else if s.arenas[p].desc >= DESC_CNT then Panic
    else
      var d, n := s.arenas[p].desc, s.arenas[p].freeCnt + 1;
      var list := [b] + s.free[d];
      if n > PerArena(d) then Panic
      else if n == PerArena(d) then
        Done(Heap(s.arenas - {p}, s.free[d := OffPage(list, p)], s.live - {b}), None)
      else
        Done(Heap(s.arenas[p := Small(d, n)], s.free[d := list], s.live - {b}), None)
  }

  // ---- Blocks and pages ------------------------------------------------------------------------

  lemma OnPage(p: Page, x: nat)
    requires x < PGSIZE
    ensures (p * PGSIZE + x) / PGSIZE == p && (p * PGSIZE + x) % PGSIZE == x
  {
  }

  lemma BlockFits(d: nat, i: nat)
    requires i < PerArena(d)
    ensures HEADER + i * BlockSize(d) + BlockSize(d) <= PGSIZE && Slot(d, HEADER + i * BlockSize(d))
    ensures i * BlockSize(d) / BlockSize(d) == i
  {
    if d <= 2 {
      assert BlockSize(d) == 16 || BlockSize(d) == 32 || BlockSize(d) == 64;
    } else if d <= 4 {
      assert BlockSize(d) == 128 || BlockSize(d) == 256;
    } else {
      assert BlockSize(d) == 512 || BlockSize(d) == 1024;
    }
  }

  /** A block lies on its page, and its place tells the index. */
  lemma BlockOnPage(p: Page, d: nat, i: nat)
    requires i < PerArena(d)
    ensures BlockAt(p, d, i) / PGSIZE == p && BlockAt(p, d, i) % PGSIZE == HEADER + i * BlockSize(d)
    ensures HEADER + i * BlockSize(d) + BlockSize(d) <= PGSIZE && Slot(d, BlockAt(p, d, i) % PGSIZE)
  {
    hide BlockSize, Slot;
    BlockFits(d, i);
    assert BlockSize(d) > 0 by {
      SizePositive(d);
    }
    OnPage(p, HEADER + i * BlockSize(d));
  }

  lemma SizePositive(d: nat)
    ensures BlockSize(d) >= 16 && PerArena(d) >= 3
  {
  }

  /** Every slot of a page is a block. */
  lemma SlotIsBlock(d: nat, b: Address)
    requires Slot(d, b % PGSIZE)
    ensures var i := (b % PGSIZE - HEADER) / BlockSize(d); 0 <= i < PerArena(d) && b == BlockAt(b / PGSIZE, d, i)
  {
  }

  /** The largest size a caller can ask for and be served: 2^32 - 12. */
  const MAX_SIZE: nat := UINT_RANGE - HEADER

  /** The pages computed for a big block hold it exactly up to MAX_SIZE.  From the size at which the
      sum wraps around up to MAX_SIZE the count is zero, and no page is asked for. */
  lemma BigEnoughIff(size: nat)
    requires size < UINT_RANGE
    ensures PageCnt(size) > 0 ==> (PageCnt(size) * PGSIZE - HEADER >= size <==> size <= MAX_SIZE)
    ensures PageCnt(size) == 0 <==> UINT_RANGE <= size + HEADER + PGSIZE - 1 && size <= MAX_SIZE
    ensures size <= MAX_SIZE && PageCnt(size) > 0 ==> (PageCnt(size) - 1) * 4096 < size + 12 <= PageCnt(size) * 4096
  {
    var sum := size + HEADER + PGSIZE - 1;
    if sum < UINT_RANGE {
      assert sum % UINT_RANGE == sum;
    } else {
      assert sum % UINT_RANGE == sum - UINT_RANGE;
    }
  }

  // ---- What every call keeps ---------------------------------------------------------------------

  ghost function PagesOf(a: Arena): nat {
    if a.Small? then 1 else a.pages
  }

  ghost predicate Covers(arenas: map<Page, Arena>, p: Page, q: Page) {
    p in arenas && p <= q < p + PagesOf(arenas[p])
  }

  ghost predicate PagesApart(arenas: map<Page, Arena>) {
    forall p: Page, p': Page, q: Page :: Covers(arenas, p, q) && Covers(arenas, p', q) ==> p == p'
  }

  /** b is a block of an arena of descriptor d. */
  ghost predicate IsBlock(arenas: map<Page, Arena>, d: nat, b: Address) {
    && b / PGSIZE in arenas && arenas[b / PGSIZE].Small? && arenas[b / PGSIZE].desc == d
    && Slot(d, b % PGSIZE)
  }

  /** The free list of d is exactly the blocks of its arenas that are not handed out. */
  ghost predicate ListOk(s: Heap, d: nat)
    requires d < |s.free|
  {
    Distinct(s.free[d]) && forall b: Address :: b in s.free[d] <==> IsBlock(s.arenas, d, b) && b !in s.live
  }

  /** What is handed out is a block of a small arena, or the one block of a big one. */
  ghost predicate LiveOk(s: Heap, b: Address) {
    && b / PGSIZE in s.arenas
    && match s.arenas[b / PGSIZE]
       case Small(d, _) => d < DESC_CNT && Slot(d, b % PGSIZE)
       case Big(_) => b % PGSIZE == HEADER
  }

  ghost function FreeIn(list: seq<Address>, p: Page): set<Address> {
    set b | b in list && b / PGSIZE == p
  }

  ghost predicate ArenaOk(s: Heap, p: Page)
    requires p in s.arenas && |s.free| == DESC_CNT
  {
    match s.arenas[p]
    case Small(d, n) => d < DESC_CNT && n == |FreeIn(s.free[d], p)|
    case Big(k) => k > 0 && p * PGSIZE + HEADER in s.live
  }

  ghost predicate Shape(s: Heap) {
    && |s.free| == DESC_CNT && PagesApart(s.arenas)
    && (forall d :: 0 <= d < DESC_CNT ==> ListOk(s, d))
    && (forall b :: b in s.live ==> LiveOk(s, b))
    && (forall p :: p in s.arenas ==> ArenaOk(s, p))
  }

  /** Some block of the arena is handed out. */
  ghost predicate InService(arenas: map<Page, Arena>, p: Page)
    requires p in arenas
  {
    arenas[p].Small? ==> arenas[p].freeCnt < PerArena(arenas[p].desc)
  }

  /** How many bytes the holder of b may use: block_size() */
  ghost function Room(s: Heap, b: Address): int
    requires b / PGSIZE in s.arenas
  {
    match s.arenas[b / PGSIZE]
    case Small(d, _) => BlockSize(d)
    case Big(k) => k * PGSIZE - b % PGSIZE
  }

  /** They are as many as were asked for, but for the eleven largest sizes. */
  ghost predicate RoomOk(s: Heap, b: Address)
    requires b in s.live && b / PGSIZE in s.arenas
  {
    Room(s, b) >= s.live[b] <==> s.live[b] <= MAX_SIZE
  }

  ghost predicate Inv(s: Heap) {
    && Shape(s)
    && (forall p :: p in s.arenas ==> InService(s.arenas, p))
    && (forall b :: b in s.live ==> RoomOk(s, b))
  }

  // ---- Counting blocks ---------------------------------------------------------------------------

  ghost function Elems(xs: seq<Address>): set<Address> {
    set x | x in xs
  }

  lemma {:induction false} DistinctCount(xs: seq<Address>)
    requires Distinct(xs)
    ensures |Elems(xs)| == |xs|
    decreases |xs|
  {
    if xs != [] {
      var rest := xs[1..];
      DistinctCount(rest);
      assert xs == [xs[0]] + rest;
      assert xs[0] !in rest;
      assert Elems(xs) == {xs[0]} + Elems(rest);
    }
  }

  lemma ArenaBlocksAre(p: Page, d: nat)
    ensures Distinct(ArenaBlocks(p, d, PerArena(d)))
    ensures forall b: Address :: b in ArenaBlocks(p, d, PerArena(d)) <==> b / PGSIZE == p && Slot(d, b % PGSIZE)
  {
    var xs := ArenaBlocks(p, d, PerArena(d));
    forall i, j | 0 <= i < j < |xs|
      ensures xs[i] != xs[j]
    {
      BlocksApart(p, d, i, j);
    }
    hide Slot, BlockAt;
    forall b: Address | b in xs
      ensures b / PGSIZE == p && Slot(d, b % PGSIZE)
    {
      var i :| 0 <= i < |xs| && xs[i] == b;
      BlockOnPage(p, d, i);
    }
    forall b: Address | b / PGSIZE == p && Slot(d, b % PGSIZE)
      ensures b in xs
    {
      SlotIsBlock(d, b);
      SizePositive(d);
      assert xs[(b % PGSIZE - HEADER) / BlockSize(d)] == b;
    }
  }

  lemma BlocksApart(p: Page, d: nat, i: nat, j: nat)
    requires i < j
    ensures BlockAt(p, d, i) + BlockSize(d) <= BlockAt(p, d, j)
  {
    MulLe(i + 1, j, BlockSize(d));
  }

  /** An arena has at most as many free blocks as blocks, and all are free only if none is out. */
  lemma FreeAtMost(s: Heap, p: Page)
    requires Shape(s) && p in s.arenas && s.arenas[p].Small?
    ensures 0 <= s.arenas[p].freeCnt <= PerArena(s.arenas[p].desc)
    ensures s.arenas[p].freeCnt == PerArena(s.arenas[p].desc) <==> forall b :: b in s.live ==> b / PGSIZE != p
  {
    var d := s.arenas[p].desc;
    var xs := ArenaBlocks(p, d, PerArena(d));
    ArenaBlocksAre(p, d);
    DistinctCount(xs);
    var all, free := Elems(xs), FreeIn(s.free[d], p);
    assert ArenaOk(s, p) && ListOk(s, d);
    assert free <= all;
    SubsetCount(free, all);
    forall b | b in s.live && b / PGSIZE == p
      ensures b in all && b !in free
    {
      assert LiveOk(s, b);
    }
    if forall b :: b in s.live ==> b / PGSIZE != p {
      assert free == all;
    }
  }

  lemma SubsetCount(a: set<Address>, b: set<Address>)
    requires a <= b
    ensures |a| <= |b| && (|a| == |b| ==> a == b)
  {
    assert a + (b - a) == b;
  }

  // ---- malloc() ----------------------------------------------------------------------------------

  lemma SameCover(arenas: map<Page, Arena>, arenas': map<Page, Arena>)
    requires PagesApart(arenas) && forall p :: p in arenas' ==> p in arenas && PagesOf(arenas'[p]) == PagesOf(arenas[p])
    ensures PagesApart(arenas')
  {
    assert forall p: Page, q: Page :: Covers(arenas', p, q) ==> Covers(arenas, p, q);
  }

  ghost predicate Fresh(arenas: map<Page, Arena>, p: Page, n: nat) {
    forall q: Page, k: Page :: p <= k < p + n ==> !Covers(arenas, q, k)
  }

  lemma NewCover(arenas: map<Page, Arena>, p: Page, a: Arena)
    requires PagesApart(arenas) && Fresh(arenas, p, PagesOf(a)) && p !in arenas
    ensures PagesApart(arenas[p := a])
  {
    var arenas' := arenas[p := a];
    forall q: Page, q': Page, k: Page | Covers(arenas', q, k) && Covers(arenas', q', k)
      ensures q == q'
    {
      assert q == p || Covers(arenas, q, k);
      assert q' == p || Covers(arenas, q', k);
    }
  }

  lemma FreshIsNew(s: Heap, p: Page, n: nat)
    requires Shape(s) && Fresh(s.arenas, p, n) && n > 0
    ensures p !in s.arenas && forall b :: b in s.live ==> b / PGSIZE != p
  {
    assert p in s.arenas ==> ArenaOk(s, p) && Covers(s.arenas, p, p);
    forall b | b in s.live
      ensures b / PGSIZE != p
    {
      assert LiveOk(s, b);
    }
  }

  /** The list after its first block is taken. */
  lemma PopKeepsLists(s: Heap, d: nat, arenas': map<Page, Arena>, live': map<Address, nat>, d': nat)
    requires Shape(s) && d < DESC_CNT && s.free[d] != [] && d' < DESC_CNT
    requires live'.Keys == s.live.Keys + {s.free[d][0]}
    requires forall e: nat, b: Address :: IsBlock(arenas', e, b) <==> IsBlock(s.arenas, e, b)
    ensures ListOk(Heap(arenas', s.free[d := s.free[d][1..]], live'), d')
  {
    var b := s.free[d][0];
    assert ListOk(s, d) && ListOk(s, d');
    assert IsBlock(s.arenas, d, b);
    if d' == d {
      var rest := s.free[d][1..];
      assert s.free[d] == [b] + rest;
      assert b !in rest;
      assert forall x :: x in s.free[d] <==> x == b || x in rest;
    }
  }

  lemma PopCounts(list: seq<Address>, p: Page)
    requires list != [] && Distinct(list)
    ensures |FreeIn(list[1..], p)| == |FreeIn(list, p)| - (if list[0] / PGSIZE == p then 1 else 0)
  {
    var rest := list[1..];
    assert list == [list[0]] + rest;
    assert list[0] !in rest;
    assert FreeIn(rest, p) == FreeIn(list, p) - {list[0]};
  }

  /** Handing out the first free block, the heap being in order but for an idle arena of its own. */
  lemma TakeKeeps(s: Heap, d: nat, size: nat)
    requires Shape(s) && d < DESC_CNT && s.free[d] != [] && 0 < size <= BlockSize(d)
    requires forall p :: p in s.arenas && p != s.free[d][0] / PGSIZE ==> InService(s.arenas, p)
    requires forall b :: b in s.live ==> RoomOk(s, b)
    ensures var r := Take(s, d, size);
            r.Done? && Inv(r.heap) && r.block == Some(s.free[d][0]) && s.free[d][0] !in s.live
            && r.heap.live == s.live[s.free[d][0] := size]
  {
    var b := s.free[d][0];
    var p := b / PGSIZE;
    assert ListOk(s, d);
    assert IsBlock(s.arenas, d, b);
    assert Checks(s.arenas, b);
    var s' := Take(s, d, size).heap;
    TakeShape(s, d, size);
    FreeAtMost(s, p);
    assert ArenaOk(s, p);
    forall x | x in s'.live
      ensures RoomOk(s', x)
    {
      assert x != b ==> RoomOk(s, x);
    }
  }

  lemma TakeShape(s: Heap, d: nat, size: nat)
    requires Shape(s) && d < DESC_CNT && s.free[d] != [] && Take(s, d, size).Done?
    ensures Shape(Take(s, d, size).heap)
  {
    var b := s.free[d][0];
    var p := b / PGSIZE;
    assert ListOk(s, d);
    assert IsBlock(s.arenas, d, b);
    var s' := Take(s, d, size).heap;
    SameCover(s.arenas, s'.arenas);
    forall d' | 0 <= d' < DESC_CNT
      ensures ListOk(s', d')
    {
      PopKeepsLists(s, d, s'.arenas, s'.live, d');
    }
    forall x | x in s'.live
      ensures LiveOk(s', x)
    {
      assert x != b ==> LiveOk(s, x);
    }
    forall q | q in s'.arenas
      ensures ArenaOk(s', q)
    {
      assert ArenaOk(s, q);
      PopCounts(s.free[d], q);
    }
  }

  lemma GrowLists(s: Heap, d: nat, p: Page, d': nat)
    requires Inv(s) && d < DESC_CNT && s.free[d] == [] && Fresh(s.arenas, p, 1) && d' < DESC_CNT
    ensures ListOk(Grow(s, d, p), d')
  {
    hide Slot, BlockSize, PerArena, BlockAt;
    var s', xs := Grow(s, d, p), ArenaBlocks(p, d, PerArena(d));
    FreshIsNew(s, p, 1);
    ArenaBlocksAre(p, d);
    assert s'.free[d] == xs;
    assert ListOk(s, d') && ListOk(s, d);
    assert forall b: Address :: b / PGSIZE != p ==> (IsBlock(s'.arenas, d', b) <==> IsBlock(s.arenas, d', b));
  }

  lemma GrowArenas(s: Heap, d: nat, p: Page, q: Page)
    requires Inv(s) && d < DESC_CNT && s.free[d] == [] && Fresh(s.arenas, p, 1) && q in Grow(s, d, p).arenas
    ensures |Grow(s, d, p).free| == DESC_CNT && ArenaOk(Grow(s, d, p), q)
  {
    hide Slot, BlockSize, PerArena, BlockAt;
    var s', xs := Grow(s, d, p), ArenaBlocks(p, d, PerArena(d));
    ArenaBlocksAre(p, d);
    assert s'.free[d] == xs;
    DistinctCount(xs);
    assert FreeIn(xs, p) == Elems(xs);
    assert q != p ==> ArenaOk(s, q);
    assert q != p ==> FreeIn(xs, q) == {} == FreeIn(s.free[d], q);
  }

  /** A new arena, all of whose blocks are free. */
  lemma GrowKeeps(s: Heap, d: nat, p: Page)
    requires Inv(s) && d < DESC_CNT && s.free[d] == [] && Fresh(s.arenas, p, 1)
    ensures var s' := Grow(s, d, p);
            && Shape(s') && s'.live == s.live && s'.free[d] != [] && s'.free[d][0] / PGSIZE == p
            && (forall q :: q in s'.arenas && q != p ==> InService(s'.arenas, q))
            && (forall b :: b in s'.live ==> RoomOk(s', b))
  {
    hide Slot, BlockSize, PerArena, BlockAt;
    var s', xs := Grow(s, d, p), ArenaBlocks(p, d, PerArena(d));
    SizePositive(d);
    FreshIsNew(s, p, 1);
    NewCover(s.arenas, p, Small(d, PerArena(d)));
    ArenaBlocksAre(p, d);
    assert s'.free[d] == xs;
    assert xs[0] in xs;
    forall d' | 0 <= d' < DESC_CNT
      ensures ListOk(s', d')
    {
      GrowLists(s, d, p, d');
    }
    forall q | q in s'.arenas
      ensures ArenaOk(s', q)
    {
      GrowArenas(s, d, p, q);
    }
    forall b | b in s'.live
      ensures LiveOk(s', b) && RoomOk(s', b)
    {
      assert LiveOk(s, b) && RoomOk(s, b);
    }
  }

  lemma BigKeeps(s: Heap, p: Page, size: nat)
    requires Inv(s) && 1024 < size < UINT_RANGE && PageCnt(size) > 0 && Fresh(s.arenas, p, PageCnt(size))
    ensures var b := p * PGSIZE + HEADER;
            b !in s.live && Inv(s.(arenas := s.arenas[p := Big(PageCnt(size))], live := s.live[b := size]))
  {
    BigEnoughIff(size);
    BigKeepsWith(s, p, size, PageCnt(size));
  }

  function WithBig(s: Heap, p: Page, size: nat, k: nat): Heap {
    s.(arenas := s.arenas[p := Big(k)], live := s.live[p * PGSIZE + HEADER := size])
  }

  lemma BigAddsNone(arenas: map<Page, Arena>, p: Page, k: nat, d: nat, x: Address)
    requires p !in arenas
    ensures IsBlock(arenas[p := Big(k)], d, x) <==> IsBlock(arenas, d, x)
  {
    hide Slot;
  }

  lemma BigLists(s: Heap, p: Page, size: nat, k: nat, d: nat)
    requires Shape(s) && p !in s.arenas && d < DESC_CNT && (p * PGSIZE + HEADER) / PGSIZE == p
    ensures ListOk(WithBig(s, p, size, k), d)
  {
    hide IsBlock;
    var s', b := WithBig(s, p, size, k), p * PGSIZE + HEADER;
    assert ListOk(s, d);
    assert !IsBlock(s.arenas, d, b) by {
      NotOnPage(s.arenas, d, b);
    }
    forall x: Address
      ensures x in s'.free[d] <==> IsBlock(s'.arenas, d, x) && x !in s'.live
    {
      BigAddsNone(s.arenas, p, k, d, x);
    }
  }

  lemma NotOnPage(arenas: map<Page, Arena>, d: nat, b: Address)
    requires b / PGSIZE !in arenas
    ensures !IsBlock(arenas, d, b)
  {
  }

  lemma BigLive(s: Heap, p: Page, size: nat, k: nat, x: Address)
    requires Inv(s) && k > 0 && Fresh(s.arenas, p, k) && (k * PGSIZE - HEADER >= size <==> size <= MAX_SIZE)
    requires x in WithBig(s, p, size, k).live
    ensures LiveOk(WithBig(s, p, size, k), x) && RoomOk(WithBig(s, p, size, k), x)
  {
    OnPage(p, HEADER);
    FreshIsNew(s, p, k);
    hide Slot, BlockSize, PerArena;
    if x != p * PGSIZE + HEADER {
      LiveIsOk(s, x);
      assert RoomOk(s, x);
    }
  }

  lemma BigArenas(s: Heap, p: Page, size: nat, k: nat, q: Page)
    requires Shape(s) && k > 0 && q in WithBig(s, p, size, k).arenas
    ensures ArenaOk(WithBig(s, p, size, k), q)
  {
    assert q != p ==> ArenaOk(s, q);
  }

  lemma BigKeepsWith(s: Heap, p: Page, size: nat, k: nat)
    requires Inv(s) && k > 0 && Fresh(s.arenas, p, k) && (k * PGSIZE - HEADER >= size <==> size <= MAX_SIZE)
    ensures p * PGSIZE + HEADER !in s.live && Inv(WithBig(s, p, size, k))
  {
    hide ListOk, LiveOk, RoomOk, ArenaOk, Fresh;
    var s' := WithBig(s, p, size, k);
    OnPage(p, HEADER);
    FreshIsNew(s, p, k);
    NewCover(s.arenas, p, Big(k));
    forall d | 0 <= d < DESC_CNT
      ensures ListOk(s', d)
    {
      BigLists(s, p, size, k, d);
    }
    forall x | x in s'.live
      ensures LiveOk(s', x) && x / PGSIZE in s'.arenas && RoomOk(s', x)
    {
      BigLive(s, p, size, k, x);
      PageKnown(s', x);
    }
    forall q | q in s'.arenas
      ensures ArenaOk(s', q)
    {
      BigArenas(s, p, size, k, q);
    }
  }

  lemma PageKnown(s: Heap, x: Address)
    requires LiveOk(s, x)
    ensures x / PGSIZE in s.arenas
  {
  }

  /** Pages that the page allocator may give: in no arena. */
  ghost predicate MayGive(s: Heap, size: nat, page: Option<Page>) {
    page.Some? ==> Fresh(s.arenas, page.value, if DescFor(size) == DESC_CNT then PageCnt(size) else 1)
  }

  /** malloc() fails no assertion and keeps the invariant; what it hands out was not out. */
  lemma MallocKeeps(s: Heap, size: nat, page: Option<Page>)
    requires Inv(s) && size < UINT_RANGE && MayGive(s, size, page)
    ensures var r := MallocSpec(s, size, page);
            && r.Done? && Inv(r.heap)
            && (r.block.None? ==> r.heap == s)
            && (r.block.Some? ==> r.block.value !in s.live && r.heap.live == s.live[r.block.value := size])
  {
    hide Shape, Take, Fresh;
    var d := DescFor(size);
    assert |s.free| == DESC_CNT by {
      ShapeLists(s);
    }
    if size > 0 && d == DESC_CNT {
      if page.Some? && PageCnt(size) > 0 {
        BigKeeps(s, page.value, size);
      }
    } else if size > 0 {
      if s.free[d] != [] {
        TakeKeeps(s, d, size);
      } else if page.Some? {
        GrowKeeps(s, d, page.value);
        TakeKeeps(Grow(s, d, page.value), d, size);
      }
    }
  }

  lemma ShapeLists(s: Heap)
    requires Shape(s)
    ensures |s.free| == DESC_CNT
  {
  }

  // ---- free() ------------------------------------------------------------------------------------

  lemma {:induction false} OffPageIs(list: seq<Address>, p: Page)
    requires Distinct(list)
    ensures Distinct(OffPage(list, p))
    ensures forall b :: b in OffPage(list, p) <==> b in list && b / PGSIZE != p
    decreases |list|
  {
    if list != [] {
      var rest := list[1..];
      OffPageIs(rest, p);
      assert list == [list[0]] + rest;
      assert list[0] !in rest;
      assert forall b :: b in list <==> b == list[0] || b in rest;
    }
  }

  lemma PushCounts(list: seq<Address>, b: Address, p: Page)
    requires b !in list
    ensures |FreeIn([b] + list, p)| == |FreeIn(list, p)| + (if b / PGSIZE == p then 1 else 0)
  {
    assert FreeIn([b] + list, p) == FreeIn(list, p) + if b / PGSIZE == p then {b} else {};
  }

  /** Giving a block back, its arena staying in service. */
  ghost function Returned(s: Heap, b: Address): Heap
    requires LiveOk(s, b) && |s.free| == DESC_CNT && s.arenas[b / PGSIZE].Small?
  {
    var p := b / PGSIZE;
    var a := s.arenas[p];
    Heap(s.arenas[p := a.(freeCnt := a.freeCnt + 1)], s.free[a.desc := [b] + s.free[a.desc]], s.live - {b})
  }

  lemma ReturnedLists(s: Heap, b: Address, d: nat)
    requires Shape(s) && b in s.live && LiveOk(s, b) && s.arenas[b / PGSIZE].Small? && d < DESC_CNT
    ensures ListOk(Returned(s, b), d)
  {
    hide Slot;
    var s', e := Returned(s, b), s.arenas[b / PGSIZE].desc;
    assert ListOk(s, d) && ListOk(s, e);
    assert forall x: Address :: IsBlock(s'.arenas, d, x) <==> IsBlock(s.arenas, d, x);
    assert IsBlock(s.arenas, e, b);
  }

  lemma ReturnedShape(s: Heap, b: Address)
    requires Shape(s) && b in s.live && LiveOk(s, b) && s.arenas[b / PGSIZE].Small?
    ensures Shape(Returned(s, b))
  {
    hide Slot;
    var p := b / PGSIZE;
    var s', e := Returned(s, b), s.arenas[p].desc;
    SameCover(s.arenas, s'.arenas);
    forall d | 0 <= d < DESC_CNT
      ensures ListOk(s', d)
    {
      ReturnedLists(s, b, d);
    }
    forall x | x in s'.live
      ensures LiveOk(s', x)
    {
      assert LiveOk(s, x);
    }
    assert ListOk(s, e);
    forall q | q in s'.arenas
      ensures ArenaOk(s', q)
    {
      assert ArenaOk(s, q);
      PushCounts(s.free[e], b, q);
    }
  }

  lemma RetiredLists(s: Heap, p: Page, d': nat)
    requires Shape(s) && p in s.arenas && s.arenas[p].Small? && s.arenas[p].desc < DESC_CNT && d' < DESC_CNT
    ensures var d := s.arenas[p].desc; ListOk(Heap(s.arenas - {p}, s.free[d := OffPage(s.free[d], p)], s.live), d')
  {
    hide Slot, PagesApart, OffPage, ArenaOk, LiveOk;
    var d := s.arenas[p].desc;
    assert ListOk(s, d) && ListOk(s, d');
    OffPageIs(s.free[d], p);
    assert forall x: Address :: IsBlock(s.arenas - {p}, d', x) <==> IsBlock(s.arenas, d', x) && x / PGSIZE != p;
  }

  /** Taking an arena without blocks in use out of the heap. */
  lemma RetiredShape(s: Heap, p: Page)
    requires Shape(s) && p in s.arenas && s.arenas[p].Small? && forall b :: b in s.live ==> b / PGSIZE != p
    ensures var d := s.arenas[p].desc;
            d < DESC_CNT && Shape(Heap(s.arenas - {p}, s.free[d := OffPage(s.free[d], p)], s.live))
  {
    hide Slot;
    assert ArenaOk(s, p);
    var d := s.arenas[p].desc;
    var s' := Heap(s.arenas - {p}, s.free[d := OffPage(s.free[d], p)], s.live);
    assert ListOk(s, d);
    OffPageIs(s.free[d], p);
    SameCover(s.arenas, s'.arenas);
    hide PagesApart;
    forall d' | 0 <= d' < DESC_CNT
      ensures ListOk(s', d')
    {
      RetiredLists(s, p, d');
    }
    hide ListOk;
    forall x | x in s'.live
      ensures LiveOk(s', x)
    {
      assert LiveOk(s, x);
    }
    forall q | q in s'.arenas
      ensures ArenaOk(s', q)
    {
      assert ArenaOk(s, q);
      assert FreeIn(OffPage(s.free[d], p), q) == FreeIn(s.free[d], q);
    }
  }

  lemma SamePlace(x: Address, b: Address)
    requires x / PGSIZE == b / PGSIZE && x % PGSIZE == b % PGSIZE
    ensures x == b
  {
  }

  /** A big arena holds one block. */
  lemma BigAlone(s: Heap, b: Address, x: Address)
    requires Shape(s) && b in s.live && LiveOk(s, b) && s.arenas[b / PGSIZE].Big? && x in s.live && x != b
    ensures x / PGSIZE != b / PGSIZE
  {
    assert LiveOk(s, x);
    if x / PGSIZE == b / PGSIZE {
      SamePlace(x, b);
    }
  }

  lemma FreeBigShape(s: Heap, b: Address)
    requires Shape(s) && b in s.live && LiveOk(s, b) && s.arenas[b / PGSIZE].Big?
    ensures Shape(s.(arenas := s.arenas - {b / PGSIZE}, live := s.live - {b}))
  {
    hide Slot, PagesApart, ListOk, ArenaOk;
    var p := b / PGSIZE;
    var s' := s.(arenas := s.arenas - {p}, live := s.live - {b});
    SameCover(s.arenas, s'.arenas);
    forall d | 0 <= d < DESC_CNT
      ensures ListOk(s', d)
    {
      FreeBigLists(s, b, d);
    }
    forall x | x in s'.live
      ensures LiveOk(s', x)
    {
      assert LiveOk(s, x);
      BigAlone(s, b, x);
    }
    forall q | q in s'.arenas
      ensures ArenaOk(s', q)
    {
      FreeBigArenas(s, b, q);
    }
  }

  lemma FreeBigArenas(s: Heap, b: Address, q: Page)
    requires Shape(s) && q in s.arenas && q != b / PGSIZE
    ensures ArenaOk(s.(arenas := s.arenas - {b / PGSIZE}, live := s.live - {b}), q)
  {
    assert ArenaOk(s, q);
    OnPage(q, HEADER);
  }

  lemma FreeBigLists(s: Heap, b: Address, d: nat)
    requires Shape(s) && b in s.live && LiveOk(s, b) && s.arenas[b / PGSIZE].Big? && d < DESC_CNT
    ensures ListOk(s.(arenas := s.arenas - {b / PGSIZE}, live := s.live - {b}), d)
  {
    hide Slot, PagesApart, ArenaOk;
    var s' := s.(arenas := s.arenas - {b / PGSIZE}, live := s.live - {b});
    assert ListOk(s, d);
    assert forall x: Address :: IsBlock(s'.arenas, d, x) <==> IsBlock(s.arenas, d, x);
    assert !IsBlock(s.arenas, d, b);
  }

  lemma FreeBigKeeps(s: Heap, b: Address)
    requires Inv(s) && b in s.live && LiveOk(s, b) && s.arenas[b / PGSIZE].Big?
    ensures Inv(s.(arenas := s.arenas - {b / PGSIZE}, live := s.live - {b}))
  {
    hide Shape, PerArena, BlockSize, Slot;
    FreeBigShape(s, b);
    var s' := s.(arenas := s.arenas - {b / PGSIZE}, live := s.live - {b});
    forall x | x in s'.live
      ensures x / PGSIZE in s'.arenas && RoomOk(s', x)
    {
      LiveIsOk(s, x);
      assert RoomOk(s, x);
      BigAlone(s, b, x);
    }
  }

  /** What free() does to a block of a small arena. */
  lemma FreeSmallIs(s: Heap, b: Address)
    requires LiveOk(s, b) && |s.free| == DESC_CNT && s.arenas[b / PGSIZE].Small?
    ensures var p, s1 := b / PGSIZE, Returned(s, b);
            var d, n := s1.arenas[p].desc, s1.arenas[p].freeCnt;
            && p in s1.arenas && s1.arenas[p].Small? && d < |s1.free|
            && FreeSpec(s, b) == if n > PerArena(d) then Panic
                                 else if n == PerArena(d) then
                                   Done(Heap(s1.arenas - {p}, s1.free[d := OffPage(s1.free[d], p)], s1.live), None)
                                 else Done(s1, None)
  {
    hide PerArena, BlockSize, OffPage;
    var p, s1 := b / PGSIZE, Returned(s, b);
    assert s1.arenas - {p} == s.arenas - {p};
    var d := s.arenas[p].desc;
    assert s1.free[d := OffPage(s1.free[d], p)] == s.free[d := OffPage([b] + s.free[d], p)];
  }

  lemma FreeBigIs(s: Heap, b: Address)
    requires LiveOk(s, b) && |s.free| == DESC_CNT && s.arenas[b / PGSIZE].Big?
    ensures FreeSpec(s, b) == Done(s.(arenas := s.arenas - {b / PGSIZE}, live := s.live - {b}), None)
  {
  }

  lemma LiveIsOk(s: Heap, b: Address)
    requires Shape(s) && b in s.live
    ensures LiveOk(s, b) && |s.free| == DESC_CNT
  {
  }

  /** free() of what was handed out fails no assertion and keeps the invariant. */
  lemma FreeKeeps(s: Heap, b: Address)
    requires Inv(s) && b in s.live
    ensures |s.free| == DESC_CNT
    ensures var r := FreeSpec(s, b);
            r.Done? && Inv(r.heap) && r.heap.live == s.live - {b}
  {
    hide Shape, PerArena, BlockSize, Slot, OffPage;
    LiveIsOk(s, b);
    var p := b / PGSIZE;
    if s.arenas[p].Big? {
      FreeBigKeeps(s, b);
    } else {
      var s1 := Returned(s, b);
      FreeSmallIs(s, b);
      ReturnedShape(s, b);
      FreeAtMost(s1, p);
      ReturnedRoom(s, b);
      if s1.arenas[p].freeCnt == PerArena(s1.arenas[p].desc) {
        RetiredKeeps(s1, p);
      }
    }
  }

  lemma ReturnedRoom(s: Heap, b: Address)
    requires Inv(s) && LiveOk(s, b) && s.arenas[b / PGSIZE].Small? && |s.free| == DESC_CNT
    ensures forall x :: x in Returned(s, b).live ==> x / PGSIZE in Returned(s, b).arenas && RoomOk(Returned(s, b), x)
    ensures forall q :: q in Returned(s, b).arenas && q != b / PGSIZE ==> InService(Returned(s, b).arenas, q)
  {
    hide Shape, PerArena, BlockSize, Slot;
    forall x | x in Returned(s, b).live
      ensures x / PGSIZE in Returned(s, b).arenas && RoomOk(Returned(s, b), x)
    {
      LiveIsOk(s, x);
      assert RoomOk(s, x);
    }
  }

  lemma RetiredKeeps(s: Heap, p: Page)
    requires Shape(s) && p in s.arenas && s.arenas[p].Small? && forall b :: b in s.live ==> b / PGSIZE != p
    requires forall q :: q in s.arenas && q != p ==> InService(s.arenas, q)
    requires forall b :: b in s.live ==> RoomOk(s, b)
    ensures var d := s.arenas[p].desc;
            d < DESC_CNT && Inv(Heap(s.arenas - {p}, s.free[d := OffPage(s.free[d], p)], s.live))
  {
    RetiredShape(s, p);
    var d := s.arenas[p].desc;
    var s' := Heap(s.arenas - {p}, s.free[d := OffPage(s.free[d], p)], s.live);
    forall x | x in s'.live
      ensures RoomOk(s', x)
    {
      assert LiveOk(s', x) && RoomOk(s, x);
    }
  }

  // ---- Every run -----------------------------------------------------------------------------------

  datatype Event = EMalloc(size: nat, page: Option<Page>) | EFree(block: Address)

  ghost predicate Enabled(s: Heap, e: Event) {
    match e
    case EMalloc(size, page) => size < UINT_RANGE && MayGive(s, size, page)
    case EFree(b) => b in s.live
  }

  function Step(s: Heap, e: Event): Outcome
    requires |s.free| == DESC_CNT
  {
    match e
    case EMalloc(size, page) => MallocSpec(s, size, page)
    case EFree(b) => FreeSpec(s, b)
  }

  /** After malloc_init() */
  function Boot(): Heap {
    Heap(map[], [[], [], [], [], [], [], []], map[])
  }

  ghost predicate StepsAt(trace: seq<Heap>, events: seq<Event>, i: nat)
    requires i < |events| < |trace|
  {
    |trace[i].free| == DESC_CNT && Enabled(trace[i], events[i]) && Step(trace[i], events[i]).Done? &&
    trace[i + 1] == Step(trace[i], events[i]).heap
  }

  ghost predicate IsRun(trace: seq<Heap>, events: seq<Event>) {
    && |trace| == |events| + 1 && trace[0] == Boot()
    && forall i :: 0 <= i < |events| ==> StepsAt(trace, events, i)
  }

  lemma {:induction false} EveryRunKeepsInv(trace: seq<Heap>, events: seq<Event>, i: nat)
    requires IsRun(trace, events) && i < |trace|
    ensures Inv(trace[i])
    decreases i
  {
    hide Inv, Step;
    if i == 0 {
      BootInv();
    } else {
      EveryRunKeepsInv(trace, events, i - 1);
      assert StepsAt(trace, events, i - 1);
      StepKeeps(trace[i - 1], events[i - 1]);
    }
  }

  lemma BootInv()
    ensures Inv(Boot())
  {
    var s := Boot();
    assert forall d :: 0 <= d < DESC_CNT ==> s.free[d] == [];
    assert forall d: nat, b: Address :: !IsBlock(s.arenas, d, b);
  }

  lemma StepKeeps(s: Heap, e: Event)
    requires Inv(s) && Enabled(s, e)
    ensures |s.free| == DESC_CNT && Step(s, e).Done? && Inv(Step(s, e).heap)
  {
    match e
    case EMalloc(size, page) => MallocKeeps(s, size, page);
    case EFree(b) => FreeKeeps(s, b);
  }

  // ---- When a request is served ------------------------------------------------------------------

  /** d is the least of the seven classes of 16, 32, ..., 1024 bytes that is large enough. */
  ghost predicate LeastClass(size: nat, d: nat) {
    d < 7 && size <= 16 * Pow2(d) && (d > 0 ==> 16 * Pow2(d - 1) < size)
  }

  lemma ClassSizes(d: nat)
    requires d < 7
    ensures BlockSize(d) == 16 * Pow2(d)
  {
    assert Pow2(2) == 4 && Pow2(4) == 16;
  }

  lemma LeastClassIs(size: nat, d: nat)
    requires size > 0
    ensures LeastClass(size, d) <==> d == DescFor(size) && size <= 1024
  {
    if d < 7 {
      ClassSizes(d);
      if d > 0 {
        ClassSizes(d - 1);
      }
    }
    hide Pow2;
  }

  /** Some block of class d is not handed out. */
  ghost predicate SomeFree(s: Heap, d: nat) {
    exists b: Address :: IsBlock(s.arenas, d, b) && b !in s.live
  }

  lemma SomeFreeIff(s: Heap, d: nat)
    requires Inv(s) && d < DESC_CNT
    ensures |s.free| == DESC_CNT
    ensures s.free[d] != [] <==> SomeFree(s, d)
  {
    assert ListOk(s, d);
    if s.free[d] != [] {
      assert s.free[d][0] in s.free[d];
    }
  }

  /** There is nothing to serve the request from. */
  ghost predicate Unservable(s: Heap, size: nat, page: Option<Page>) {
    || size == 0
    || (size > 1024 && (page.None? || UINT_RANGE - 4107 <= size <= UINT_RANGE - 12))
    || (0 < size <= 1024 && page.None? && forall d: nat :: LeastClass(size, d) ==> !SomeFree(s, d))
  }

  lemma TakeGives(s: Heap, d: nat, size: nat)
    requires d < |s.free| && s.free[d] != [] && Take(s, d, size).Done?
    ensures Take(s, d, size).block == Some(s.free[d][0]) && Take(s, d, size).heap.arenas.Keys == s.arenas.Keys
  {
  }

  /** malloc() returns a null pointer exactly when there is nothing to serve the request from: no bytes
      are asked for; or more than 1024 and there are no pages, or their number wraps around to 0; or no
      block of the least sufficient class is free and there is no page. */
  lemma MallocServesIff(s: Heap, size: nat, page: Option<Page>)
    requires Inv(s) && Enabled(s, EMalloc(size, page))
    ensures |s.free| == DESC_CNT
    ensures var r := MallocSpec(s, size, page);
            r.Done? && (r.block.None? <==> Unservable(s, size, page))
  {
    ShapeLists(s);
    MallocKeeps(s, size, page);
    BigEnoughIff(size);
    var d := DescFor(size);
    if 0 < size <= 1024 {
      forall e: nat
        ensures LeastClass(size, e) <==> e == d
      {
        LeastClassIs(size, e);
      }
      SomeFreeIff(s, d);
      hide Inv, Take, SomeFree, LeastClass, PageCnt;
      if s.free[d] != [] {
        TakeGives(s, d, size);
      } else if page.Some? {
        GrownList(s, d, page.value);
        TakeGives(Grow(s, d, page.value), d, size);
      }
    }
  }

  lemma GrownList(s: Heap, d: nat, p: Page)
    requires |s.free| == DESC_CNT && d < DESC_CNT && s.free[d] == []
    ensures var s' := Grow(s, d, p); |s'.free| == DESC_CNT && s'.free[d] != [] && s'.free[d][0] == p * PGSIZE + HEADER
  {
    SizePositive(d);
  }

  /** Where a served request is served from: a small one by a block of the least sufficient class that
      was free, or, if there was none, by the first block of an arena made on the page; a large one by
      the page, with as few pages as hold it.  No other arena comes or goes. */
  lemma ServedFrom(s: Heap, size: nat, page: Option<Page>, d: nat)
    requires Inv(s) && Enabled(s, EMalloc(size, page)) && |s.free| == DESC_CNT && MallocSpec(s, size, page).Done?
    requires MallocSpec(s, size, page).block.Some?
    ensures var r := MallocSpec(s, size, page);
            var b := r.block.value;
            if size <= 1024 && LeastClass(size, d) then
              && IsBlock(r.heap.arenas, d, b)
              && (if SomeFree(s, d) then IsBlock(s.arenas, d, b) && b !in s.live && r.heap.arenas.Keys == s.arenas.Keys
                  else page.Some? && b == 4096 * page.value + 12 && r.heap.arenas.Keys == s.arenas.Keys + {page.value})
            else size > 1024 ==>
              && page.Some? && b == 4096 * page.value + 12 && r.heap.arenas.Keys == s.arenas.Keys + {page.value}
              && r.heap.arenas[page.value] == Big(PageCnt(size))
  {
    MallocServesIff(s, size, page);
    if size <= 1024 {
      LeastClassIs(size, d);
      if LeastClass(size, d) {
        ServedSmall(s, size, page, d);
      }
    }
  }

  lemma ServedSmall(s: Heap, size: nat, page: Option<Page>, d: nat)
    requires Inv(s) && Enabled(s, EMalloc(size, page)) && |s.free| == DESC_CNT && 0 < size <= 1024 && d == DescFor(size)
    requires MallocSpec(s, size, page).Done? && MallocSpec(s, size, page).block.Some?
    ensures var r := MallocSpec(s, size, page);
            var b := r.block.value;
            && IsBlock(r.heap.arenas, d, b)
            && if SomeFree(s, d) then IsBlock(s.arenas, d, b) && b !in s.live && r.heap.arenas.Keys == s.arenas.Keys
               else page.Some? && b == 4096 * page.value + 12 && r.heap.arenas.Keys == s.arenas.Keys + {page.value}
  {
    hide Inv, Take, Grow, SomeFree, IsBlock;
    SomeFreeIff(s, d);
    if s.free[d] != [] {
      TakenBlock(s, d, size);
    } else {
      GrownList(s, d, page.value);
      GrownBlock(s, d, page.value);
      TakenArenas(Grow(s, d, page.value), d, size);
    }
  }

  lemma TakenBlock(s: Heap, d: nat, size: nat)
    requires Inv(s) && d < DESC_CNT && s.free[d] != [] && Take(s, d, size).Done?
    ensures var b := s.free[d][0];
            && Take(s, d, size).block == Some(b) && IsBlock(s.arenas, d, b) && b !in s.live
            && IsBlock(Take(s, d, size).heap.arenas, d, b) && Take(s, d, size).heap.arenas.Keys == s.arenas.Keys
  {
    hide Slot;
    assert ListOk(s, d);
    assert s.free[d][0] in s.free[d];
  }

  lemma TakenArenas(s: Heap, d: nat, size: nat)
    requires d < |s.free| && s.free[d] != [] && IsBlock(s.arenas, d, s.free[d][0]) && Take(s, d, size).Done?
    ensures var b := s.free[d][0];
            && Take(s, d, size).block == Some(b)
            && IsBlock(Take(s, d, size).heap.arenas, d, b) && Take(s, d, size).heap.arenas.Keys == s.arenas.Keys
  {
    hide Slot;
  }

  lemma GrownBlock(s: Heap, d: nat, p: Page)
    requires d < |s.free|
    ensures IsBlock(Grow(s, d, p).arenas, d, 4096 * p + 12) && Grow(s, d, p).arenas.Keys == s.arenas.Keys + {p}
  {
    FirstSlot(d);
    OnPage(p, HEADER);
    hide Slot;
  }

  lemma FirstSlot(d: nat)
    ensures Slot(d, HEADER)
  {
    BlockFits(d, 0);
  }

  lemma FreedInFront(s: Heap, b: Address)
    requires Inv(s) && b in s.live && |s.free| == DESC_CNT && FreeSpec(s, b).Done?
    requires b / PGSIZE in FreeSpec(s, b).heap.arenas
    ensures var s' := FreeSpec(s, b).heap;
            && s'.arenas[b / PGSIZE].Small? && s'.arenas[b / PGSIZE].desc < DESC_CNT && |s'.free| == DESC_CNT
            && var d := s'.arenas[b / PGSIZE].desc; s'.free[d] != [] && s'.free[d][0] == b
  {
    hide Shape, PerArena, BlockSize, Slot, OffPage;
    LiveIsOk(s, b);
  }

  /** What was freed last is handed out first: a block given back to an arena that is kept serves the
      next request for its class. */
  lemma FreedIsReused(s: Heap, b: Address, size: nat, page: Option<Page>)
    requires Inv(s) && b in s.live && |s.free| == DESC_CNT && FreeSpec(s, b).Done? && size > 0
    requires var s' := FreeSpec(s, b).heap;
             && b / PGSIZE in s'.arenas && s'.arenas[b / PGSIZE].Small? && LeastClass(size, s'.arenas[b / PGSIZE].desc)
             && Enabled(s', EMalloc(size, page))
    ensures var s' := FreeSpec(s, b).heap;
            |s'.free| == DESC_CNT && MallocSpec(s', size, page).Done? && MallocSpec(s', size, page).block == Some(b)
  {
    hide Inv, Take, FreeSpec, LeastClass;
    var s' := FreeSpec(s, b).heap;
    FreeKeeps(s, b);
    FreedInFront(s, b);
    var d := s'.arenas[b / PGSIZE].desc;
    LeastClassIs(size, d);
    MallocKeeps(s', size, page);
    TakeGives(s', d, size);
  }

  /** In every run, a request is refused exactly when there is nothing to serve it from. */
  lemma EveryRequestServed(trace: seq<Heap>, events: seq<Event>, i: nat, size: nat, page: Option<Page>)
    requires IsRun(trace, events) && i < |trace| && Enabled(trace[i], EMalloc(size, page))
    ensures |trace[i].free| == DESC_CNT && MallocSpec(trace[i], size, page).Done?
    ensures MallocSpec(trace[i], size, page).block.None? <==> Unservable(trace[i], size, page)
  {
    EveryRunKeepsInv(trace, events, i);
    MallocServesIff(trace[i], size, page);
  }

  /** At boot, 100 bytes are served with the first block of an arena on the page. */
  lemma FirstRequest()
    ensures MallocSpec(Boot(), 100, Some(0)).Done? && MallocSpec(Boot(), 100, Some(0)).block == Some(12)
  {
    BootInv();
    assert Enabled(Boot(), EMalloc(100, Some(0)));
    MallocKeeps(Boot(), 100, Some(0));
    GrownList(Boot(), 3, 0);
    TakeGives(Grow(Boot(), 3, 0), 3, 100);
  }

  // ---- What it means for callers -----------------------------------------------------------------

  lemma SlotEnds(d: nat, ofs: nat)
    requires Slot(d, ofs)
    ensures HEADER <= ofs && ofs + BlockSize(d) <= PGSIZE
  {
    var i := (ofs - HEADER) / BlockSize(d);
    assert ofs == HEADER + i * BlockSize(d);
    BlockFits(d, i);
  }

  /** A block lies within the pages of its arena, behind the header. */
  lemma BlockInPages(s: Heap, b: Address)
    requires Inv(s) && b in s.live
    ensures var p := b / PGSIZE;
            p in s.arenas && p * PGSIZE + HEADER <= b && b + Room(s, b) <= (p + PagesOf(s.arenas[p])) * PGSIZE
  {
    hide Shape, Slot, BlockSize;
    LiveIsOk(s, b);
    var p := b / PGSIZE;
    assert b == p * PGSIZE + b % PGSIZE;
    if s.arenas[p].Small? {
      SlotEnds(s.arenas[p].desc, b % PGSIZE);
    }
  }

  lemma ArenasApart(s: Heap, p: Page, q: Page)
    requires Shape(s) && p in s.arenas && q in s.arenas && p < q
    ensures p + PagesOf(s.arenas[p]) <= q
  {
    assert ArenaOk(s, q);
    assert Covers(s.arenas, q, q);
    assert !Covers(s.arenas, p, q);
  }

  /** Blocks handed out never overlap. */
  lemma LiveApart(s: Heap, a: Address, b: Address)
    requires Inv(s) && a in s.live && b in s.live && a < b
    ensures a / PGSIZE in s.arenas && a + Room(s, a) <= b
  {
    hide Shape, Slot, BlockSize, PerArena;
    LiveIsOk(s, a);
    LiveIsOk(s, b);
    if a / PGSIZE < b / PGSIZE {
      BlockInPages(s, a);
      ArenasApart(s, a / PGSIZE, b / PGSIZE);
    } else if s.arenas[a / PGSIZE].Small? {
      SamePageApart(s.arenas[a / PGSIZE].desc, a, b);
    } else {
      SamePlace(a, b);
    }
  }

  lemma SamePageApart(d: nat, a: Address, b: Address)
    requires Slot(d, a % PGSIZE) && Slot(d, b % PGSIZE) && a < b && a / PGSIZE == b / PGSIZE
    ensures a + BlockSize(d) <= b
  {
    SlotIsBlock(d, a);
    SlotIsBlock(d, b);
    hide Slot, BlockSize, BlockAt;
    SlotsApart(a / PGSIZE, d, (a % PGSIZE - HEADER) / BlockSize(d), (b % PGSIZE - HEADER) / BlockSize(d));
  }

  lemma SlotsApart(p: Page, d: nat, i: nat, j: nat)
    ensures BlockAt(p, d, i) < BlockAt(p, d, j) ==> BlockAt(p, d, i) + BlockSize(d) <= BlockAt(p, d, j)
  {
    if i < j {
      BlocksApart(p, d, i, j);
    } else if j < i {
      BlocksApart(p, d, j, i);
    }
  }

  /** Every arena that is kept has a block handed out. */
  lemma ArenaInService(s: Heap, p: Page)
    requires Inv(s) && p in s.arenas
    ensures exists b :: b in s.live && b / PGSIZE == p
  {
    if s.arenas[p].Small? {
      FreeAtMost(s, p);
      assert InService(s.arenas, p);
    } else {
      assert ArenaOk(s, p);
      OnPage(p, HEADER);
    }
  }

  /** malloc() hands out less than it was asked for exactly when it was asked for more than MAX_SIZE
      bytes and the page allocator gave a page. */
  lemma TooSmallIff(s: Heap, size: nat, page: Option<Page>)
    requires Inv(s) && Enabled(s, EMalloc(size, page))
    ensures |s.free| == DESC_CNT && MallocSpec(s, size, page).Done?
    ensures var r := MallocSpec(s, size, page);
            && (r.block.Some? ==> r.block.value / PGSIZE in r.heap.arenas)
            && (r.block.Some? && Room(r.heap, r.block.value) < size <==> size > MAX_SIZE && page.Some?)
  {
    ShapeLists(s);
    hide Inv, PageCnt;
    MallocKeeps(s, size, page);
    BigEnoughIff(size);
    var r := MallocSpec(s, size, page);
    if r.block.Some? {
      LiveRoom(r.heap, r.block.value);
    }
    assert size > MAX_SIZE ==> DescFor(size) == DESC_CNT;
  }

  lemma LiveRoom(s: Heap, b: Address)
    requires Inv(s) && b in s.live
    ensures b / PGSIZE in s.arenas && (Room(s, b) >= s.live[b] <==> s.live[b] <= MAX_SIZE)
  {
    LiveIsOk(s, b);
    assert RoomOk(s, b);
  }

  /** A request for 2^32 - 1 bytes is served with the rest of one page. */
  lemma MallocCanGiveTooLittle()
    ensures var r := MallocSpec(Boot(), UINT_RANGE - 1, Some(0));
            && Enabled(Boot(), EMalloc(UINT_RANGE - 1, Some(0)))
            && r.Done? && r.block == Some(HEADER) && 0 in r.heap.arenas && Room(r.heap, HEADER) == PGSIZE - HEADER
  {
    assert PageCnt(UINT_RANGE - 1) == 1;
  }

  /** What a caller may rely on about a block it was handed. */
  ghost predicate BlockSafe(s: Heap, b: Address)
    requires b in s.live
  {
    var p := b / PGSIZE;
    && p in s.arenas && p * PGSIZE + HEADER <= b && b + Room(s, b) <= (p + PagesOf(s.arenas[p])) * PGSIZE
    && (Room(s, b) >= s.live[b] <==> s.live[b] <= MAX_SIZE)
  }

  /** In every reachable state: the free lists are exactly the blocks not handed out, without
      repetition; the counts match; every arena has a block handed out; blocks handed out lie
      within the pages of their arenas, behind the header, do not overlap and have the room asked
      for, but for the eleven largest sizes; and no call a caller may make fails an assertion. */
  lemma AllocatorSafety(trace: seq<Heap>, events: seq<Event>, i: nat)
    requires IsRun(trace, events) && i < |trace|
    ensures var s := trace[i];
            && |s.free| == DESC_CNT && (forall d :: 0 <= d < DESC_CNT ==> ListOk(s, d))
            && (forall p :: p in s.arenas ==> ArenaOk(s, p) && exists b :: b in s.live && b / PGSIZE == p)
            && (forall b :: b in s.live ==> BlockSafe(s, b))
            && (forall a, b :: a in s.live && b in s.live && a < b ==> a / PGSIZE in s.arenas && a + Room(s, a) <= b)
            && (forall e :: Enabled(s, e) ==> Step(s, e).Done?)
  {
    EveryRunKeepsInv(trace, events, i);
    var s := trace[i];
    forall p | p in s.arenas
      ensures ArenaOk(s, p) && exists b :: b in s.live && b / PGSIZE == p
    {
      ArenaInService(s, p);
    }
    forall b | b in s.live
      ensures BlockSafe(s, b)
    {
      BlockInPages(s, b);
      LiveRoom(s, b);
    }
    forall a, b | a in s.live && b in s.live && a < b
      ensures a / PGSIZE in s.arenas && a + Room(s, a) <= b
    {
      LiveApart(s, a, b);
    }
    forall e | Enabled(s, e)
      ensures Step(s, e).Done?
    {
      StepKeeps(s, e);
    }
  }

  // ---- The code ------------------------------------------------------------------------------------

  lemma {:induction false} OffPageConcat(xs: seq<Address>, ys: seq<Address>, p: Page)
    ensures OffPage(xs + ys, p) == OffPage(xs, p) + OffPage(ys, p)
    decreases |xs|
  {
    if xs == [] {
      assert xs + ys == ys;
    } else {
      var rest := xs[1..];
      OffPageConcat(rest, ys, p);
      assert (xs + ys)[1..] == rest + ys;
      var head := if xs[0] / PGSIZE == p then [] else [xs[0]];
      assert head + (OffPage(rest, p) + OffPage(ys, p)) == (head + OffPage(rest, p)) + OffPage(ys, p);
    }
  }

  lemma {:induction false} OffPageNone(xs: seq<Address>, p: Page)
    requires forall i :: 0 <= i < |xs| ==> xs[i] / PGSIZE != p
    ensures OffPage(xs, p) == xs
    decreases |xs|
  {
    if xs != [] {
      OffPageNone(xs[1..], p);
    }
  }

  /** Taking one of its blocks off a list leaves the list off page as it was. */
  lemma {:induction false} WithoutOffPage(list: seq<Address>, b: Address)
    ensures OffPage(Without(list, b), b / PGSIZE) == OffPage(list, b / PGSIZE)
    decreases |list|
  {
    if list != [] && list[0] != b {
      WithoutOffPage(list[1..], b);
    }
  }

  /** The loop of free() that takes all blocks of an arena off the free list */
  method RetireBlocks(list: seq<Address>, p: Page, d: nat) returns (r: seq<Address>)
    requires Distinct(list) && forall i :: 0 <= i < PerArena(d) ==> BlockAt(p, d, i) in list
    requires forall b :: b in list && b / PGSIZE == p ==> Slot(d, b % PGSIZE)
    ensures r == OffPage(list, p)
  {
    hide Slot, BlockSize, PerArena, OffPage, BlockAt;
    r := list;
    var i := 0;
    while i < PerArena(d)
      invariant i <= PerArena(d) && Distinct(r) && OffPage(r, p) == OffPage(list, p)
      invariant forall x :: x in r ==> x in list
      invariant forall j :: i <= j < PerArena(d) ==> BlockAt(p, d, j) in r
      invariant forall j :: 0 <= j < i ==> BlockAt(p, d, j) !in r
    {
      BlockOnPage(p, d, i);
      WithoutOffPage(r, BlockAt(p, d, i));
      WithoutIs(r, BlockAt(p, d, i));
      r := ListRemove(r, BlockAt(p, d, i));
      forall j | i < j < PerArena(d)
        ensures BlockAt(p, d, j) != BlockAt(p, d, i)
      {
        SizePositive(d);
        BlocksApart(p, d, i, j);
      }
      i := i + 1;
    }
    forall k | 0 <= k < |r|
      ensures r[k] / PGSIZE != p
    {
      var b := r[k];
      if b / PGSIZE == p {
        SlotIsBlock(d, b);
      }
    }
    OffPageNone(r, p);
  }

  /** The loop of malloc() that lists the blocks of a new arena */
  method NewBlocks(list: seq<Address>, p: Page, d: nat, n: nat) returns (r: seq<Address>)
    ensures r == list + ArenaBlocks(p, d, n)
  {
    r := list;
    var i := 0;
    while i < n
      invariant i <= n && r == list + ArenaBlocks(p, d, i)
    {
      assert ArenaBlocks(p, d, i + 1) == ArenaBlocks(p, d, i) + [BlockAt(p, d, i)];
      r := r + [BlockAt(p, d, i)];
      i := i + 1;
    }
  }

  /** The search for the descriptor finds the least that is large enough. */
  lemma DescIs(size: nat, d: nat)
    requires d <= DESC_CNT && (forall e :: 0 <= e < d ==> BlockSize(e) < size) && (d < DESC_CNT ==> size <= BlockSize(d))
    ensures d == DescFor(size)
  {
    assert d > 0 ==> BlockSize(d - 1) < size;
  }

  /** Every block of an arena that has none handed out is on the list. */
  lemma AllListed(s: Heap, p: Page)
    requires Shape(s) && p in s.arenas && s.arenas[p].Small? && s.arenas[p].freeCnt == PerArena(s.arenas[p].desc)
    ensures var d := s.arenas[p].desc;
            && d < DESC_CNT && Distinct(s.free[d]) && (forall i :: 0 <= i < PerArena(d) ==> BlockAt(p, d, i) in s.free[d])
            && forall b :: b in s.free[d] && b / PGSIZE == p ==> Slot(d, b % PGSIZE)
  {
    hide Slot, BlockAt, BlockSize, PerArena;
    assert ArenaOk(s, p);
    var d := s.arenas[p].desc;
    assert ListOk(s, d);
    FreeAtMost(s, p);
    forall i | 0 <= i < PerArena(d)
      ensures BlockAt(p, d, i) in s.free[d]
    {
      BlockOnPage(p, d, i);
      assert IsBlock(s.arenas, d, BlockAt(p, d, i));
    }
  }

  datatype Desc = Desc(blockSize: nat, blocksPerArena: nat)

  class Allocator {
    var descs: seq<Desc>
    var free: seq<seq<Address>>       // the free lists of the descriptors
    var arenas: map<Page, Arena>
    ghost var live: map<Address, nat>

    ghost predicate Valid()
      reads this
    {
      && |descs| == |free| == DESC_CNT
      && forall d :: 0 <= d < DESC_CNT ==> descs[d] == Desc(BlockSize(d), PerArena(d))
    }

    ghost function View(): Heap
      reads this
    {
      Heap(arenas, free, live)
    }

    /** malloc_init() */
    constructor ()
      ensures Valid() && View() == Boot()
    {
      descs, free, arenas, live := [], [], map[], map[];
      new;
      var size := 16;
      while size < PGSIZE / 2
        invariant |descs| == |free| <= DESC_CNT && arenas == map[] && live == map[]
        invariant if |descs| < DESC_CNT then size == BlockSize(|descs|) else size == 2048
        invariant forall d :: 0 <= d < |descs| ==> descs[d] == Desc(BlockSize(d), PerArena(d)) && free[d] == []
        decreases DESC_CNT - |descs|
      {
        descs := descs + [Desc(size, (PGSIZE - HEADER) / size)];
        assert |descs| <= 10;
        free := free + [[]];
        size := size * 2;
      }
    }

    /** malloc() */
    method Malloc(size: nat, page: Option<Page>) returns (r: Option<Address>)
      requires Valid() && MallocSpec(View(), size, page).Done?
      modifies this`free, this`arenas, this`live
      ensures Valid() && Done(View(), r) == MallocSpec(old(View()), size, page)
    {
      if size == 0 {
        return None;
      }
      var d := 0;
      while d < |descs| && descs[d].blockSize < size
        invariant d <= |descs| && forall e :: 0 <= e < d ==> BlockSize(e) < size
      {
        d := d + 1;
      }
      DescIs(size, d);
      if d == |descs| {
        var pageCnt := (size + HEADER + PGSIZE - 1) % UINT_RANGE / PGSIZE;
        if page.None? || pageCnt == 0 {
          return None;
        }
        arenas := arenas[page.value := Big(pageCnt)];
        live := live[page.value * PGSIZE + HEADER := size];
        return Some(page.value * PGSIZE + HEADER);
      }
      r := FromList(size, d, page);
    }

    /** malloc() of a block of descriptor d */
    method FromList(size: nat, d: nat, page: Option<Page>) returns (r: Option<Address>)
      requires Valid() && 0 < size && d == DescFor(size) < DESC_CNT && MallocSpec(View(), size, page).Done?
      modifies this`free, this`arenas, this`live
      ensures Valid() && Done(View(), r) == MallocSpec(old(View()), size, page)
    {
      hide BlockSize, PerArena, BlockAt;
      if free[d] == [] {
        if page.None? {
          return None;
        }
        var a := page.value;
        arenas := arenas[a := Small(d, descs[d].blocksPerArena)];
        var blocks := NewBlocks(free[d], a, d, descs[d].blocksPerArena);
        free := free[d := blocks];
        SizePositive(d);
      }
      var b := free[d][0];
      free := free[d := free[d][1..]];
      var p := b / PGSIZE;
      arenas := arenas[p := arenas[p].(freeCnt := arenas[p].freeCnt - 1)];
      live := live[b := size];
      return Some(b);
    }

    /** free() of a null pointer, or of a block that was handed out */
    method Free(block: Option<Address>)
      requires Valid() && Inv(View()) && (block.Some? ==> block.value in live)
      modifies this`free, this`arenas, this`live
      ensures Valid()
      ensures Done(View(), None) == if block.None? then Done(old(View()), None) else FreeSpec(old(View()), block.value)
    {
      if block.Some? {
        FreeBlock(block.value);
      }
    }

    method FreeBlock(b: Address)
      requires Valid() && Inv(View()) && b in live
      modifies this`free, this`arenas, this`live
      ensures Valid() && Done(View(), None) == FreeSpec(old(View()), b)
    {
      hide Shape, Slot, BlockSize, PerArena, BlockAt, OffPage, FreeSpec;
      ghost var was := View();
      LiveIsOk(was, b);
      var p := b / PGSIZE;
      live := live - {b};
      if arenas[p].Small? {
        FreeSmallIs(was, b);
        ReturnedShape(was, b);
        FreeAtMost(Returned(was, b), p);
        var d := arenas[p].desc;
        free := free[d := [b] + free[d]];
        arenas := arenas[p := arenas[p].(freeCnt := arenas[p].freeCnt + 1)];
        if arenas[p].freeCnt >= descs[d].blocksPerArena {
          assert arenas[p].freeCnt == descs[d].blocksPerArena;
          AllListed(View(), p);
          var rest := RetireBlocks(free[d], p, d);
          free := free[d := rest];
          arenas := arenas - {p};
        }
      } else {
        FreeBigIs(was, b);
        arenas := arenas - {p};
      }
    }
  }
}
