/** The life of inodes: the free map of filesys/free-map.c, the open inode list and the open
    and write-denial counts of filesys/inode.c, and the file handles of filesys/file.c. */
module Inodes {
  import opened Bitmaps
  import opened Common

  type Sector = nat
  type InodeId = nat    // a struct inode *
  type HandleId = nat   // a reference to an inode: as handed out by inode_open(), or in a struct file

  /** struct inode_disk */
  datatype DiskInode = DiskInode(start: Sector, length: nat)

  function BytesToSectors(size: nat): nat {
    (size + SECTOR_SIZE - 1) / SECTOR_SIZE
  }

  // ---- The device ----------------------------------------------------------------------------

  /** The free map, the inodes on the device, and the sectors allocated for neither an inode
      nor its data (the two that the file system starts with, and those of inodes to be). */
  datatype Store = Store(freeMap: seq<bool>, live: map<Sector, DiskInode>, reserved: set<Sector>)

  /** free_map_allocate(): `written` tells whether the free map file could be written. */
  function Allocate(freeMap: seq<bool>, cnt: nat, written: bool): (seq<bool>, Option<Sector>) {
    var r := FirstFit(freeMap, 0, cnt, false);
    if r.None? then (freeMap, None)
    else
      var marked := Filled(freeMap, r.value, cnt, true);
      if written then (marked, r) else (Filled(marked, r.value, cnt, false), None)
  }

  /** free_map_release(); None stands for a failed assertion. */
  function Release(freeMap: seq<bool>, sector: Sector, cnt: nat): Option<seq<bool>> {
    if sector + cnt <= |freeMap| && AllAre(freeMap, sector, cnt, true) then Some(Filled(freeMap, sector, cnt, false))
    else None
  }

  /** filesys_create() gets a sector for the inode first, and gives it back if it fails. */
  function Reserve(st: Store, written: bool): Store {
    var (freeMap, r) := Allocate(st.freeMap, 1, written);
    if r.None? then st.(freeMap := freeMap) else st.(freeMap := freeMap, reserved := st.reserved + {r.value})
  }

  function Unreserve(st: Store, sector: Sector): Option<Store> {
    var r := Release(st.freeMap, sector, 1);
    if r.None? then None else Some(st.(freeMap := r.value, reserved := st.reserved - {sector}))
  }

  /** inode_create() */
  function Create(st: Store, sector: Sector, length: nat, memory: bool, written: bool): Store {
    if !memory then st
    else
      var (freeMap, r) := Allocate(st.freeMap, BytesToSectors(length), written);
      if r.None? then st.(freeMap := freeMap)
      else Store(freeMap, st.live[sector := DiskInode(r.value, length)], st.reserved - {sector})
  }

  /** What inode_close() does to the device for a removed inode */
  function Delete(st: Store, sector: Sector, data: DiskInode): Option<Store> {
    var r := Release(st.freeMap, sector, 1);
    if r.None? then None
    else
      var r' := Release(r.value, data.start, BytesToSectors(data.length));
      if r'.None? then None else Some(st.(freeMap := r'.value, live := st.live - {sector}))
  }

  // ---- What is kept about the device -----------------------------------------------------------

  ghost predicate InExtent(d: DiskInode, k: Sector) {
    d.start <= k < d.start + BytesToSectors(d.length)
  }

  /** Sector k belongs to the inode at s. */
  ghost predicate Owns(st: Store, s: Sector, k: Sector) {
    s in st.live && (k == s || InExtent(st.live[s], k))
  }

  ghost predicate InUse(st: Store, k: Sector) {
    k in st.reserved || exists s: Sector :: Owns(st, s, k)
  }

  ghost predicate ExtentOk(st: Store, s: Sector)
    requires s in st.live
  {
    !InExtent(st.live[s], s) && st.live[s].start + BytesToSectors(st.live[s].length) <= |st.freeMap|
  }

  /** Every sector has at most one use, and the free map has exactly the sectors in use. */
  ghost predicate StoreOk(st: Store) {
    && (forall s: Sector, s': Sector, k: Sector :: Owns(st, s, k) && Owns(st, s', k) ==> s == s')
    && (forall s: Sector, k: Sector :: Owns(st, s, k) ==> k !in st.reserved)
    && (forall s :: s in st.live ==> ExtentOk(st, s))
    && (forall k: Sector :: InUse(st, k) ==> k < |st.freeMap|)
    && (forall k :: 0 <= k < |st.freeMap| ==> (st.freeMap[k] <==> InUse(st, k)))
  }

  /** A failed allocation changes nothing, even when the map had to be rolled back; a successful
      one marks cnt sectors that were free. */
  lemma AllocateIs(freeMap: seq<bool>, cnt: nat, written: bool)
    ensures var (now, r) := Allocate(freeMap, cnt, written);
            && |now| == |freeMap| && (forall k :: 0 <= k < |freeMap| && freeMap[k] ==> now[k])
            && (r.None? ==> now == freeMap)
            && (r.Some? ==>
                  && r.value + cnt <= |freeMap| && AllAre(freeMap, r.value, cnt, false)
                  && now == Filled(freeMap, r.value, cnt, true))
  {
    FirstFitIs(freeMap, 0, cnt, false);
  }

  /** cnt free sectors in a row, from i on. */
  ghost predicate FreeRun(freeMap: seq<bool>, cnt: nat, i: nat) {
    i + cnt <= |freeMap| && forall k :: i <= k < i + cnt ==> !freeMap[k]
  }

  /** free_map_allocate() succeeds exactly when the free map file was written and there is a free run,
      and then gives the first one. */
  lemma AllocateSucceedsIff(freeMap: seq<bool>, cnt: nat, written: bool)
    ensures var (now, r) := Allocate(freeMap, cnt, written);
            && (r.Some? <==> written && exists i: nat :: FreeRun(freeMap, cnt, i))
            && (r.Some? ==> FreeRun(freeMap, cnt, r.value) && forall i: nat :: FreeRun(freeMap, cnt, i) ==> r.value <= i)
  {
    FirstFitIs(freeMap, 0, cnt, false);
    forall i: nat | i + cnt <= |freeMap|
      ensures FreeRun(freeMap, cnt, i) <==> AllAre(freeMap, i, cnt, false)
    {
    }
  }

  /** What inode_create() needs, to make an inode of length bytes. */
  ghost predicate CanCreate(freeMap: seq<bool>, length: nat, memory: bool, written: bool) {
    var n := (length + 511) / 512;
    memory && written && exists i: nat :: FreeRun(freeMap, n, i)
  }

  /** inode_create() puts an inode at the sector exactly when it has what it needs, with the length asked
      for and its data in the first free run; it changes no other inode. */
  lemma CreateSucceedsIff(st: Store, sector: Sector, length: nat, memory: bool, written: bool)
    requires sector !in st.live
    ensures var st', n := Create(st, sector, length, memory, written), (length + 511) / 512;
            && (sector in st'.live <==> CanCreate(st.freeMap, length, memory, written))
            && (sector in st'.live ==>
                  && st'.live == st.live[sector := st'.live[sector]] && st'.live[sector].length == length
                  && FreeRun(st.freeMap, n, st'.live[sector].start)
                  && forall i: nat :: FreeRun(st.freeMap, n, i) ==> st'.live[sector].start <= i)
  {
    AllocateSucceedsIff(st.freeMap, BytesToSectors(length), written);
  }

  /** A sector for an inode to be is reserved exactly when one is free and the map could be written. */
  lemma ReserveSucceedsIff(st: Store, written: bool)
    ensures var st' := Reserve(st, written);
            if written && exists i: nat :: FreeRun(st.freeMap, 1, i)
            then exists i: nat :: FreeRun(st.freeMap, 1, i) && st'.reserved == st.reserved + {i}
            else st'.reserved == st.reserved
  {
    AllocateSucceedsIff(st.freeMap, 1, written);
  }

  lemma ReserveKeeps(st: Store, written: bool)
    requires StoreOk(st)
    ensures StoreOk(Reserve(st, written)) && Reserve(st, written).live == st.live
  {
    AllocateIs(st.freeMap, 1, written);
    var st' := Reserve(st, written);
    assert forall s: Sector, k: Sector :: Owns(st', s, k) <==> Owns(st, s, k);
    var r := Allocate(st.freeMap, 1, written).1;
    if r.Some? {
      assert !st.freeMap[r.value];
      assert forall k: Sector :: InUse(st', k) <==> InUse(st, k) || k == r.value;
    } else {
      assert st' == st;
    }
  }

  lemma UnreserveKeeps(st: Store, sector: Sector)
    requires StoreOk(st) && sector in st.reserved
    ensures var r := Unreserve(st, sector);
            && r.Some? && StoreOk(r.value) && r.value.live == st.live && r.value.reserved == st.reserved - {sector}
            && sector < |st.freeMap| && r.value.freeMap == st.freeMap[sector := false]
  {
    assert InUse(st, sector);
    var st' := Unreserve(st, sector).value;
    assert forall s: Sector, k: Sector :: Owns(st', s, k) <==> Owns(st, s, k);
    assert forall k: Sector :: InUse(st', k) <==> InUse(st, k) && k != sector;
  }

  /** The new inode owns its sector and what was allocated, the others what they did. */
  lemma CreatedOwns(st: Store, st': Store, sector: Sector, d: DiskInode)
    requires sector !in st.live && st'.live == st.live[sector := d]
    ensures forall s: Sector, k: Sector :: Owns(st', s, k) <==> if s == sector then k == sector || InExtent(d, k) else Owns(st, s, k)
  {
  }

  lemma CreateKeeps(st: Store, sector: Sector, length: nat, memory: bool, written: bool)
    requires StoreOk(st) && sector in st.reserved
    ensures var st' := Create(st, sector, length, memory, written);
            && StoreOk(st')
            && (st' == st ||
                (&& sector !in st.live && sector in st'.live && st'.live[sector].length == length
                 && st'.live == st.live[sector := st'.live[sector]]))
  {
    var n := BytesToSectors(length);
    AllocateIs(st.freeMap, n, written);
    var st' := Create(st, sector, length, memory, written);
    var r := Allocate(st.freeMap, n, written).1;
    assert sector !in st.live by {
      assert sector in st.live ==> Owns(st, sector, sector);
    }
    if memory && r.Some? {
      CreateKeepsWith(st, st', sector, DiskInode(r.value, length));
    } else {
      assert st' == st;
    }
  }

  lemma CreateKeepsWith(st: Store, st': Store, sector: Sector, d: DiskInode)
    requires StoreOk(st) && sector in st.reserved && sector !in st.live
    requires d.start + BytesToSectors(d.length) <= |st.freeMap| && AllAre(st.freeMap, d.start, BytesToSectors(d.length), false)
    requires st' == Store(Filled(st.freeMap, d.start, BytesToSectors(d.length), true), st.live[sector := d], st.reserved - {sector})
    ensures StoreOk(st')
  {
    CreatedOwns(st, st', sector, d);
    assert forall k: Sector :: InExtent(d, k) ==> !st.freeMap[k] && !InUse(st, k);
    assert InUse(st, sector);
    forall k: Sector
      ensures InUse(st', k) <==> InUse(st, k) || InExtent(d, k)
    {
      if k == sector {
        assert Owns(st', sector, k);
      } else if InExtent(d, k) {
        assert Owns(st', sector, k);
      } else if k !in st.reserved && InUse(st, k) {
        var s: Sector :| Owns(st, s, k);
        assert Owns(st', s, k);
      }
    }
  }

  lemma DeleteKeeps(st: Store, sector: Sector)
    requires StoreOk(st) && sector in st.live
    ensures var r := Delete(st, sector, st.live[sector]);
            && r.Some? && StoreOk(r.value) && r.value.live == st.live - {sector} && |r.value.freeMap| == |st.freeMap|
            && forall k: Sector :: k < |st.freeMap| ==> r.value.freeMap[k] == (st.freeMap[k] && !Owns(st, sector, k))
  {
    var d := st.live[sector];
    forall k: Sector | k == sector || InExtent(d, k)
      ensures k < |st.freeMap| && st.freeMap[k]
    {
      assert Owns(st, sector, k);
      assert InUse(st, k);
    }
    var st' := Delete(st, sector, d).value;
    assert forall s: Sector, k: Sector :: Owns(st', s, k) <==> s != sector && Owns(st, s, k);
    forall k: Sector
      ensures InUse(st', k) <==> InUse(st, k) && !Owns(st, sector, k)
    {
      if InUse(st, k) && !Owns(st, sector, k) && k !in st.reserved {
        var s: Sector :| Owns(st, s, k);
        assert Owns(st', s, k);
      }
    }
  }

  // ---- Open inodes and their handles -----------------------------------------------------------

  /** struct inode */
  datatype Inode = Inode(sector: Sector, openCnt: int, removed: bool, denyCnt: int, data: DiskInode)

  /** A reference to an inode, and the deny_write flag if it is in a struct file. */
  datatype Handle = Handle(inode: InodeId, isFile: bool, deny: bool)

  datatype Table = Table(inodes: map<InodeId, Inode>, openList: seq<InodeId>, handles: map<HandleId, Handle>)

  /** The search of inode_open() through open_inodes */
  function Find(inodes: map<InodeId, Inode>, list: seq<InodeId>, sector: Sector): Option<InodeId> {
    if list == [] then None
    else if list[0] in inodes && inodes[list[0]].sector == sector then Some(list[0])
    else Find(inodes, list[1..], sector)
  }

  /** inode_reopen(), the new reference being h */
  function Reopened(t: Table, id: InodeId, h: HandleId): Table
    requires id in t.inodes
  {
    var i := t.inodes[id];
    t.(inodes := t.inodes[id := i.(openCnt := i.openCnt + 1)], handles := t.handles[h := Handle(id, false, false)])
  }

  function Opened(t: Table, id: InodeId, h: HandleId, sector: Sector, data: DiskInode): Table {
    Table(t.inodes[id := Inode(sector, 1, false, 0, data)], [id] + t.openList, t.handles[h := Handle(id, false, false)])
  }

  /** inode_open(); id is the memory a new struct inode gets, if there is any */
  function Open(t: Table, id: InodeId, h: HandleId, sector: Sector, data: DiskInode, memory: bool): Table {
    var r := Find(t.inodes, t.openList, sector);
    if r.Some? && r.value in t.inodes then Reopened(t, r.value, h)
    else if memory then Opened(t, id, h, sector, data)
    else t
  }

  /** What inode_close() does in memory */
  function Dropped(t: Table, h: HandleId): Table
    requires h in t.handles && t.handles[h].inode in t.inodes
  {
    var id := t.handles[h].inode;
    var i := t.inodes[id];
    if i.openCnt - 1 == 0 then Table(t.inodes - {id}, Without(t.openList, id), t.handles - {h})
    else t.(inodes := t.inodes[id := i.(openCnt := i.openCnt - 1)], handles := t.handles - {h})
  }

  ghost function Refs(handles: map<HandleId, Handle>, id: InodeId): set<HandleId> {
    set h | h in handles && handles[h].inode == id
  }

  ghost function Deniers(handles: map<HandleId, Handle>, id: InodeId): set<HandleId> {
    set h | h in handles && handles[h].inode == id && handles[h].deny
  }

  /** open_cnt counts the references and deny_write_cnt the files that deny writes. */
  ghost predicate CountsOk(i: Inode, handles: map<HandleId, Handle>, id: InodeId) {
    i.openCnt == |Refs(handles, id)| && i.openCnt > 0 && i.denyCnt == |Deniers(handles, id)|
  }

  /** There is one struct inode per open sector, it is on the list, and its counts are right. */
  ghost predicate TableOk(t: Table) {
    && Distinct(t.openList) && (forall id :: id in t.openList <==> id in t.inodes)
    && (forall id, id' :: id in t.inodes && id' in t.inodes && t.inodes[id].sector == t.inodes[id'].sector ==> id == id')
    && (forall h :: h in t.handles ==> t.handles[h].inode in t.inodes && (t.handles[h].deny ==> t.handles[h].isFile))
    && (forall id :: id in t.inodes ==> CountsOk(t.inodes[id], t.handles, id))
  }

  lemma {:induction false} FindIs(inodes: map<InodeId, Inode>, list: seq<InodeId>, sector: Sector)
    ensures var r := Find(inodes, list, sector);
            && (r.Some? ==> r.value in list && r.value in inodes && inodes[r.value].sector == sector)
            && (r.None? ==> forall id :: id in list && id in inodes ==> inodes[id].sector != sector)
    decreases |list|
  {
    if list != [] {
      FindIs(inodes, list[1..], sector);
    }
  }

  lemma CountsAdded(handles: map<HandleId, Handle>, h: HandleId, x: Handle, id: InodeId)
    requires h !in handles && !x.deny
    ensures var now := handles[h := x];
            && |Refs(now, id)| == |Refs(handles, id)| + (if x.inode == id then 1 else 0)
            && |Deniers(now, id)| == |Deniers(handles, id)|
  {
    assert Refs(handles[h := x], id) == if x.inode == id then Refs(handles, id) + {h} else Refs(handles, id);
    assert Deniers(handles[h := x], id) == Deniers(handles, id);
  }

  lemma CountsDropped(handles: map<HandleId, Handle>, h: HandleId, id: InodeId)
    requires h in handles && !handles[h].deny
    ensures var now := handles - {h};
            && |Refs(now, id)| == |Refs(handles, id)| - (if handles[h].inode == id then 1 else 0)
            && |Deniers(now, id)| == |Deniers(handles, id)|
  {
    assert Refs(handles - {h}, id) == Refs(handles, id) - {h};
    assert Deniers(handles - {h}, id) == Deniers(handles, id);
  }

  /** Changing the flags of a handle */
  lemma CountsChanged(handles: map<HandleId, Handle>, h: HandleId, x: Handle, id: InodeId)
    requires h in handles && x.inode == handles[h].inode
    ensures var now := handles[h := x];
            && |Refs(now, id)| == |Refs(handles, id)|
            && |Deniers(now, id)| == |Deniers(handles, id)| +
               if x.inode != id || x.deny == handles[h].deny then 0 else if x.deny then 1 else -1
  {
    var now := handles[h := x];
    assert Refs(now, id) == Refs(handles, id);
    if x.inode == id && x.deny {
      assert Deniers(now, id) == Deniers(handles, id) + {h};
    } else {
      assert Deniers(now, id) == Deniers(handles, id) - {h};
    }
  }

  lemma ReopenedKeeps(t: Table, id: InodeId, h: HandleId)
    requires TableOk(t) && id in t.inodes && h !in t.handles
    ensures TableOk(Reopened(t, id, h))
  {
    hide Refs, Deniers;
    forall x | x in t.inodes
      ensures CountsOk(Reopened(t, id, h).inodes[x], Reopened(t, id, h).handles, x)
    {
      assert CountsOk(t.inodes[x], t.handles, x);
      CountsAdded(t.handles, h, Handle(id, false, false), x);
    }
  }

  lemma NoneYet(t: Table, id: InodeId)
    requires TableOk(t) && id !in t.inodes
    ensures Refs(t.handles, id) == {} && Deniers(t.handles, id) == {}
  {
  }

  lemma OpenedKeeps(t: Table, id: InodeId, h: HandleId, sector: Sector, data: DiskInode)
    requires TableOk(t) && id !in t.inodes && h !in t.handles
    requires forall x :: x in t.inodes ==> t.inodes[x].sector != sector
    ensures TableOk(Opened(t, id, h, sector, data))
  {
    hide Refs, Deniers;
    NoneYet(t, id);
    var t' := Opened(t, id, h, sector, data);
    forall x | x in t'.inodes
      ensures CountsOk(t'.inodes[x], t'.handles, x)
    {
      CountsAdded(t.handles, h, Handle(id, false, false), x);
    }
  }

  lemma OpenKeeps(t: Table, id: InodeId, h: HandleId, sector: Sector, data: DiskInode, memory: bool)
    requires TableOk(t) && id !in t.inodes && h !in t.handles
    ensures TableOk(Open(t, id, h, sector, data, memory))
  {
    FindIs(t.inodes, t.openList, sector);
    var r := Find(t.inodes, t.openList, sector);
    if r.Some? {
      ReopenedKeeps(t, r.value, h);
    } else if memory {
      OpenedKeeps(t, id, h, sector, data);
    }
  }

  lemma LastDroppedKeeps(t: Table, h: HandleId)
    requires TableOk(t) && h in t.handles && !t.handles[h].deny && t.inodes[t.handles[h].inode].openCnt == 1
    ensures TableOk(Dropped(t, h))
  {
    var t', id := Dropped(t, h), t.handles[h].inode;
    WithoutIs(t.openList, id);
    forall x | x in t'.inodes
      ensures CountsOk(t'.inodes[x], t'.handles, x)
    {
      CountsDropped(t.handles, h, x);
    }
    CountsDropped(t.handles, h, id);
    assert Refs(t'.handles, id) == {};
    forall x | x in t'.handles
      ensures t'.handles[x].inode != id
    {
      assert x !in Refs(t'.handles, id);
    }
  }

  lemma DroppedKeeps(t: Table, h: HandleId)
    requires TableOk(t) && h in t.handles && !t.handles[h].deny
    ensures TableOk(Dropped(t, h))
  {
    var t', id := Dropped(t, h), t.handles[h].inode;
    if t.inodes[id].openCnt == 1 {
      LastDroppedKeeps(t, h);
    } else {
      forall x | x in t'.inodes
        ensures CountsOk(t'.inodes[x], t'.handles, x)
      {
        CountsDropped(t.handles, h, x);
      }
    }
  }

  // ---- The file system as a machine ----------------------------------------------------------

  datatype State = State(store: Store, table: Table)

  /** inode_close() of the reference h */
  function Close(s: State, h: HandleId): Option<State>
    requires h in s.table.handles && s.table.handles[h].inode in s.table.inodes
  {
    var i := s.table.inodes[s.table.handles[h].inode];
    if i.openCnt - 1 == 0 && i.removed then
      var r := Delete(s.store, i.sector, i.data);
      if r.None? then None else Some(State(r.value, Dropped(s.table, h)))
    else Some(s.(table := Dropped(s.table, h)))
  }

  /** file_open() of the reference h */
  function FileOpen(s: State, h: HandleId, memory: bool): Option<State>
    requires h in s.table.handles && s.table.handles[h].inode in s.table.inodes
  {
    if memory then Some(s.(table := s.table.(handles := s.table.handles[h := s.table.handles[h].(isFile := true, deny := false)])))
    else Close(s, h)
  }

  /** file_deny_write() and file_allow_write(), with the assertions of inode_deny_write() and
      inode_allow_write() */
  function SetDeny(t: Table, h: HandleId, deny: bool): Option<Table>
    requires h in t.handles && t.handles[h].inode in t.inodes
  {
    var id := t.handles[h].inode;
    var i := t.inodes[id];
    if t.handles[h].deny == deny then Some(t)
    else
      var n := if deny then i.denyCnt + 1 else i.denyCnt - 1;
      if deny && n > i.openCnt then None
      else if !deny && !(0 < i.denyCnt <= i.openCnt) then None
      else Some(t.(inodes := t.inodes[id := i.(denyCnt := n)], handles := t.handles[h := t.handles[h].(deny := deny)]))
  }

  /** file_close() */
  function FileClose(s: State, h: HandleId): Option<State>
    requires h in s.table.handles && s.table.handles[h].inode in s.table.inodes
  {
    var r := SetDeny(s.table, h, false);
    if r.None? then None else Close(s.(table := r.value), h)
  }

  datatype Event =
    | EReserve(written: bool)
    | EUnreserve(sector: Sector)
    | ECreate(sector: Sector, length: nat, memory: bool, written: bool)
    | EOpen(sector: Sector, id: InodeId, h: HandleId, memory: bool)
    | EReopen(h: HandleId, h': HandleId)
    | EClose(h: HandleId)
    | ERemove(h: HandleId)
    | EFileOpen(h: HandleId, memory: bool)
    | EFileReopen(h: HandleId, h': HandleId, memory: bool)
    | EFileClose(h: HandleId)
    | EDeny(h: HandleId, deny: bool)

  ghost predicate IsHandle(t: Table, h: HandleId, isFile: bool) {
    h in t.handles && t.handles[h].inode in t.inodes && t.handles[h].isFile == isFile
  }

  /** Callers pass references they hold, and open sectors that hold an inode. */
  ghost predicate Enabled(s: State, e: Event) {
    match e
    case EReserve(_) => true
    case EUnreserve(sector) => sector in s.store.reserved
    case ECreate(sector, _, _, _) => sector in s.store.reserved
    case EOpen(sector, id, h, _) => sector in s.store.live && id !in s.table.inodes && h !in s.table.handles
    case EReopen(h, h') => IsHandle(s.table, h, false) && h' !in s.table.handles
    case EClose(h) => IsHandle(s.table, h, false)
    case ERemove(h) => IsHandle(s.table, h, false) || IsHandle(s.table, h, true)
    case EFileOpen(h, _) => IsHandle(s.table, h, false)
    case EFileReopen(h, h', _) => IsHandle(s.table, h, true) && h' !in s.table.handles
    case EFileClose(h) => IsHandle(s.table, h, true)
    case EDeny(h, _) => IsHandle(s.table, h, true)
  }

  /** None stands for a failed assertion. */
  function Step(s: State, e: Event): Option<State>
    requires Enabled(s, e)
  {
    match e
    case EReserve(written) => Some(s.(store := Reserve(s.store, written)))
    case EUnreserve(sector) =>
      var r := Unreserve(s.store, sector);
      if r.None? then None else Some(s.(store := r.value))
    case ECreate(sector, length, memory, written) => Some(s.(store := Create(s.store, sector, length, memory, written)))
    case EOpen(sector, id, h, memory) => Some(s.(table := Open(s.table, id, h, sector, s.store.live[sector], memory)))
    case EReopen(h, h') => Some(s.(table := Reopened(s.table, s.table.handles[h].inode, h')))
    case EClose(h) => Close(s, h)
    case ERemove(h) =>
      var id := s.table.handles[h].inode;
      Some(s.(table := s.table.(inodes := s.table.inodes[id := s.table.inodes[id].(removed := true)])))
    case EFileOpen(h, memory) => FileOpen(s, h, memory)
    case EFileReopen(h, h', memory) => FileOpen(s.(table := Reopened(s.table, s.table.handles[h].inode, h')), h', memory)
    case EFileClose(h) => FileClose(s, h)
    case EDeny(h, deny) =>
      var r := SetDeny(s.table, h, deny);
      if r.None? then None else Some(s.(table := r.value))
  }

  /** Every open inode is one that lives on the device, and a copy of it. */
  ghost predicate Matches(st: Store, t: Table) {
    forall id :: id in t.inodes ==> t.inodes[id].sector in st.live && t.inodes[id].data == st.live[t.inodes[id].sector]
  }

  ghost predicate Inv(s: State) {
    StoreOk(s.store) && TableOk(s.table) && Matches(s.store, s.table)
  }

  lemma DeletedMatches(st: Store, st': Store, t: Table, h: HandleId)
    requires TableOk(t) && Matches(st, t) && h in t.handles && t.inodes[t.handles[h].inode].openCnt == 1
    requires st'.live == st.live - {t.inodes[t.handles[h].inode].sector}
    ensures Matches(st', Dropped(t, h))
  {
  }

  lemma DroppedMatches(st: Store, t: Table, h: HandleId)
    requires Matches(st, t) && h in t.handles && t.handles[h].inode in t.inodes
    ensures Matches(st, Dropped(t, h))
  {
  }

  lemma CloseKeeps(s: State, h: HandleId)
    requires Inv(s) && h in s.table.handles && s.table.handles[h].inode in s.table.inodes && !s.table.handles[h].deny
    ensures Close(s, h).Some? && Inv(Close(s, h).value)
  {
    hide StoreOk, TableOk, Dropped, Delete;
    DroppedKeeps(s.table, h);
    var i := s.table.inodes[s.table.handles[h].inode];
    if i.openCnt == 1 && i.removed {
      DeleteKeeps(s.store, i.sector);
      DeletedMatches(s.store, Delete(s.store, i.sector, i.data).value, s.table, h);
    } else {
      DroppedMatches(s.store, s.table, h);
    }
  }

  lemma FlagsKeep(t: Table, h: HandleId, x: Handle, i: Inode)
    requires TableOk(t) && h in t.handles && x.inode == t.handles[h].inode && (x.deny ==> x.isFile)
    requires i == t.inodes[x.inode].(denyCnt := i.denyCnt)
    requires i.denyCnt == t.inodes[x.inode].denyCnt + if x.deny == t.handles[h].deny then 0 else if x.deny then 1 else -1
    ensures TableOk(t.(inodes := t.inodes[x.inode := i], handles := t.handles[h := x]))
  {
    hide Refs, Deniers;
    var t' := t.(inodes := t.inodes[x.inode := i], handles := t.handles[h := x]);
    forall id | id in t'.inodes
      ensures CountsOk(t'.inodes[id], t'.handles, id)
    {
      CountsChanged(t.handles, h, x, id);
    }
  }

  /** Denials are at most as many as references, and a denier leaves room to take it back. */
  lemma DeniersBelowRefs(t: Table, h: HandleId)
    requires TableOk(t) && h in t.handles
    ensures var i := t.inodes[t.handles[h].inode];
            && 0 <= i.denyCnt <= i.openCnt
            && (t.handles[h].deny ==> 0 < i.denyCnt) && (!t.handles[h].deny ==> i.denyCnt < i.openCnt)
  {
    var id := t.handles[h].inode;
    var refs, deniers := Refs(t.handles, id), Deniers(t.handles, id);
    assert h in refs;
    Subset(deniers, refs);
    if t.handles[h].deny {
      assert h in deniers;
    } else {
      Subset(deniers + {h}, refs);
    }
  }

  lemma Subset(a: set<HandleId>, b: set<HandleId>)
    requires a <= b
    ensures |a| <= |b|
  {
    assert a + (b - a) == b;
  }

  lemma SetDenyKeeps(t: Table, h: HandleId, deny: bool)
    requires TableOk(t) && IsHandle(t, h, true)
    ensures var r := SetDeny(t, h, deny);
            && r.Some? && TableOk(r.value) && r.value.inodes.Keys == t.inodes.Keys
            && h in r.value.handles && r.value.handles[h] == t.handles[h].(deny := deny)
            && (forall id :: id in t.inodes ==> r.value.inodes[id] == t.inodes[id].(denyCnt := r.value.inodes[id].denyCnt))
  {
    hide TableOk, CountsOk;
    DeniersBelowRefs(t, h);
    var i := t.inodes[t.handles[h].inode];
    if t.handles[h].deny != deny {
      FlagsKeep(t, h, t.handles[h].(deny := deny), i.(denyCnt := if deny then i.denyCnt + 1 else i.denyCnt - 1));
    }
  }

  lemma FileOpenKeeps(s: State, h: HandleId, memory: bool)
    requires Inv(s) && IsHandle(s.table, h, false) && !s.table.handles[h].deny
    ensures FileOpen(s, h, memory).Some? && Inv(FileOpen(s, h, memory).value)
  {
    hide StoreOk, TableOk, Close;
    if memory {
      var t, x := s.table, s.table.handles[h].(isFile := true, deny := false);
      FlagsKeep(t, h, x, t.inodes[x.inode]);
      assert t.(inodes := t.inodes[x.inode := t.inodes[x.inode]], handles := t.handles[h := x]) == t.(handles := t.handles[h := x]);
    } else {
      CloseKeeps(s, h);
    }
  }

  lemma FileCloseKeeps(s: State, h: HandleId)
    requires Inv(s) && IsHandle(s.table, h, true)
    ensures FileClose(s, h).Some? && Inv(FileClose(s, h).value)
  {
    hide StoreOk, TableOk, Close, SetDeny;
    SetDenyKeeps(s.table, h, false);
    CloseKeeps(s.(table := SetDeny(s.table, h, false).value), h);
  }

  lemma OpenMatches(st: Store, t: Table, id: InodeId, h: HandleId, sector: Sector, memory: bool)
    requires Matches(st, t) && sector in st.live
    ensures Matches(st, Open(t, id, h, sector, st.live[sector], memory))
  {
  }

  lemma RemovedKeeps(t: Table, id: InodeId)
    requires TableOk(t) && id in t.inodes
    ensures TableOk(t.(inodes := t.inodes[id := t.inodes[id].(removed := true)]))
  {
    var t' := t.(inodes := t.inodes[id := t.inodes[id].(removed := true)]);
    forall x | x in t'.inodes
      ensures CountsOk(t'.inodes[x], t'.handles, x)
    {
      assert CountsOk(t.inodes[x], t.handles, x);
    }
  }

  lemma RawDoesNotDeny(t: Table, h: HandleId)
    requires TableOk(t) && IsHandle(t, h, false)
    ensures !t.handles[h].deny
  {
  }

  /** The steps on the device */
  lemma StoreStepKeeps(s: State, e: Event)
    requires Inv(s) && Enabled(s, e) && (e.EReserve? || e.EUnreserve? || e.ECreate?)
    ensures Step(s, e).Some? && Inv(Step(s, e).value)
  {
    hide StoreOk, TableOk, Reserve, Unreserve, Create;
    match e
    case EReserve(written) => ReserveKeeps(s.store, written);
    case EUnreserve(sector) => UnreserveKeeps(s.store, sector);
    case ECreate(sector, length, memory, written) => CreateKeeps(s.store, sector, length, memory, written);
  }

  /** No step fails an assertion, and every step keeps the invariant. */
  lemma StepKeeps(s: State, e: Event)
    requires Inv(s) && Enabled(s, e)
    ensures Step(s, e).Some? && Inv(Step(s, e).value)
  {
    hide StoreOk, TableOk, Close, FileOpen, FileClose, SetDeny, Open, CountsOk;
    match e
    case EOpen(sector, id, h, memory) =>
      OpenKeeps(s.table, id, h, sector, s.store.live[sector], memory);
      OpenMatches(s.store, s.table, id, h, sector, memory);
    case EReopen(h, h') =>
      ReopenedKeeps(s.table, s.table.handles[h].inode, h');
    case EClose(h) =>
      RawDoesNotDeny(s.table, h);
      CloseKeeps(s, h);
    case ERemove(h) =>
      RemovedKeeps(s.table, s.table.handles[h].inode);
    case EFileOpen(h, memory) =>
      RawDoesNotDeny(s.table, h);
      FileOpenKeeps(s, h, memory);
    case EFileReopen(h, h', memory) =>
      ReopenedKeeps(s.table, s.table.handles[h].inode, h');
      FileOpenKeeps(s.(table := Reopened(s.table, s.table.handles[h].inode, h')), h', memory);
    case EFileClose(h) =>
      FileCloseKeeps(s, h);
    case EDeny(h, deny) =>
      SetDenyKeeps(s.table, h, deny);
    case _ =>
      StoreStepKeeps(s, e);
  }

  // ---- Every run -----------------------------------------------------------------------------

  /** After free_map_init(): nothing but the sectors of the free map and the root directory. */
  ghost predicate Boot(s: State) {
    && |s.store.freeMap| >= 2 && s.store.live == map[] && s.store.reserved == {0, 1}
    && (forall k :: 0 <= k < |s.store.freeMap| ==> (s.store.freeMap[k] <==> k < 2))
    && s.table == Table(map[], [], map[])
  }

  ghost predicate StepsAt(trace: seq<State>, events: seq<Event>, i: nat)
    requires i < |events| < |trace|
  {
    Enabled(trace[i], events[i]) && Step(trace[i], events[i]) == Some(trace[i + 1])
  }

  ghost predicate IsRun(trace: seq<State>, events: seq<Event>) {
    && |trace| == |events| + 1 && Boot(trace[0])
    && forall i :: 0 <= i < |events| ==> StepsAt(trace, events, i)
  }

  lemma {:induction false} EveryRunKeepsInv(trace: seq<State>, events: seq<Event>, i: nat)
    requires IsRun(trace, events) && i < |trace|
    ensures Inv(trace[i])
    decreases i
  {
    hide StoreOk, TableOk, Step;
    if i == 0 {
      BootInv(trace[0]);
    } else {
      EveryRunKeepsInv(trace, events, i - 1);
      assert StepsAt(trace, events, i - 1);
      StepKeeps(trace[i - 1], events[i - 1]);
    }
  }

  lemma BootInv(s: State)
    requires Boot(s)
    ensures Inv(s)
  {
    assert forall x: Sector, k: Sector :: !Owns(s.store, x, k);
  }

  /** In every reachable state: there is at most one struct inode per sector; open_cnt is the
      number of references and deny_write_cnt the number of denying files, never more; inodes
      own disjoint sectors; the free map marks exactly the sectors in use; and no operation a
      caller may perform fails an assertion. */
  lemma InodeSafety(trace: seq<State>, events: seq<Event>, i: nat)
    requires IsRun(trace, events) && i < |trace|
    ensures var st, t := trace[i].store, trace[i].table;
            && (forall a, b :: a in t.inodes && b in t.inodes && t.inodes[a].sector == t.inodes[b].sector ==> a == b)
            && (forall a :: a in t.inodes ==>
                  && t.inodes[a].openCnt == |Refs(t.handles, a)| && t.inodes[a].denyCnt == |Deniers(t.handles, a)|
                  && 0 <= t.inodes[a].denyCnt <= t.inodes[a].openCnt)
            && (forall x: Sector, y: Sector, k: Sector :: Owns(st, x, k) && Owns(st, y, k) ==> x == y)
            && (forall k :: 0 <= k < |st.freeMap| ==> (st.freeMap[k] <==> InUse(st, k)))
            && (forall e :: Enabled(trace[i], e) ==> Step(trace[i], e).Some?)
  {
    EveryRunKeepsInv(trace, events, i);
    var st, t := trace[i].store, trace[i].table;
    forall a | a in t.inodes
      ensures t.inodes[a].denyCnt <= t.inodes[a].openCnt
    {
      assert CountsOk(t.inodes[a], t.handles, a);
      Subset(Deniers(t.handles, a), Refs(t.handles, a));
    }
    forall e | Enabled(trace[i], e)
      ensures Step(trace[i], e).Some?
    {
      StepKeeps(trace[i], e);
    }
  }

  // ---- Who refers to what ----------------------------------------------------------------------

  /** The open inode of a sector, if there is one. */
  ghost predicate IsOpen(t: Table, sector: Sector, id: InodeId) {
    id in t.inodes && t.inodes[id].sector == sector
  }

  /** What each event does to the references that callers hold; open_cnt and deny_write_cnt count them. */
  ghost predicate RefersAfter(t: Table, e: Event, t': Table) {
    match e
    case EOpen(sector, id, h, memory) =>
      if memory || exists x :: IsOpen(t, sector, x) then
        && t'.handles.Keys == t.handles.Keys + {h} && IsOpen(t', sector, t'.handles[h].inode)
        && !t'.handles[h].isFile && !t'.handles[h].deny
        && forall g :: g in t.handles && g != h ==> t'.handles[g] == t.handles[g]
      else t' == t
    case EReopen(h, h') => h in t.handles && t'.handles == t.handles[h' := Handle(t.handles[h].inode, false, false)]
    case EClose(h) => t'.handles == t.handles - {h}
    case EFileOpen(h, memory) =>
      h in t.handles && t'.handles == if memory then t.handles[h := Handle(t.handles[h].inode, true, false)] else t.handles - {h}
    case EFileReopen(h, h', memory) =>
      h in t.handles && t'.handles == if memory then t.handles[h' := Handle(t.handles[h].inode, true, false)] else t.handles
    case EFileClose(h) => t'.handles == t.handles - {h}
    case EDeny(h, deny) => h in t.handles && t'.handles == t.handles[h := t.handles[h].(deny := deny)]
    case _ => t'.handles == t.handles
  }

  lemma CloseRefers(s: State, h: HandleId)
    requires h in s.table.handles && s.table.handles[h].inode in s.table.inodes && Close(s, h).Some?
    ensures Close(s, h).value.table.handles == s.table.handles - {h}
  {
    hide Delete;
  }

  lemma OpenRefers(t: Table, id: InodeId, h: HandleId, sector: Sector, data: DiskInode, memory: bool)
    requires TableOk(t) && id !in t.inodes && h !in t.handles
    ensures RefersAfter(t, EOpen(sector, id, h, memory), Open(t, id, h, sector, data, memory))
  {
    FindIs(t.inodes, t.openList, sector);
    var r := Find(t.inodes, t.openList, sector);
    if r.Some? {
      assert IsOpen(t, sector, r.value);
    }
  }

  lemma FileReopenRefers(s: State, h: HandleId, h': HandleId, memory: bool)
    requires Enabled(s, EFileReopen(h, h', memory)) && Step(s, EFileReopen(h, h', memory)).Some?
    ensures RefersAfter(s.table, EFileReopen(h, h', memory), Step(s, EFileReopen(h, h', memory)).value.table)
  {
    hide Close;
    var s1 := s.(table := Reopened(s.table, s.table.handles[h].inode, h'));
    if !memory {
      CloseRefers(s1, h');
      assert s1.table.handles - {h'} == s.table.handles;
    }
  }

  lemma FileCloseRefers(s: State, h: HandleId)
    requires Inv(s) && IsHandle(s.table, h, true) && FileClose(s, h).Some?
    ensures FileClose(s, h).value.table.handles == s.table.handles - {h}
  {
    hide Close;
    var t1 := SetDeny(s.table, h, false).value;
    CloseRefers(s.(table := t1), h);
    assert t1.handles - {h} == s.table.handles - {h};
  }

  /** Every event does to the references exactly what it is for: an open sector is opened again by the
      same inode, an unopened one by a new one if there is memory; closing drops exactly one reference. */
  lemma StepRefers(s: State, e: Event)
    requires Inv(s) && Enabled(s, e)
    ensures Step(s, e).Some? && RefersAfter(s.table, e, Step(s, e).value.table)
  {
    StepKeeps(s, e);
    hide Open, Close, FileClose, SetDeny, Reserve, Unreserve, Create, StoreOk, Matches, TableOk;
    match e
    case EOpen(sector, id, h, memory) => OpenRefers(s.table, id, h, sector, s.store.live[sector], memory);
    case EClose(h) => CloseRefers(s, h);
    case EFileOpen(h, memory) => if !memory { CloseRefers(s, h); }
    case EFileReopen(h, h', memory) => FileReopenRefers(s, h, h', memory);
    case EFileClose(h) => FileCloseRefers(s, h);
    case EDeny(h, deny) => DenyRefers(s.table, h, deny);
    case _ =>
  }

  lemma DenyRefers(t: Table, h: HandleId, deny: bool)
    requires h in t.handles && t.handles[h].inode in t.inodes && SetDeny(t, h, deny).Some?
    ensures RefersAfter(t, EDeny(h, deny), SetDeny(t, h, deny).value)
  {
    assert t.handles[h := t.handles[h]] == t.handles;
  }

  /** In every run, inode_create() succeeds exactly when memory, the map file and a long enough free run
      are there, and every event does to the references what it is for. */
  lemma EveryRunServes(trace: seq<State>, events: seq<Event>, i: nat)
    requires IsRun(trace, events) && i < |events|
    ensures RefersAfter(trace[i].table, events[i], trace[i + 1].table)
    ensures var e, st := events[i], trace[i].store;
            e.ECreate? ==> (e.sector in trace[i + 1].store.live <==> CanCreate(st.freeMap, e.length, e.memory, e.written))
  {
    EveryRunKeepsInv(trace, events, i);
    assert StepsAt(trace, events, i);
    hide RefersAfter, CanCreate, Create, TableOk;
    var s, e := trace[i], events[i];
    StepRefers(s, e);
    if e.ECreate? {
      ReservedNotLive(s.store, e.sector);
      CreateSucceedsIff(s.store, e.sector, e.length, e.memory, e.written);
    }
  }

  // ---- When sectors are given back -------------------------------------------------------------

  /** The reference that a step closes for good. */
  function Closed(e: Event): Option<HandleId> {
    match e
    case EClose(h) => Some(h)
    case EFileClose(h) => Some(h)
    case EFileOpen(h, memory) => if memory then None else Some(h)
    case _ => None
  }

  /** The step closes the last reference to the removed inode at x. */
  ghost predicate LastClose(s: State, e: Event, x: Sector) {
    && Closed(e).Some? && Closed(e).value in s.table.handles && s.table.handles[Closed(e).value].inode in s.table.inodes
    && var i := s.table.inodes[s.table.handles[Closed(e).value].inode];
       i.sector == x && i.openCnt == 1 && i.removed
  }

  ghost predicate Freed(st: Store, st': Store, k: Sector) {
    k < |st.freeMap| && st.freeMap[k] && !(k < |st'.freeMap| && st'.freeMap[k])
  }

  /** Deleting the inode at x frees what it owns, and nothing else. */
  ghost predicate OnlyFrees(st: Store, st': Store, x: Sector) {
    && x in st.live && st'.live == st.live - {x}
    && forall k: Sector :: Freed(st, st', k) <==> Owns(st, x, k)
  }

  ghost predicate FreesNothing(st: Store, st': Store) {
    (forall x :: x in st.live ==> x in st'.live) && forall k: Sector :: !Freed(st, st', k)
  }

  lemma DeleteFrees(st: Store, x: Sector)
    requires StoreOk(st) && x in st.live && Delete(st, x, st.live[x]).Some?
    ensures OnlyFrees(st, Delete(st, x, st.live[x]).value, x)
  {
    DeleteKeeps(st, x);
    var st' := Delete(st, x, st.live[x]).value;
    forall k: Sector
      ensures Freed(st, st', k) <==> Owns(st, x, k)
    {
      assert Owns(st, x, k) ==> InUse(st, k);
    }
  }

  lemma CloseFrees(s: State, h: HandleId)
    requires Inv(s) && h in s.table.handles && s.table.handles[h].inode in s.table.inodes && Close(s, h).Some?
    ensures var i := s.table.inodes[s.table.handles[h].inode];
            if i.openCnt == 1 && i.removed then OnlyFrees(s.store, Close(s, h).value.store, i.sector)
            else Close(s, h).value.store == s.store
  {
    hide StoreOk, TableOk, Delete, OnlyFrees, Dropped;
    var i := s.table.inodes[s.table.handles[h].inode];
    if i.openCnt == 1 && i.removed {
      DeleteFrees(s.store, i.sector);
    }
  }

  lemma FileCloseFrees(s: State, h: HandleId)
    requires Inv(s) && IsHandle(s.table, h, true) && FileClose(s, h).Some?
    ensures var i := s.table.inodes[s.table.handles[h].inode];
            if i.openCnt == 1 && i.removed then OnlyFrees(s.store, FileClose(s, h).value.store, i.sector)
            else FileClose(s, h).value.store == s.store
  {
    hide StoreOk, TableOk, Close, SetDeny, OnlyFrees;
    SetDenyKeeps(s.table, h, false);
    CloseFrees(s.(table := SetDeny(s.table, h, false).value), h);
  }

  lemma FailedReopenFrees(s: State, h: HandleId, h': HandleId)
    requires Inv(s) && Enabled(s, EFileReopen(h, h', false)) && Step(s, EFileReopen(h, h', false)).Some?
    ensures Step(s, EFileReopen(h, h', false)).value.store == s.store
  {
    hide StoreOk;
    assert CountsOk(s.table.inodes[s.table.handles[h].inode], s.table.handles, s.table.handles[h].inode);
  }

  lemma AllocationFreesNothing(s: State, e: Event)
    requires Enabled(s, e) && (e.EReserve? || e.ECreate?)
    ensures FreesNothing(s.store, Step(s, e).value.store)
  {
    hide Allocate;
    if e.EReserve? {
      AllocateIs(s.store.freeMap, 1, e.written);
    } else {
      AllocateIs(s.store.freeMap, BytesToSectors(e.length), e.written);
    }
  }

  /** A removed inode's sectors are given back at the close of its last reference, all of them
      and nothing else; no other step, but giving back a sector that no inode was made in, gives
      back any. */
  lemma ReleasedAtLastClose(s: State, e: Event)
    requires Inv(s) && Enabled(s, e)
    ensures Step(s, e).Some?
    ensures forall x: Sector :: LastClose(s, e, x) ==> OnlyFrees(s.store, Step(s, e).value.store, x)
    ensures !e.EUnreserve? && (forall x: Sector :: !LastClose(s, e, x)) ==> FreesNothing(s.store, Step(s, e).value.store)
    ensures e.EUnreserve? ==> Step(s, e).value.store.live == s.store.live
    ensures e.EUnreserve? ==> forall k: Sector :: Freed(s.store, Step(s, e).value.store, k) ==> k == e.sector && k in s.store.reserved
  {
    hide StoreOk, TableOk, Close, FileClose, OnlyFrees, Open, Reopened, SetDeny, Reserve, Create;
    StepKeeps(s, e);
    match e
    case EClose(h) =>
      CloseFrees(s, h);
      assert LastClose(s, e, s.table.inodes[s.table.handles[h].inode].sector) || Step(s, e).value.store == s.store;
    case EFileClose(h) =>
      FileCloseFrees(s, h);
      assert LastClose(s, e, s.table.inodes[s.table.handles[h].inode].sector) || Step(s, e).value.store == s.store;
    case EFileOpen(h, memory) =>
      if !memory {
        CloseFrees(s, h);
        assert LastClose(s, e, s.table.inodes[s.table.handles[h].inode].sector) || Step(s, e).value.store == s.store;
      }
    case EFileReopen(h, h', memory) =>
      if !memory {
        FailedReopenFrees(s, h, h');
      }
    case EReserve(_) =>
      AllocationFreesNothing(s, e);
    case ECreate(_, _, _, _) =>
      AllocationFreesNothing(s, e);
    case _ =>
  }

  /** The inode is still open, for the same sector, and removed if it was. */
  ghost predicate StaysOpen(t: Table, t': Table, id: InodeId)
    requires id in t.inodes
  {
    id in t'.inodes && t'.inodes[id].sector == t.inodes[id].sector && t'.inodes[id].removed == t.inodes[id].removed
  }

  lemma DroppedStays(t: Table, h: HandleId, id: InodeId)
    requires h in t.handles && t.handles[h].inode in t.inodes && id in t.inodes
    ensures if t.handles[h].inode == id && t.inodes[id].openCnt == 1 then id !in Dropped(t, h).inodes
            else StaysOpen(t, Dropped(t, h), id)
  {
    hide Without;
  }

  lemma OpenStays(t: Table, new_: InodeId, h: HandleId, sector: Sector, data: DiskInode, memory: bool, id: InodeId)
    requires id in t.inodes && new_ !in t.inodes
    ensures StaysOpen(t, Open(t, new_, h, sector, data, memory), id)
  {
    hide Find;
  }

  lemma CloseStays(s: State, h: HandleId, id: InodeId)
    requires h in s.table.handles && s.table.handles[h].inode in s.table.inodes && id in s.table.inodes && Close(s, h).Some?
    ensures var t' := Close(s, h).value.table;
            if s.table.handles[h].inode == id && s.table.inodes[id].openCnt == 1 then id !in t'.inodes
            else StaysOpen(s.table, t', id)
  {
    hide Delete, Dropped, StaysOpen;
    DroppedStays(s.table, h, id);
  }

  lemma FileCloseStays(s: State, h: HandleId, id: InodeId)
    requires Inv(s) && IsHandle(s.table, h, true) && id in s.table.inodes && FileClose(s, h).Some?
    ensures var t' := FileClose(s, h).value.table;
            if s.table.handles[h].inode == id && s.table.inodes[id].openCnt == 1 then id !in t'.inodes
            else StaysOpen(s.table, t', id)
  {
    hide StoreOk, TableOk, Matches, Close, SetDeny;
    SetDenyKeeps(s.table, h, false);
    CloseStays(s.(table := SetDeny(s.table, h, false).value), h, id);
  }

  lemma FileReopenStays(s: State, h: HandleId, h': HandleId, memory: bool, id: InodeId)
    requires Inv(s) && Enabled(s, EFileReopen(h, h', memory)) && id in s.table.inodes && Step(s, EFileReopen(h, h', memory)).Some?
    ensures StaysOpen(s.table, Step(s, EFileReopen(h, h', memory)).value.table, id)
  {
    hide StoreOk, Matches, Close;
    var id' := s.table.handles[h].inode;
    assert CountsOk(s.table.inodes[id'], s.table.handles, id');
    if !memory {
      CloseStays(s.(table := Reopened(s.table, id', h')), h', id);
    }
  }

  /** Removal is remembered: a removed inode stays removed as long as it is open, and goes only by
      the close that frees its sectors; nothing but inode_remove() removes. */
  lemma RemovalIsPending(s: State, e: Event, id: InodeId)
    requires Inv(s) && Enabled(s, e) && id in s.table.inodes
    ensures Step(s, e).Some?
    ensures var i, t' := s.table.inodes[id], Step(s, e).value.table;
            if e.ERemove? && s.table.handles[e.h].inode == id then id in t'.inodes && t'.inodes[id] == i.(removed := true)
            else if id in t'.inodes then t'.inodes[id].removed == i.removed && t'.inodes[id].sector == i.sector
            else i.removed ==> LastClose(s, e, i.sector)
  {
    hide StoreOk, TableOk, Matches, Open, Close, FileClose, Reserve, Unreserve, Create;
    StepKeeps(s, e);
    match e
    case EOpen(sector, new_, h, memory) =>
      OpenStays(s.table, new_, h, sector, s.store.live[sector], memory, id);
    case EClose(h) =>
      CloseStays(s, h, id);
    case EFileClose(h) =>
      FileCloseStays(s, h, id);
    case EFileOpen(h, memory) =>
      if !memory {
        CloseStays(s, h, id);
      }
    case EFileReopen(h, h', memory) =>
      FileReopenStays(s, h, h', memory, id);
    case _ =>
  }

  // ---- Removal, over runs ------------------------------------------------------------------------

  /** Inode id is open and removed; it lives at x, with data d. */
  ghost predicate Pending(s: State, id: InodeId, x: Sector, d: DiskInode) {
    && id in s.table.inodes && s.table.inodes[id].removed && s.table.inodes[id].sector == x
    && x in s.store.live && s.store.live[x] == d
  }

  lemma CloseStore(s: State, h: HandleId)
    requires h in s.table.handles && s.table.handles[h].inode in s.table.inodes && Close(s, h).Some?
    ensures var st' := Close(s, h).value.store;
            |st'.freeMap| == |s.store.freeMap| && (forall y :: y in st'.live ==> y in s.store.live && st'.live[y] == s.store.live[y])
  {
    hide Dropped;
  }

  /** No step changes an inode on the device, nor the size of the device. */
  lemma StoreStays(s: State, e: Event)
    requires Enabled(s, e) && Step(s, e).Some? && StoreOk(s.store)
    ensures var st' := Step(s, e).value.store;
            && |st'.freeMap| == |s.store.freeMap|
            && forall y :: y in s.store.live && y in st'.live ==> st'.live[y] == s.store.live[y]
  {
    hide StoreOk, Close, Allocate, Open, Dropped;
    match e
    case EReserve(written) => AllocateIs(s.store.freeMap, 1, written);
    case ECreate(sector, length, memory, written) =>
      AllocateIs(s.store.freeMap, BytesToSectors(length), written);
      ReservedNotLive(s.store, sector);
    case EClose(h) => CloseStore(s, h);
    case EFileClose(h) => CloseStore(s.(table := SetDeny(s.table, h, false).value), h);
    case EFileOpen(h, memory) => if !memory { CloseStore(s, h); }
    case EFileReopen(h, h', memory) =>
      if !memory { CloseStore(s.(table := Reopened(s.table, s.table.handles[h].inode, h')), h'); }
    case _ =>
  }

  lemma ReservedNotLive(st: Store, x: Sector)
    requires StoreOk(st) && x in st.reserved
    ensures x !in st.live
  {
    assert x in st.live ==> Owns(st, x, x);
  }

  /** A step that is not the last close of a removed inode frees none of its sectors, and leaves it
      pending. */
  lemma PendingStep(s: State, e: Event, id: InodeId, x: Sector, d: DiskInode)
    requires Inv(s) && Enabled(s, e) && Pending(s, id, x, d) && !LastClose(s, e, x)
    ensures Step(s, e).Some? && Pending(Step(s, e).value, id, x, d)
    ensures forall k: Sector :: Owns(s.store, x, k) ==> !Freed(s.store, Step(s, e).value.store, k)
  {
    StepKeeps(s, e);
    RemovalIsPending(s, e, id);
    ReleasedAtLastClose(s, e);
    hide StoreOk, TableOk, Step, Enabled, LastClose, Freed;
    StoreStays(s, e);
    PendingKeeps(s, e, x);
    OpenIsLive(Step(s, e).value, id);
  }

  lemma OpenIsLive(s: State, id: InodeId)
    requires Inv(s) && id in s.table.inodes
    ensures s.table.inodes[id].sector in s.store.live
  {
  }

  lemma PendingKeeps(s: State, e: Event, x: Sector)
    requires Inv(s) && Enabled(s, e) && !LastClose(s, e, x) && Step(s, e).Some?
    ensures forall k: Sector :: Owns(s.store, x, k) ==> !Freed(s.store, Step(s, e).value.store, k)
  {
    ReleasedAtLastClose(s, e);
    hide TableOk, Step, Enabled, LastClose;
    var st' := Step(s, e).value.store;
    if y: Sector :| LastClose(s, e, y) {
      assert OnlyFrees(s.store, st', y);
    }
  }

  lemma {:induction false} StaysPending(trace: seq<State>, events: seq<Event>, i: nat, j: nat, id: InodeId, x: Sector, d: DiskInode)
    requires IsRun(trace, events) && i <= j < |trace| && Pending(trace[i], id, x, d)
    requires forall m :: i <= m < j ==> !LastClose(trace[m], events[m], x)
    ensures Pending(trace[j], id, x, d)
    decreases j - i
  {
    hide Inv, Step, Enabled, LastClose, Pending;
    if i < j {
      StaysPending(trace, events, i, j - 1, id, x, d);
      EveryRunKeepsInv(trace, events, j - 1);
      assert StepsAt(trace, events, j - 1);
      PendingStep(trace[j - 1], events[j - 1], id, x, d);
    }
  }

  lemma SameOwner(s: State, s': State, id: InodeId, x: Sector, d: DiskInode, k: Sector)
    requires Pending(s, id, x, d) && Pending(s', id, x, d)
    ensures Owns(s.store, x, k) <==> Owns(s'.store, x, k)
  {
  }

  /** In every run, of an inode that is removed and open in state i: as long as no step closes its
      last reference it stays so, and no step frees a sector of it; the first step that does frees
      all its sectors, and nothing else. */
  lemma RemovedFreedOnce(trace: seq<State>, events: seq<Event>, i: nat, j: nat, id: InodeId, x: Sector, d: DiskInode, k: Sector)
    requires IsRun(trace, events) && i <= j < |events| && Pending(trace[i], id, x, d)
    requires forall m :: i <= m < j ==> !LastClose(trace[m], events[m], x)
    ensures Pending(trace[j], id, x, d)
    ensures if LastClose(trace[j], events[j], x)
            then x !in trace[j + 1].store.live && (Freed(trace[j].store, trace[j + 1].store, k) <==> Owns(trace[i].store, x, k))
            else Owns(trace[i].store, x, k) ==> !Freed(trace[j].store, trace[j + 1].store, k)
  {
    hide Inv, Step, Enabled, LastClose, Freed, Pending, Owns;
    StaysPending(trace, events, i, j, id, x, d);
    SameOwner(trace[i], trace[j], id, x, d, k);
    EveryRunKeepsInv(trace, events, j);
    assert StepsAt(trace, events, j);
    if LastClose(trace[j], events[j], x) {
      ReleasedAtLastClose(trace[j], events[j]);
    } else {
      PendingStep(trace[j], events[j], id, x, d);
    }
  }

  // ---- The code --------------------------------------------------------------------------------

  /** The variables of filesys/free-map.c and filesys/inode.c, the references in callers and files,
      and, as `live`, what the inode sectors of the device hold. */
  class FileSystem {
    const freeMap: Bitmap
    var live: map<Sector, DiskInode>
    var inodes: map<InodeId, Inode>
    var openList: seq<InodeId>
    var handles: map<HandleId, Handle>
    ghost var reserved: set<Sector>

    ghost predicate Valid()
      reads this, freeMap, freeMap.bits
    {
      freeMap.Valid()
    }

    ghost function View(): State
      requires Valid()
      reads this, freeMap, freeMap.bits
    {
      State(Store(freeMap.Contents(), live, reserved), Table(inodes, openList, handles))
    }

    /** free_map_init() and inode_init(), on a device of `size` sectors */
    constructor (size: nat)
      requires size >= 2
      ensures Valid() && fresh(freeMap) && fresh(freeMap.bits) && Boot(View())
    {
      freeMap := new Bitmap(size);
      live, inodes, openList, handles, reserved := map[], map[], [], map[], {0, 1};
      new;
      freeMap.Set(0, true);
      freeMap.Set(1, true);
    }

    /** free_map_allocate() */
    method FreeMapAllocate(cnt: nat, written: bool) returns (r: Option<Sector>)
      requires Valid()
      modifies freeMap.bits
      ensures Valid() && (freeMap.Contents(), r) == Allocate(old(freeMap.Contents()), cnt, written)
      ensures r.Some? <==> written && exists i: nat :: FreeRun(old(freeMap.Contents()), cnt, i)
    {
      AllocateSucceedsIff(freeMap.Contents(), cnt, written);
      r := freeMap.ScanAndFlip(0, cnt, false);
      if r.Some? && !written {
        freeMap.SetMultiple(r.value, cnt, false);
        r := None;
      }
    }

    /** free_map_release() */
    method FreeMapRelease(sector: Sector, cnt: nat)
      requires Valid() && Release(freeMap.Contents(), sector, cnt).Some?
      modifies freeMap.bits
      ensures Valid() && Some(freeMap.Contents()) == Release(old(freeMap.Contents()), sector, cnt)
    {
      var unset := freeMap.Contains(sector, cnt, false);
      assert !unset;
      freeMap.SetMultiple(sector, cnt, false);
    }

    /** inode_create() */
    method InodeCreate(sector: Sector, length: nat, memory: bool, written: bool) returns (success: bool)
      requires Valid()
      modifies this`live, this`reserved, freeMap.bits
      ensures Valid() && View().store == Create(old(View()).store, sector, length, memory, written)
      ensures View().table == old(View()).table && (!success ==> View() == old(View()))
      ensures success <==> CanCreate(old(freeMap.Contents()), length, memory, written)
    {
      success := false;
      if memory {
        AllocateIs(freeMap.Contents(), BytesToSectors(length), written);
        var r := FreeMapAllocate(BytesToSectors(length), written);
        if r.Some? {
          live := live[sector := DiskInode(r.value, length)];
          reserved := reserved - {sector};
          success := true;
        }
      }
    }

    /** inode_open(); `data` is what block_read() finds in the sector. */
    method InodeOpen(sector: Sector, data: DiskInode, id: InodeId, h: HandleId, memory: bool) returns (r: Option<InodeId>)
      requires Valid() && id !in inodes && forall x :: x in openList ==> x in inodes
      modifies this`inodes, this`openList, this`handles
      ensures Valid() && View() == State(old(View()).store, Open(old(View()).table, id, h, sector, data, memory))
      ensures r.Some? ==> r.value in inodes && inodes[r.value].sector == sector
      ensures r.None? ==> View() == old(View())
      ensures r.None? <==> !memory && forall x :: x in openList ==> inodes[x].sector != sector
    {
      var p := 0;
      while p < |openList|
        invariant p <= |openList| && Find(inodes, openList, sector) == Find(inodes, openList[p..], sector)
        invariant forall q :: 0 <= q < p ==> inodes[openList[q]].sector != sector
      {
        if inodes[openList[p]].sector == sector {
          InodeReopen(openList[p], h);
          return Some(openList[p]);
        }
        p := p + 1;
      }
      if !memory {
        return None;
      }
      openList := [id] + openList;
      inodes := inodes[id := Inode(sector, 1, false, 0, data)];
      handles := handles[h := Handle(id, false, false)];
      return Some(id);
    }

    /** inode_reopen() */
    method InodeReopen(id: InodeId, h: HandleId)
      requires Valid() && id in inodes
      modifies this`inodes, this`handles
      ensures Valid() && View() == State(old(View()).store, Reopened(old(View()).table, id, h))
    {
      inodes := inodes[id := inodes[id].(openCnt := inodes[id].openCnt + 1)];
      handles := handles[h := Handle(id, false, false)];
    }

    /** inode_close() of the reference h */
    method InodeClose(h: HandleId)
      requires Valid() && h in handles && handles[h].inode in inodes && Close(View(), h).Some?
      modifies this`live, this`inodes, this`openList, this`handles, freeMap.bits
      ensures Valid() && Some(View()) == Close(old(View()), h)
    {
      var id := handles[h].inode;
      var inode := inodes[id];
      handles := handles - {h};
      if inode.openCnt - 1 == 0 {
        openList := ListRemove(openList, id);
        if inode.removed {
          FreeMapRelease(inode.sector, 1);
          FreeMapRelease(inode.data.start, BytesToSectors(inode.data.length));
          live := live - {inode.sector};
        }
        inodes := inodes - {id};
      } else {
        inodes := inodes[id := inode.(openCnt := inode.openCnt - 1)];
      }
    }

    /** file_deny_write() and file_allow_write() */
    method FileSetDeny(h: HandleId, deny: bool)
      requires Valid() && h in handles && handles[h].inode in inodes && SetDeny(View().table, h, deny).Some?
      modifies this`inodes, this`handles
      ensures Valid() && View().store == old(View()).store && Some(View().table) == SetDeny(old(View()).table, h, deny)
    {
      var file := handles[h];
      if file.deny != deny {
        handles := handles[h := file.(deny := deny)];
        var inode := inodes[file.inode];
        if deny {
          inode := inode.(denyCnt := inode.denyCnt + 1);
          assert inode.denyCnt <= inode.openCnt;
        } else {
          assert 0 < inode.denyCnt <= inode.openCnt;
          inode := inode.(denyCnt := inode.denyCnt - 1);
        }
        inodes := inodes[file.inode := inode];
      }
    }

    /** file_close() */
    method CloseFile(h: HandleId)
      requires Valid() && h in handles && handles[h].inode in inodes && FileClose(View(), h).Some?
      modifies this`live, this`inodes, this`openList, this`handles, freeMap.bits
      ensures Valid() && Some(View()) == FileClose(old(View()), h)
    {
      FileSetDeny(h, false);
      InodeClose(h);
    }

    /** file_open() of the reference h */
    method OpenFile(h: HandleId, memory: bool)
      requires Valid() && h in handles && handles[h].inode in inodes && FileOpen(View(), h, memory).Some?
      modifies this`live, this`inodes, this`openList, this`handles, freeMap.bits
      ensures Valid() && Some(View()) == FileOpen(old(View()), h, memory)
    {
      if memory {
        handles := handles[h := handles[h].(isFile := true, deny := false)];
      } else {
        InodeClose(h);
      }
    }
  }
}
