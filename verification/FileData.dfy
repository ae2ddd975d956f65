/** What is in files, over runs of the file system: the inodes of Inodes, with the bytes of InodeIo
    on one device.  inode_create() formats the new file, inode_write_at() changes it. */
module FileData {
  import opened Common
  import opened Inodes
  import Io = InodeIo

  // ---- Inodes on the device -----------------------------------------------------------------

  const INODE_MAGIC: nat := 0x494e4f44

  function Le32(n: nat): (b: seq<Byte>)
    ensures |b| == 4
  {
    [n % 256, n / 256 % 256, n / 0x1_0000 % 256, n / 0x100_0000 % 256]
  }

  function FromLe32(b: seq<Byte>): nat
    requires |b| == 4
  {
    b[0] as int + 256 * (b[1] as int) + 0x1_0000 * (b[2] as int) + 0x100_0000 * (b[3] as int)
  }

  lemma Le32RoundTrip(n: nat)
    requires n < UINT_RANGE
    ensures FromLe32(Le32(n)) == n
  {
    var a, b := n / 256, n / 0x1_0000;
    assert b == a / 256 && n / 0x100_0000 == b / 256;
    assert n == 256 * a + n % 256;
  }

  function Zeros(n: nat): (b: seq<Byte>)
    ensures |b| == n
  {
    seq(n, i => 0)
  }

  /** struct inode_disk as one sector */
  function Encode(d: DiskInode): (b: seq<Byte>)
    ensures |b| == SECTOR_SIZE
  {
    Le32(d.start) + Le32(d.length) + Le32(INODE_MAGIC) + Zeros(500)
  }

  /** What inode_open() reads back */
  function Decode(b: seq<Byte>): DiskInode
    requires |b| == SECTOR_SIZE
  {
    DiskInode(FromLe32(b[..4]), FromLe32(b[4..8]))
  }

  lemma DecodeEncode(d: DiskInode)
    requires d.start < UINT_RANGE && d.length < UINT_RANGE
    ensures Decode(Encode(d)) == d
  {
    Le32RoundTrip(d.start);
    Le32RoundTrip(d.length);
    assert Encode(d)[..4] == Le32(d.start) && Encode(d)[4..8] == Le32(d.length);
  }

  /** The device after inode_create() has written the inode to x and cleared its data. */
  ghost function Formatted(sectors: Io.Sectors, x: Sector, d: DiskInode): (r: Io.Sectors)
    ensures |r| == |sectors|
  {
    seq(|sectors|, s requires 0 <= s < |sectors| =>
      if InExtent(d, s) then Zeros(SECTOR_SIZE) else if s == x then Encode(d) else sectors[s])
  }

  /** The writes of inode_create(); `disk` holds the inode and `zeros` is all zeros. */
  method Format(dev: Io.Device, x: Sector, d: DiskInode, disk: array<Byte>, zeros: array<Byte>)
    requires Io.IsDisk(dev.sectors) && x < |dev.sectors| && d.start + BytesToSectors(d.length) <= |dev.sectors|
    requires disk[..] == Encode(d) && zeros[..] == Zeros(SECTOR_SIZE)
    modifies dev
    ensures Io.IsDisk(dev.sectors) && dev.sectors == Formatted(old(dev.sectors), x, d)
  {
    var n := (d.length + SECTOR_SIZE - 1) / SECTOR_SIZE;
    assert disk[0..0 + SECTOR_SIZE] == Encode(d) && zeros[0..0 + SECTOR_SIZE] == Zeros(SECTOR_SIZE);
    hide Encode, Zeros;
    dev.Write(x, disk, 0);
    var i := 0;
    while i < n
      invariant 0 <= i <= n && Io.IsDisk(dev.sectors) && |dev.sectors| == |old(dev.sectors)|
      invariant forall s :: 0 <= s < |dev.sectors| ==>
                  dev.sectors[s] == if d.start <= s < d.start + i then Zeros(SECTOR_SIZE)
                                    else if s == x then Encode(d) else old(dev.sectors)[s]
    {
      dev.Write(d.start + i, zeros, 0);
      i := i + 1;
    }
  }

  // ---- Files and extents ---------------------------------------------------------------------

  ghost predicate Fits(sectors: Io.Sectors, d: DiskInode) {
    Io.IsDisk(sectors) && d.start + BytesToSectors(d.length) <= |sectors|
  }

  lemma FitsExtent(sectors: Io.Sectors, d: DiskInode)
    requires Fits(sectors, d)
    ensures Io.HasExtent(sectors, d.start, d.length)
  {
  }

  /** The bytes of a file. */
  ghost function Contents(sectors: Io.Sectors, d: DiskInode): (bytes: seq<Byte>)
    requires Fits(sectors, d)
    ensures |bytes| == d.length
  {
    FitsExtent(sectors, d);
    Io.Content(sectors, d.start, d.length)
  }

  lemma ByteInExtent(d: DiskInode, p: nat)
    requires p < d.length
    ensures InExtent(d, d.start + p / SECTOR_SIZE)
  {
  }

  /** The bytes of a file depend on the sectors of its extent only. */
  lemma SameExtent(sectors: Io.Sectors, sectors': Io.Sectors, d: DiskInode)
    requires Fits(sectors, d) && Fits(sectors', d)
    requires forall k: Sector :: InExtent(d, k) ==> sectors'[k] == sectors[k]
    ensures Contents(sectors', d) == Contents(sectors, d)
  {
    forall p: nat | p < d.length
      ensures Contents(sectors', d)[p] == Contents(sectors, d)[p]
    {
      ByteInExtent(d, p);
    }
  }

  /** A write changes sectors of the extent only. */
  lemma PatchedOutside(sectors: Io.Sectors, d: DiskInode, offset: nat, data: seq<Byte>, k: Sector)
    requires Fits(sectors, d) && offset + |data| <= d.length && k < |sectors| && !InExtent(d, k)
    ensures Io.Patched(sectors, d.start, offset, data)[k] == sectors[k]
  {
    forall b: nat | b < SECTOR_SIZE
      ensures Io.PatchedByte(sectors, d.start, offset, data, k, b) == sectors[k][b]
    {
    }
    Io.PatchedBytes(sectors, d.start, offset, data, k);
  }

  lemma PatchedIsDisk(sectors: Io.Sectors, start: nat, offset: nat, data: seq<Byte>)
    requires Io.IsDisk(sectors)
    ensures Io.IsDisk(Io.Patched(sectors, start, offset, data)) && |Io.Patched(sectors, start, offset, data)| == |sectors|
  {
  }

  // ---- The volume as a machine -----------------------------------------------------------------

  datatype Volume = Volume(fs: State, sectors: Io.Sectors)

  /** A step of Inodes, or inode_write_at() of the bytes that get through: none if writes are denied.
      The write of the free map that goes with an allocation is an action of its own. */
  datatype Action = Manage(event: Event) | Write(id: InodeId, offset: nat, data: seq<Byte>)

  ghost predicate Allowed(v: Volume, a: Action) {
    match a
    case Manage(e) => Enabled(v.fs, e) && (e.ECreate? ==> e.length < 0x8000_0000)
    case Write(id, offset, data) =>
      && Io.IsDisk(v.sectors) && id in v.fs.table.inodes
      && offset + |data| <= v.fs.table.inodes[id].data.length && (v.fs.table.inodes[id].denyCnt > 0 ==> data == [])
  }

  ghost function OnDevice(sectors: Io.Sectors, e: Event, fs': State): Io.Sectors {
    if e.ECreate? && e.sector in fs'.store.live then Formatted(sectors, e.sector, fs'.store.live[e.sector]) else sectors
  }

  ghost function Act(v: Volume, a: Action): Option<Volume>
    requires Allowed(v, a)
  {
    match a
    case Manage(e) =>
      var r := Step(v.fs, e);
      if r.None? then None else Some(Volume(r.value, OnDevice(v.sectors, e, r.value)))
    case Write(id, offset, data) =>
      Some(v.(sectors := Io.Patched(v.sectors, v.fs.table.inodes[id].data.start, offset, data)))
  }

  ghost predicate InodeOnDevice(v: Volume, x: Sector)
    requires x in v.fs.store.live
  {
    x < |v.sectors| && v.sectors[x] == Encode(v.fs.store.live[x]) && v.fs.store.live[x].length < 0x8000_0000
  }

  /** The sector of every inode holds it. */
  ghost predicate VolumeOk(v: Volume) {
    && Inv(v.fs) && Io.IsDisk(v.sectors) && |v.sectors| == |v.fs.store.freeMap|
    && forall x :: x in v.fs.store.live ==> InodeOnDevice(v, x)
  }

  lemma LiveFits(v: Volume, x: Sector)
    requires VolumeOk(v) && x in v.fs.store.live
    ensures Fits(v.sectors, v.fs.store.live[x]) && x < |v.sectors| && !InExtent(v.fs.store.live[x], x)
  {
    assert ExtentOk(v.fs.store, x);
    assert InodeOnDevice(v, x);
  }

  lemma OpenIsCopy(v: Volume, id: InodeId)
    requires VolumeOk(v) && id in v.fs.table.inodes
    ensures var i := v.fs.table.inodes[id]; i.sector in v.fs.store.live && i.data == v.fs.store.live[i.sector]
  {
  }

  lemma NotOwned(st: Store, x: Sector, y: Sector, k: Sector)
    requires StoreOk(st) && x != y && Owns(st, y, k) && x in st.live
    ensures !InExtent(st.live[x], k) && k != x
  {
    assert Owns(st, x, x);
    assert InExtent(st.live[x], k) ==> Owns(st, x, k);
  }

  /** A write changes neither the inode nor a byte of any other file, nor its own inode. */
  lemma WriteKeepsOthers(v: Volume, id: InodeId, offset: nat, data: seq<Byte>, y: Sector, k: Sector)
    requires VolumeOk(v) && Allowed(v, Write(id, offset, data)) && Owns(v.fs.store, y, k) && k < |v.sectors|
    requires v.fs.table.inodes[id].sector != y || k == y
    ensures Act(v, Write(id, offset, data)).value.sectors[k] == v.sectors[k]
  {
    OpenIsCopy(v, id);
    var i := v.fs.table.inodes[id];
    LiveFits(v, i.sector);
    if i.sector != y {
      NotOwned(v.fs.store, i.sector, y, k);
    }
    PatchedOutside(v.sectors, i.data, offset, data, k);
  }

  lemma WriteKeepsVolume(v: Volume, id: InodeId, offset: nat, data: seq<Byte>)
    requires VolumeOk(v) && Allowed(v, Write(id, offset, data))
    ensures VolumeOk(Act(v, Write(id, offset, data)).value)
  {
    var v' := Act(v, Write(id, offset, data)).value;
    PatchedIsDisk(v.sectors, v.fs.table.inodes[id].data.start, offset, data);
    forall x | x in v'.fs.store.live
      ensures InodeOnDevice(v', x)
    {
      assert InodeOnDevice(v, x);
      assert Owns(v.fs.store, x, x);
      WriteKeepsOthers(v, id, offset, data, x, x);
    }
  }

  lemma CreateStep(v: Volume, e: Event)
    requires VolumeOk(v) && Allowed(v, Manage(e)) && e.ECreate?
    ensures Step(v.fs, e).Some?
    ensures var st, st' := v.fs.store, Step(v.fs, e).value.store;
            && e.sector !in st.live && |st'.freeMap| == |st.freeMap| && StoreOk(st')
            && (st'.live == st.live || (e.sector in st'.live && st'.live == st.live[e.sector := st'.live[e.sector]]
                                        && st'.live[e.sector].length == e.length))
  {
    StepKeeps(v.fs, e);
    StoreStays(v.fs, e);
    ReservedNotLive(v.fs.store, e.sector);
    CreateKeeps(v.fs.store, e.sector, e.length, e.memory, e.written);
  }

  lemma FormattedAt(sectors: Io.Sectors, x: Sector, d: DiskInode, k: Sector)
    requires Io.IsDisk(sectors) && k < |sectors|
    ensures Io.IsDisk(Formatted(sectors, x, d))
    ensures Formatted(sectors, x, d)[k] ==
            if InExtent(d, k) then Zeros(SECTOR_SIZE) else if k == x then Encode(d) else sectors[k]
  {
  }

  lemma CreateKeepsOthers(v: Volume, e: Event, y: Sector, k: Sector)
    requires VolumeOk(v) && Allowed(v, Manage(e)) && e.ECreate? && Owns(v.fs.store, y, k) && k < |v.sectors|
    ensures Act(v, Manage(e)).Some? && Act(v, Manage(e)).value.sectors[k] == v.sectors[k]
  {
    CreateStep(v, e);
    var st' := Step(v.fs, e).value.store;
    if e.sector in st'.live {
      assert Owns(st', y, k);
      NotOwned(st', e.sector, y, k);
      FormattedAt(v.sectors, e.sector, st'.live[e.sector], k);
    }
  }

  lemma CreateKeepsVolume(v: Volume, e: Event)
    requires VolumeOk(v) && Allowed(v, Manage(e)) && e.ECreate?
    ensures Act(v, Manage(e)).Some? && VolumeOk(Act(v, Manage(e)).value)
  {
    CreateStep(v, e);
    StepKeeps(v.fs, e);
    hide Step, StoreOk, TableOk, Matches, Formatted, Encode;
    var v' := Act(v, Manage(e)).value;
    FormattedDisk(v, e);
    forall x | x in v'.fs.store.live
      ensures InodeOnDevice(v', x)
    {
      CreatedOnDevice(v, e, x);
    }
  }

  lemma FormattedDisk(v: Volume, e: Event)
    requires VolumeOk(v) && Allowed(v, Manage(e)) && e.ECreate? && Act(v, Manage(e)).Some?
    ensures var v' := Act(v, Manage(e)).value;
            Io.IsDisk(v'.sectors) && |v'.sectors| == |v.sectors|
  {
    var fs' := Step(v.fs, e).value;
    hide Step, VolumeOk, Allowed, Encode;
    assert Io.IsDisk(v.sectors) by {
      DiskOk(v);
    }
  }

  lemma DiskOk(v: Volume)
    requires VolumeOk(v)
    ensures Io.IsDisk(v.sectors) && |v.sectors| == |v.fs.store.freeMap|
  {
  }

  lemma CreatedOnDevice(v: Volume, e: Event, x: Sector)
    requires VolumeOk(v) && Allowed(v, Manage(e)) && e.ECreate? && Act(v, Manage(e)).Some?
    requires x in Act(v, Manage(e)).value.fs.store.live
    ensures InodeOnDevice(Act(v, Manage(e)).value, x)
  {
    CreateStep(v, e);
    var v' := Act(v, Manage(e)).value;
    if x == e.sector {
      assert Owns(v'.fs.store, x, x) && InUse(v'.fs.store, x);
      assert ExtentOk(v'.fs.store, x);
      FormattedAt(v.sectors, x, v'.fs.store.live[x], x);
    } else {
      assert InodeOnDevice(v, x) && Owns(v.fs.store, x, x);
      CreateKeepsOthers(v, e, x, x);
    }
  }

  /** Steps but creation leave the bytes alone, and make no inode. */
  lemma OtherStepMakesNone(s: State, e: Event)
    requires Inv(s) && Enabled(s, e) && !e.ECreate?
    ensures Step(s, e).Some? && forall y :: y in Step(s, e).value.store.live ==> y in s.store.live
  {
    StepKeeps(s, e);
    hide StoreOk, TableOk, Matches, Close, Open, SetDeny, Allocate, Release;
    match e
    case EClose(h) => CloseStore(s, h);
    case EFileClose(h) => CloseStore(s.(table := SetDeny(s.table, h, false).value), h);
    case EFileOpen(h, memory) => if !memory { CloseStore(s, h); }
    case EFileReopen(h, h', memory) =>
      if !memory { CloseStore(s.(table := Reopened(s.table, s.table.handles[h].inode, h')), h'); }
    case _ =>
  }

  lemma ManageKeepsVolume(v: Volume, e: Event)
    requires VolumeOk(v) && Allowed(v, Manage(e)) && !e.ECreate?
    ensures Act(v, Manage(e)).Some? && VolumeOk(Act(v, Manage(e)).value)
  {
    StepKeeps(v.fs, e);
    StoreStays(v.fs, e);
    OtherStepMakesNone(v.fs, e);
    hide Step, Enabled, Inv;
    var v' := Act(v, Manage(e)).value;
    forall x | x in v'.fs.store.live
      ensures InodeOnDevice(v', x)
    {
      assert InodeOnDevice(v, x);
    }
  }

  lemma ActKeeps(v: Volume, a: Action)
    requires VolumeOk(v) && Allowed(v, a)
    ensures Act(v, a).Some? && VolumeOk(Act(v, a).value)
  {
    hide VolumeOk, Step;
    match a
    case Manage(e) => if e.ECreate? { CreateKeepsVolume(v, e); } else { ManageKeepsVolume(v, e); }
    case Write(id, offset, data) => WriteKeepsVolume(v, id, offset, data);
  }

  /** The action writes to the file whose inode is at y. */
  ghost predicate WritesTo(v: Volume, a: Action, y: Sector) {
    a.Write? && a.id in v.fs.table.inodes && v.fs.table.inodes[a.id].sector == y
  }

  lemma ActLeaves(v: Volume, a: Action, y: Sector, k: Sector)
    requires VolumeOk(v) && Allowed(v, a) && Owns(v.fs.store, y, k) && !WritesTo(v, a, y)
    ensures Act(v, a).Some? && k < |v.sectors| && k < |Act(v, a).value.sectors| && Act(v, a).value.sectors[k] == v.sectors[k]
  {
    ActKeeps(v, a);
    assert k < |v.sectors| by {
      assert InUse(v.fs.store, k);
    }
    match a
    case Manage(e) => if e.ECreate? { CreateKeepsOthers(v, e, y, k); }
    case Write(id, offset, data) => WriteKeepsOthers(v, id, offset, data, y, k);
  }

  lemma ActKeepsLive(v: Volume, a: Action, y: Sector)
    requires VolumeOk(v) && Allowed(v, a) && Act(v, a).Some?
    requires y in v.fs.store.live && y in Act(v, a).value.fs.store.live
    ensures Act(v, a).value.fs.store.live[y] == v.fs.store.live[y]
  {
    if a.Manage? {
      StoreStays(v.fs, a.event);
    }
  }

  /** An action that does not write to a file, and does not delete it, changes no byte of it. */
  lemma ActKeepsFile(v: Volume, a: Action, y: Sector)
    requires VolumeOk(v) && Allowed(v, a) && Act(v, a).Some? && !WritesTo(v, a, y)
    requires y in v.fs.store.live && y in Act(v, a).value.fs.store.live
    ensures var v', d := Act(v, a).value, v.fs.store.live[y];
            && v'.fs.store.live[y] == d && Fits(v.sectors, d) && Fits(v'.sectors, d)
            && Contents(v'.sectors, d) == Contents(v.sectors, d)
  {
    ActKeeps(v, a);
    LiveFits(v, y);
    ActKeepsLive(v, a, y);
    LiveFits(Act(v, a).value, y);
    hide VolumeOk, Act, Contents, WritesTo, Allowed;
    var v', d := Act(v, a).value, v.fs.store.live[y];
    forall k: Sector | InExtent(d, k)
      ensures v'.sectors[k] == v.sectors[k]
    {
      ActLeaves(v, a, y, k);
    }
    SameExtent(v.sectors, v'.sectors, d);
  }

  /** inode_create() makes a file of zeros. */
  lemma CreatedIsZero(v: Volume, e: Event)
    requires VolumeOk(v) && Allowed(v, Manage(e)) && e.ECreate?
    requires Act(v, Manage(e)).Some? && e.sector in Act(v, Manage(e)).value.fs.store.live
    ensures var v' := Act(v, Manage(e)).value;
            var d := v'.fs.store.live[e.sector];
            d.length == e.length && Fits(v'.sectors, d) && Contents(v'.sectors, d) == Zeros(e.length)
  {
    CreateStep(v, e);
    ActKeeps(v, Manage(e));
    var v' := Act(v, Manage(e)).value;
    var d := v'.fs.store.live[e.sector];
    LiveFits(v', e.sector);
    forall p: nat | p < d.length
      ensures Contents(v'.sectors, d)[p] == 0
    {
      ByteInExtent(d, p);
    }
  }

  /** inode_write_at() replaces the bytes from offset on, and no other byte of the file. */
  lemma WriteChangesFile(v: Volume, id: InodeId, offset: nat, data: seq<Byte>)
    requires VolumeOk(v) && Allowed(v, Write(id, offset, data))
    ensures var v', d := Act(v, Write(id, offset, data)).value, v.fs.table.inodes[id].data;
            && Fits(v.sectors, d) && Fits(v'.sectors, d)
            && Contents(v'.sectors, d) == Contents(v.sectors, d)[..offset] + data + Contents(v.sectors, d)[offset + |data|..]
  {
    OpenIsCopy(v, id);
    var d := v.fs.table.inodes[id].data;
    LiveFits(v, v.fs.table.inodes[id].sector);
    FitsExtent(v.sectors, d);
    PatchedIsDisk(v.sectors, d.start, offset, data);
    Io.WrittenContent(v.sectors, d.start, d.length, offset, data);
  }

  // ---- Every run ---------------------------------------------------------------------------------

  ghost predicate ActsAt(trace: seq<Volume>, actions: seq<Action>, i: nat)
    requires i < |actions| < |trace|
  {
    Allowed(trace[i], actions[i]) && Act(trace[i], actions[i]) == Some(trace[i + 1])
  }

  /** A run on a device of any contents. */
  ghost predicate IsVolumeRun(trace: seq<Volume>, actions: seq<Action>) {
    && |trace| == |actions| + 1 && Boot(trace[0].fs)
    && Io.IsDisk(trace[0].sectors) && |trace[0].sectors| == |trace[0].fs.store.freeMap|
    && forall i :: 0 <= i < |actions| ==> ActsAt(trace, actions, i)
  }

  lemma {:induction false} EveryRunKeepsVolume(trace: seq<Volume>, actions: seq<Action>, i: nat)
    requires IsVolumeRun(trace, actions) && i < |trace|
    ensures VolumeOk(trace[i])
    decreases i
  {
    if i == 0 {
      BootInv(trace[0].fs);
    } else {
      hide VolumeOk, Act, Allowed;
      EveryRunKeepsVolume(trace, actions, i - 1);
      assert ActsAt(trace, actions, i - 1);
      ActKeeps(trace[i - 1], actions[i - 1]);
    }
  }

  /** In every run on a device of fewer than 2^32 sectors, what inode_open() would read from the sector
      of any inode is that inode. */
  lemma InodesReadBack(trace: seq<Volume>, actions: seq<Action>, i: nat, x: Sector)
    requires IsVolumeRun(trace, actions) && i < |trace| && x in trace[i].fs.store.live
    requires |trace[i].sectors| < UINT_RANGE
    ensures x < |trace[i].sectors| && |trace[i].sectors[x]| == SECTOR_SIZE
    ensures Decode(trace[i].sectors[x]) == trace[i].fs.store.live[x]
  {
    EveryRunKeepsVolume(trace, actions, i);
    LiveFits(trace[i], x);
    assert InodeOnDevice(trace[i], x);
    DecodeEncode(trace[i].fs.store.live[x]);
  }

  /** The bytes of the file whose inode is at y, in state i. */
  ghost predicate Holds(v: Volume, y: Sector, bytes: seq<Byte>) {
    && y in v.fs.store.live && Fits(v.sectors, v.fs.store.live[y])
    && Contents(v.sectors, v.fs.store.live[y]) == bytes
  }

  /** In every run, a file keeps its bytes until it is written to or deleted: whatever else is created,
      written, removed or closed. */
  lemma {:induction false} FileKept(trace: seq<Volume>, actions: seq<Action>, i: nat, j: nat, y: Sector, bytes: seq<Byte>)
    requires IsVolumeRun(trace, actions) && i <= j < |trace| && Holds(trace[i], y, bytes)
    requires forall m :: i <= m <= j ==> y in trace[m].fs.store.live
    requires forall m :: i <= m < j ==> !WritesTo(trace[m], actions[m], y)
    ensures Holds(trace[j], y, bytes)
    decreases j - i
  {
    hide VolumeOk, Act, Allowed, WritesTo, Contents, Fits;
    if i < j {
      FileKept(trace, actions, i, j - 1, y, bytes);
      EveryRunKeepsVolume(trace, actions, j - 1);
      assert ActsAt(trace, actions, j - 1);
      ActKeepsFile(trace[j - 1], actions[j - 1], y);
    }
  }

  /** In every run, bytes written to a file are read back from it until it is written to again or
      deleted. */
  lemma WrittenIsReadBack(trace: seq<Volume>, actions: seq<Action>, i: nat, j: nat)
    requires IsVolumeRun(trace, actions) && i < j < |trace| && actions[i].Write? && actions[i].id in trace[i].fs.table.inodes
    requires var y := trace[i].fs.table.inodes[actions[i].id].sector;
             && (forall m :: i < m <= j ==> y in trace[m].fs.store.live)
             && (forall m :: i < m < j ==> !WritesTo(trace[m], actions[m], y))
    ensures var y, w := trace[i].fs.table.inodes[actions[i].id].sector, actions[i];
            && Fits(trace[j].sectors, trace[j].fs.store.live[y])
            && w.offset + |w.data| <= trace[j].fs.store.live[y].length
            && Contents(trace[j].sectors, trace[j].fs.store.live[y])[w.offset..w.offset + |w.data|] == w.data
  {
    var y, w := trace[i].fs.table.inodes[actions[i].id].sector, actions[i];
    EveryRunKeepsVolume(trace, actions, i);
    assert ActsAt(trace, actions, i);
    OpenIsCopy(trace[i], w.id);
    WriteChangesFile(trace[i], w.id, w.offset, w.data);
    hide VolumeOk, WritesTo, Contents, Fits, Step, Enabled, Boot;
    var d := trace[i].fs.store.live[y];
    FileKept(trace, actions, i + 1, j, y, Contents(trace[i + 1].sectors, d));
  }
}
