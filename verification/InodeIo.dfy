/** Byte access to inodes over whole-sector device operations: inode_read_at() and
    inode_write_at() of filesys/inode.c, against the flat array of a file's bytes. */
module InodeIo {
  import opened Common

  type Sectors = seq<seq<Byte>>

  // ---- What a transfer amounts to -----------------------------------------------------------

  function Min(a: int, b: int): int {
    if a < b then a else b
  }

  /** How many bytes are transferred at `offset` of a file of `length` bytes, `size` being asked
      for.  Without memory for the bounce buffer, only whole sectors are, up to the first one
      that is not whole. */
  function Transferred(size: int, offset: nat, length: nat, memory: bool): nat {
    var n := Min(size, length - offset);
    if n <= 0 then 0
    else if memory then n
    else if offset % SECTOR_SIZE != 0 then 0
    else n - n % SECTOR_SIZE
  }

  ghost predicate IsDisk(disk: Sectors) {
    forall s :: 0 <= s < |disk| ==> |disk[s]| == SECTOR_SIZE
  }

  /** The sectors from start on have room for length bytes. */
  ghost predicate HasExtent(disk: Sectors, start: nat, length: nat) {
    start * SECTOR_SIZE + length <= |disk| * SECTOR_SIZE
  }

  /** Byte p of the file that starts at sector `start`. */
  ghost function ByteAt(disk: Sectors, start: nat, p: nat): Byte
    requires IsDisk(disk) && HasExtent(disk, start, p + 1)
  {
    disk[start + p / SECTOR_SIZE][p % SECTOR_SIZE]
  }

  /** The file as a flat array. */
  ghost function Content(disk: Sectors, start: nat, length: nat): (bytes: seq<Byte>)
    requires IsDisk(disk) && HasExtent(disk, start, length)
    ensures |bytes| == length
  {
    seq(length, p requires 0 <= p < length => ByteAt(disk, start, p))
  }

  /** Byte b of sector s, after data has been put at `offset` of the file at `start`. */
  ghost function PatchedByte(disk: Sectors, start: nat, offset: nat, data: seq<Byte>, s: nat, b: nat): Byte
    requires IsDisk(disk) && s < |disk| && b < SECTOR_SIZE
  {
    var p := (s - start) * SECTOR_SIZE + b - offset;
    if 0 <= p < |data| then data[p] else disk[s][b]
  }

  ghost function PatchedSector(disk: Sectors, start: nat, offset: nat, data: seq<Byte>, s: nat): seq<Byte>
    requires IsDisk(disk) && s < |disk|
  {
    seq(SECTOR_SIZE, b requires 0 <= b < SECTOR_SIZE => PatchedByte(disk, start, offset, data, s, b))
  }

  /** The device with exactly those bytes replaced. */
  ghost function Patched(disk: Sectors, start: nat, offset: nat, data: seq<Byte>): Sectors
    requires IsDisk(disk)
  {
    seq(|disk|, s requires 0 <= s < |disk| => PatchedSector(disk, start, offset, data, s))
  }

  /** Everything asked for is transferred, up to the end of the file and not beyond; without memory for the
      bounce buffer, the whole sectors of it, and nothing that starts inside a sector. */
  lemma TransferredIs(size: int, offset: nat, length: nat)
    ensures Transferred(size, offset, length, true) ==
            if size <= 0 || length <= offset then 0 else if offset + size <= length then size else length - offset
    ensures var n, all := Transferred(size, offset, length, false), Transferred(size, offset, length, true);
            if offset % 512 == 0 then n % 512 == 0 && n <= all < n + 512 else n == 0
  {
  }

  // ---- The flat view -------------------------------------------------------------------------

  /** A write replaces the bytes from offset on, and no other byte of the file. */
  lemma WrittenContent(disk: Sectors, start: nat, length: nat, offset: nat, data: seq<Byte>)
    requires IsDisk(disk) && HasExtent(disk, start, length) && offset + |data| <= length
    ensures IsDisk(Patched(disk, start, offset, data)) && HasExtent(Patched(disk, start, offset, data), start, length)
    ensures Content(Patched(disk, start, offset, data), start, length) ==
            Content(disk, start, length)[..offset] + data + Content(disk, start, length)[offset + |data|..]
  {
    var now := Patched(disk, start, offset, data);
    var before := Content(disk, start, length);
    forall p | 0 <= p < length
      ensures Content(now, start, length)[p] == if offset <= p < offset + |data| then data[p - offset] else before[p]
    {
    }
  }

  /** It changes no byte of a file whose extent is disjoint. */
  lemma OthersUntouched(disk: Sectors, start: nat, length: nat, offset: nat, data: seq<Byte>, start': nat, length': nat)
    requires IsDisk(disk) && HasExtent(disk, start, length) && offset + |data| <= length
    requires HasExtent(disk, start', length')
    requires start * SECTOR_SIZE + length <= start' * SECTOR_SIZE || start' * SECTOR_SIZE + length' <= start * SECTOR_SIZE
    ensures IsDisk(Patched(disk, start, offset, data)) && HasExtent(Patched(disk, start, offset, data), start', length')
    ensures Content(Patched(disk, start, offset, data), start', length') == Content(disk, start', length')
  {
    var now := Patched(disk, start, offset, data);
    forall p | 0 <= p < length'
      ensures Content(now, start', length')[p] == Content(disk, start', length')[p]
    {
    }
  }

  /** What was written is what is read. */
  lemma ReadBack(disk: Sectors, start: nat, length: nat, offset: nat, data: seq<Byte>)
    requires IsDisk(disk) && HasExtent(disk, start, length) && offset + |data| <= length
    ensures IsDisk(Patched(disk, start, offset, data)) && HasExtent(Patched(disk, start, offset, data), start, length)
    ensures Content(Patched(disk, start, offset, data), start, length)[offset..offset + |data|] == data
  {
    WrittenContent(disk, start, length, offset, data);
  }

  // ---- One sector at a time --------------------------------------------------------------------

  /** The transfer at `offset + done`: the sector, the place in it and how many bytes. */
  function SectorOfs(offset: nat, done: nat): nat {
    (offset + done) % SECTOR_SIZE
  }

  function Chunk(size: int, offset: nat, length: nat, done: nat): int {
    Min(size - done, Min(length - (offset + done), SECTOR_SIZE - SectorOfs(offset, done)))
  }

  /** done bytes are transferred; without memory these are whole sectors. */
  ghost predicate Progress(size: int, offset: nat, length: nat, memory: bool, done: nat) {
    && (done == 0 || done <= Min(size, length - offset))
    && (!memory && done > 0 ==> offset % SECTOR_SIZE == 0 && done % SECTOR_SIZE == 0)
  }

  lemma ProgressStarts(size: int, offset: nat, length: nat, memory: bool)
    ensures Progress(size, offset, length, memory, 0)
  {
  }

  lemma ProgressSteps(size: int, offset: nat, length: nat, memory: bool, done: nat)
    requires Progress(size, offset, length, memory, done) && Chunk(size, offset, length, done) > 0
    requires memory || (SectorOfs(offset, done) == 0 && Chunk(size, offset, length, done) == SECTOR_SIZE)
    ensures Progress(size, offset, length, memory, done + Chunk(size, offset, length, done))
  {
  }

  lemma ProgressEnds(size: int, offset: nat, length: nat, memory: bool, done: nat)
    requires Progress(size, offset, length, memory, done)
    ensures Chunk(size, offset, length, done) <= 0 ==> done == Transferred(size, offset, length, memory)
    ensures !memory && !(SectorOfs(offset, done) == 0 && Chunk(size, offset, length, done) == SECTOR_SIZE) ==>
              done == Transferred(size, offset, length, memory)
  {
    var left := Min(size, length - offset) - done;
    assert Chunk(size, offset, length, done) <= 0 <==> left <= 0;
  }

  /** A chunk of a sector is a stretch of the file. */
  lemma ChunkBytes(disk: Sectors, start: nat, length: nat, offset: nat, done: nat, chunk: nat)
    requires IsDisk(disk) && HasExtent(disk, start, length)
    requires chunk > 0 && offset + done + chunk <= length && SectorOfs(offset, done) + chunk <= SECTOR_SIZE
    ensures start + (offset + done) / SECTOR_SIZE < |disk|
    ensures var s, from := start + (offset + done) / SECTOR_SIZE, SectorOfs(offset, done);
            disk[s][from..from + chunk] == Content(disk, start, length)[offset + done..offset + done + chunk]
  {
    var s, from := start + (offset + done) / SECTOR_SIZE, SectorOfs(offset, done);
    forall b | from <= b < from + chunk
      ensures disk[s][b] == Content(disk, start, length)[offset + done + b - from]
    {
      var p := offset + done + b - from;
      assert p / SECTOR_SIZE == s - start && p % SECTOR_SIZE == b;
    }
  }

  /** A buffer that n bytes of a file have been read into. */
  ghost function Received(was: seq<Byte>, content: seq<Byte>, offset: nat, n: nat): (now: seq<Byte>)
    requires n <= |was| && (n > 0 ==> offset + n <= |content|)
    ensures |now| == |was|
  {
    if n == 0 then was else content[offset..offset + n] + was[n..]
  }

  lemma ReceivedNothing(was: seq<Byte>, content: seq<Byte>, offset: nat)
    ensures Received(was, content, offset, 0) == was
  {
  }

  lemma ReceivedMore(was: seq<Byte>, content: seq<Byte>, offset: nat, n: nat, chunk: nat, now: seq<Byte>)
    requires chunk > 0 && n + chunk <= |was| == |now| && offset + n + chunk <= |content|
    requires var before := Received(was, content, offset, n);
             now[..n] == before[..n] && now[n + chunk..] == before[n + chunk..]
    requires now[n..n + chunk] == content[offset + n..offset + n + chunk]
    ensures now == Received(was, content, offset, n + chunk)
  {
    assert now == now[..n] + now[n..n + chunk] + now[n + chunk..];
    assert content[offset..offset + n + chunk] == content[offset..offset + n] + content[offset + n..offset + n + chunk];
    if n == 0 {
      assert now[..0] == content[offset..offset];
    }
  }

  lemma PatchedNothing(disk: Sectors, start: nat, offset: nat, none: seq<Byte>)
    requires IsDisk(disk) && none == []
    ensures Patched(disk, start, offset, none) == disk
  {
    forall s | 0 <= s < |disk|
      ensures PatchedSector(disk, start, offset, none, s) == disk[s]
    {
    }
  }

  lemma PatchedBytes(disk: Sectors, start: nat, offset: nat, data: seq<Byte>, s: nat)
    requires IsDisk(disk) && s < |disk|
    ensures |Patched(disk, start, offset, data)| == |disk| && |Patched(disk, start, offset, data)[s]| == SECTOR_SIZE
    ensures forall b :: 0 <= b < SECTOR_SIZE ==>
              Patched(disk, start, offset, data)[s][b] == PatchedByte(disk, start, offset, data, s, b)
  {
  }

  /** One more chunk written into its sector. */
  lemma ChunkWritten(disk: Sectors, start: nat, offset: nat, data: seq<Byte>, done: nat, chunk: nat, sector: seq<Byte>)
    requires IsDisk(disk) && done + chunk <= |data| && SectorOfs(offset, done) + chunk <= SECTOR_SIZE == |sector|
    requires start + (offset + done) / SECTOR_SIZE < |disk|
    requires var s, from := start + (offset + done) / SECTOR_SIZE, SectorOfs(offset, done);
             forall b :: 0 <= b < SECTOR_SIZE ==>
               sector[b] == if from <= b < from + chunk then data[done + b - from]
                            else PatchedByte(disk, start, offset, data[..done], s, b)
    ensures Patched(disk, start, offset, data[..done])[start + (offset + done) / SECTOR_SIZE := sector] ==
            Patched(disk, start, offset, data[..done + chunk])
  {
    var s, from := start + (offset + done) / SECTOR_SIZE, SectorOfs(offset, done);
    assert (s - start) * SECTOR_SIZE + from == offset + done;
    assert sector == PatchedSector(disk, start, offset, data[..done + chunk], s);
    forall s' | 0 <= s' < |disk| && s' != s
      ensures PatchedSector(disk, start, offset, data[..done], s') == PatchedSector(disk, start, offset, data[..done + chunk], s')
    {
    }
  }

  class Device {
    var sectors: Sectors

    /** block_read() */
    method Read(s: nat, buffer: array<Byte>, at: nat)
      requires IsDisk(sectors) && s < |sectors| && at + SECTOR_SIZE <= buffer.Length
      modifies buffer
      ensures buffer[..] == old(buffer[..at]) + sectors[s] + old(buffer[at + SECTOR_SIZE..])
    {
      forall i | 0 <= i < SECTOR_SIZE {
        buffer[at + i] := sectors[s][i];
      }
    }

    /** block_write() */
    method Write(s: nat, buffer: array<Byte>, at: nat)
      requires IsDisk(sectors) && s < |sectors| && at + SECTOR_SIZE <= buffer.Length
      modifies this
      ensures IsDisk(sectors) && sectors == old(sectors)[s := buffer[at..at + SECTOR_SIZE]]
    {
      sectors := sectors[s := buffer[at..at + SECTOR_SIZE]];
    }
  }

  /** struct inode, as far as byte access goes */
  class Inode {
    const start: nat
    const length: nat
    var denyWriteCnt: nat

    ghost predicate On(dev: Device)
      reads dev
    {
      IsDisk(dev.sectors) && HasExtent(dev.sectors, start, length)
    }

    /** The transfer of one chunk from the device, directly or through the bounce buffer */
    method ReadChunk(dev: Device, sector: nat, from: nat, chunk: nat, buffer: array<Byte>, at: nat, bounce: array?<Byte>)
      requires IsDisk(dev.sectors) && sector < |dev.sectors| && from + chunk <= SECTOR_SIZE && at + chunk <= buffer.Length
      requires bounce == null ==> chunk == SECTOR_SIZE
      requires bounce != null ==> bounce.Length == SECTOR_SIZE && bounce != buffer
      modifies buffer, bounce
      ensures var was, now := old(buffer[..]), buffer[..];
              && now[..at] == was[..at] && now[at + chunk..] == was[at + chunk..]
              && now[at..at + chunk] == dev.sectors[sector][from..from + chunk]
    {
      if from == 0 && chunk == SECTOR_SIZE {
        dev.Read(sector, buffer, at);
      } else {
        dev.Read(sector, bounce, 0);
        forall i | 0 <= i < chunk {
          buffer[at + i] := bounce[from + i];
        }
      }
    }

    /** The transfer of one chunk to the device.  A sector written in part is read first; the
        branch that would start from zeros is never taken. */
    method WriteChunk(dev: Device, sector: nat, from: nat, chunk: nat, buffer: array<Byte>, at: nat, bounce: array?<Byte>)
      requires IsDisk(dev.sectors) && sector < |dev.sectors| && from + chunk <= SECTOR_SIZE && at + chunk <= buffer.Length
      requires bounce == null ==> chunk == SECTOR_SIZE
      requires bounce != null ==> bounce.Length == SECTOR_SIZE && bounce != buffer
      modifies dev, bounce
      ensures IsDisk(dev.sectors) && |dev.sectors| == |old(dev.sectors)|
      ensures dev.sectors == old(dev.sectors)[sector := dev.sectors[sector]]
      ensures forall b :: 0 <= b < SECTOR_SIZE ==>
                dev.sectors[sector][b] == if from <= b < from + chunk then buffer[at + b - from] else old(dev.sectors)[sector][b]
    {
      if from == 0 && chunk == SECTOR_SIZE {
        dev.Write(sector, buffer, at);
      } else {
        if from > 0 || chunk < SECTOR_SIZE - from {
          dev.Read(sector, bounce, 0);
        } else {
          assert false;
        }
        forall i | 0 <= i < chunk {
          bounce[from + i] := buffer[at + i];
        }
        dev.Write(sector, bounce, 0);
      }
    }

    /** inode_read_at(): `memory` tells whether the bounce buffer can be had. */
    method ReadAt(dev: Device, buffer: array<Byte>, size: int, offset: nat, memory: bool) returns (n: nat)
      requires On(dev) && size <= buffer.Length
      modifies buffer
      ensures n == Transferred(size, offset, length, memory)
      ensures n <= buffer.Length && (n > 0 ==> offset + n <= length)
      ensures buffer[..] == Received(old(buffer[..]), Content(dev.sectors, start, length), offset, n)
    {
      hide Progress, Transferred, Content, Received;
      n := 0;
      ghost var was := buffer[..];
      ReceivedNothing(was, Content(dev.sectors, start, length), offset);
      var bounce: array?<Byte> := null;
      ghost var content := Content(dev.sectors, start, length);
      ProgressStarts(size, offset, length, memory);
      while size - n > 0
        invariant Progress(size, offset, length, memory, n)
        invariant n <= buffer.Length && (n > 0 ==> offset + n <= length)
        invariant bounce != null ==> bounce.Length == SECTOR_SIZE && fresh(bounce) && memory
        invariant buffer[..] == Received(was, content, offset, n)
        decreases size - n
      {
        var sector, from := start + (offset + n) / SECTOR_SIZE, (offset + n) % SECTOR_SIZE;
        var inodeLeft, sectorLeft := length - (offset + n), SECTOR_SIZE - from;
        var minLeft := if inodeLeft < sectorLeft then inodeLeft else sectorLeft;
        var chunk := if size - n < minLeft then size - n else minLeft;
        if chunk <= 0 {
          break;
        }
        if !(from == 0 && chunk == SECTOR_SIZE) && bounce == null {
          if !memory {
            break;
          }
          bounce := new Byte[SECTOR_SIZE];
        }
        ProgressSteps(size, offset, length, memory, n);
        ChunkBytes(dev.sectors, start, length, offset, n, chunk);
        ReadChunk(dev, sector, from, chunk, buffer, n, bounce);
        ReceivedMore(was, content, offset, n, chunk, buffer[..]);
        n := n + chunk;
      }
      ProgressEnds(size, offset, length, memory, n);
    }

    /** inode_write_at() */
    method WriteAt(dev: Device, buffer: array<Byte>, size: int, offset: nat, memory: bool) returns (n: nat)
      requires On(dev) && size <= buffer.Length
      modifies dev
      ensures n == if denyWriteCnt > 0 then 0 else Transferred(size, offset, length, memory)
      ensures n <= buffer.Length && (n > 0 ==> offset + n <= length)
      ensures On(dev) && dev.sectors == Patched(old(dev.sectors), start, offset, buffer[..n])
    {
      hide Progress, Transferred, Patched;
      n := 0;
      PatchedNothing(dev.sectors, start, offset, buffer[..0]);
      if denyWriteCnt > 0 {
        return;
      }
      var bounce: array?<Byte> := null;
      ghost var was, data := dev.sectors, buffer[..];
      ProgressStarts(size, offset, length, memory);
      while size - n > 0
        invariant Progress(size, offset, length, memory, n)
        invariant n <= buffer.Length && (n > 0 ==> offset + n <= length)
        invariant bounce != null ==> bounce.Length == SECTOR_SIZE && fresh(bounce) && memory
        invariant IsDisk(dev.sectors) && |dev.sectors| == |was| && dev.sectors == Patched(was, start, offset, data[..n])
        invariant buffer[..] == data
        decreases size - n
      {
        var sector, from := start + (offset + n) / SECTOR_SIZE, (offset + n) % SECTOR_SIZE;
        var inodeLeft, sectorLeft := length - (offset + n), SECTOR_SIZE - from;
        var minLeft := if inodeLeft < sectorLeft then inodeLeft else sectorLeft;
        var chunk := if size - n < minLeft then size - n else minLeft;
        if chunk <= 0 {
          break;
        }
        if !(from == 0 && chunk == SECTOR_SIZE) && bounce == null {
          if !memory {
            break;
          }
          bounce := new Byte[SECTOR_SIZE];
        }
        ProgressSteps(size, offset, length, memory, n);
        PatchedBytes(was, start, offset, data[..n], sector);
        WriteChunk(dev, sector, from, chunk, buffer, n, bounce);
        ChunkWritten(was, start, offset, data, n, chunk, dev.sectors[sector]);
        n := n + chunk;
      }
      assert data[..n] == buffer[..n];
      ProgressEnds(size, offset, length, memory, n);
    }
  }
}
