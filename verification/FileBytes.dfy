/** Reading and writing single bytes through the buffer of an open file. */
module FileBytes {
  import opened Bytes
  import opened Chains
  import opened Layout
  import opened Tracks
  import opened FileSpec
  import opened FileSteps

  /** A byte sequence with data written over it at pos, extending it where data runs past its end. */
  function Splice(c: seq<byte>, pos: nat, data: seq<byte>): (r: seq<byte>)
    requires pos <= |c|
    ensures |r| == if pos + |data| <= |c| then |c| else pos + |data|
    ensures forall p :: 0 <= p < |r| ==> r[p] == if pos <= p < pos + |data| then data[p - pos] else c[p]
  {
    if pos + |data| <= |c| then c[..pos] + data + c[pos + |data|..] else c[..pos] + data
  }

  /** Writing one more byte behind what has been written. */
  lemma SpliceStep(c: seq<byte>, pos: nat, data: seq<byte>, i: nat)
    requires pos <= |c| && i < |data|
    ensures Splice(Splice(c, pos, data[..i]), pos + i, [data[i]]) == Splice(c, pos, data[..i + 1])
  {
  }

  lemma SpliceNothing(c: seq<byte>, pos: nat)
    requires pos <= |c|
    ensures Splice(c, pos, []) == c
  {
  }

  /** The caller's buffer after the first i bytes of c from pos on have been copied to its front. */
  ghost predicate Filled(out: seq<byte>, c: seq<byte>, pos: nat, i: nat, out0: seq<byte>) {
    pos + i <= |c| && i <= |out0| && out == c[pos..pos + i] + out0[i..]
  }

  lemma FillStart(c: seq<byte>, pos: nat, out0: seq<byte>)
    requires pos <= |c|
    ensures Filled(out0, c, pos, 0, out0)
  {
  }

  lemma FillStep(out: seq<byte>, c: seq<byte>, pos: nat, i: nat, out0: seq<byte>)
    requires Filled(out, c, pos, i, out0) && pos + i < |c| && i < |out0|
    ensures |out| == |out0| && Filled(out[i := c[pos + i]], c, pos, i + 1, out0)
  {
  }

  /** The descriptor after one byte has been read. */
  function ByteRead(f: Desc): Desc {
    f.(cursor := f.cursor + 1)
  }

  /** The descriptor after byte b has been put at its position; only regular files have a length. */
  function BytePut(f: Desc, b: byte): Desc
    requires f.cursor < |f.buffer|
  {
    var grows := !f.IsDir() && f.Pos() == f.size;
    f.(buffer := f.buffer[f.cursor := b], cursor := f.cursor + 1, size := if grows then f.size + 1 else f.size,
       flags := f.flags.(dirty := true, fsDirty := f.flags.fsDirty || grows))
  }

  lemma ReadInv(g: Geometry, d: Disk, f: Desc, ch: seq<nat>, dir: seq<nat>)
    requires Inv(g, d, f, ch, dir) && f.cursor < 512 && f.Pos() < Length(g, f, ch)
    ensures Inv(g, d, ByteRead(f), ch, dir)
  {
    assert !Spent(g, f, ch);
    hide Table, VolumeOk, IsChain, SectorOf, ClusterOf, LeftAt, Quiet, RoomAt, Sectors;
  }

  /** The byte under the cursor is the byte of the file at the position. */
  lemma ReadByte(g: Geometry, d: Disk, f: Desc, ch: seq<nat>, dir: seq<nat>)
    requires Inv(g, d, f, ch, dir) && f.cursor < 512 && f.Pos() < Length(g, f, ch)
    ensures |f.buffer| == 512 && f.buffer[f.cursor] == Content(g, d, f, ch, dir)[f.Pos()]
    ensures Inv(g, d, ByteRead(f), ch, dir)
    ensures Content(g, d, ByteRead(f), ch, dir) == Content(g, d, f, ch, dir)
  {
    ReadInv(g, d, f, ch, dir);
    BufferCurrent(g, d, f, ch, dir);
    InvReadable(g, d, ByteRead(f), ch, dir);
    ContentAt(g, d, f, ch, dir, f.Pos());
    assert f.Pos() / 512 == f.fileSector && f.Pos() % 512 == f.cursor;
    hide Inv, Content, SectorOf, Sectors;
    SameContent(g, d, f, ch, dir, d, ByteRead(f), ch, dir);
  }

  lemma PutInv(g: Geometry, d: Disk, f: Desc, ch: seq<nat>, dir: seq<nat>, b: byte)
    requires Inv(g, d, f, ch, dir) && f.cursor < 512 && f.flags.canWrite && (f.IsDir() || f.size + 1 < 0x8000_0000)
    ensures |f.buffer| == 512 && Inv(g, d, BytePut(f, b), ch, dir)
  {
    InvReadable(g, d, f, ch, dir);
    hide Table, VolumeOk, IsChain, SectorOf;
  }

  /** After putting b only the byte at the position reads differently. */
  lemma PutAt(g: Geometry, d: Disk, f: Desc, ch: seq<nat>, b: byte, p: nat)
    requires f.cursor < 512 == |f.buffer| && p < Capacity(g, f, ch)
    requires Readable(g, d, f, ch) && (f.sector == 0 ==> f.fileSector == 0)
    requires f.sector != 0 && !f.flags.dirty ==>
      f.fileSector < Sectors(g, ch) && f.buffer == d[SectorOf(g, ch, f.fileSector)]
    ensures Readable(g, d, BytePut(f, b), ch) && Capacity(g, BytePut(f, b), ch) == Capacity(g, f, ch)
    ensures ByteAt(g, d, BytePut(f, b), ch, p) == if p == f.Pos() then b else ByteAt(g, d, f, ch, p)
  {
    assert p == p / 512 * 512 + p % 512;
  }

  /** What PutAt needs of an open file. */
  lemma BufferCurrent(g: Geometry, d: Disk, f: Desc, ch: seq<nat>, dir: seq<nat>)
    requires Inv(g, d, f, ch, dir) && f.cursor < 512
    ensures |f.buffer| == 512 && Readable(g, d, f, ch) && (f.sector == 0 ==> f.fileSector == 0)
    ensures f.sector != 0 && !f.flags.dirty ==>
      f.fileSector < Sectors(g, ch) && f.buffer == d[SectorOf(g, ch, f.fileSector)]
    ensures f.Pos() <= Length(g, f, ch) == |Content(g, d, f, ch, dir)| <= Capacity(g, f, ch)
    ensures f.IsDir() ==> f.Pos() < Length(g, f, ch)
  {
    InvReadable(g, d, f, ch, dir);
  }

  /** Putting a byte at the position overwrites or appends that byte of the file. */
  lemma PutByte(g: Geometry, d: Disk, f: Desc, ch: seq<nat>, dir: seq<nat>, b: byte)
    requires Inv(g, d, f, ch, dir) && f.cursor < 512 && f.flags.canWrite && (f.IsDir() || f.size + 1 < 0x8000_0000)
    ensures |f.buffer| == 512 && f.Pos() <= |Content(g, d, f, ch, dir)|
    ensures Inv(g, d, BytePut(f, b), ch, dir)
    ensures Content(g, d, BytePut(f, b), ch, dir) == Splice(Content(g, d, f, ch, dir), f.Pos(), [b])
  {
    hide Content, Inv, Table, VolumeOk, SectorOf, Sectors, ByteAt, Readable;
    PutInv(g, d, f, ch, dir, b);
    BufferCurrent(g, d, f, ch, dir);
    var f' := BytePut(f, b);
    var c, c' := Content(g, d, f, ch, dir), Content(g, d, f', ch, dir);
    var r := Splice(c, f.Pos(), [b]);
    forall p | 0 <= p < |c'| ensures c'[p] == r[p] {
      ContentAt(g, d, f', ch, dir, p);
      PutAt(g, d, f, ch, b, p);
      if p < |c| { ContentAt(g, d, f, ch, dir, p); }
    }
  }

  // ---------------------------------------------------------------- what a call has done so far

  /** From (d0, f0) to (d, f) the file has become c with the position at pos, within the frame of the file. */
  ghost predicate Worked(g: Geometry, d0: Disk, f0: Desc, ch0: seq<nat>, dir: seq<nat>,
                         d: Disk, f: Desc, ch: seq<nat>, c: seq<byte>, pos: nat) {
    && Inv(g, d0, f0, ch0, dir) && Inv(g, d, f, ch, dir)
    && Content(g, d, f, ch, dir) == c && f.Pos() == pos
    && SameFile(f0, f) && ch0 <= ch && SlotStep(g, d0, f0, dir, d, f)
    && Frame(g, d0, d, ch0, ch, f.entrySector, f.entryNumber)
  }

  lemma WorkedNothing(g: Geometry, d: Disk, f: Desc, ch: seq<nat>, dir: seq<nat>)
    requires Inv(g, d, f, ch, dir)
    ensures Worked(g, d, f, ch, dir, d, f, ch, Content(g, d, f, ch, dir), f.Pos())
    ensures f.Pos() <= |Content(g, d, f, ch, dir)| && |f.buffer| == 512 && f.cursor <= 512
    ensures |Content(g, d, f, ch, dir)| == Length(g, f, ch)
  {
    InvReadable(g, d, f, ch, dir);
    FrameRefl(g, d, ch, f.entrySector, f.entryNumber);
  }

  lemma WorkedFacts(g: Geometry, d0: Disk, f0: Desc, ch0: seq<nat>, dir: seq<nat>, d: Disk, f: Desc, ch: seq<nat>,
                    c: seq<byte>, pos: nat)
    requires Worked(g, d0, f0, ch0, dir, d, f, ch, c, pos)
    ensures Inv(g, d, f, ch, dir) && |f.buffer| == 512 && f.cursor <= 512
    ensures Content(g, d, f, ch, dir) == c
    ensures f.Pos() == pos <= |c| == Length(g, f, ch)
    ensures f.IsDir() == f0.IsDir() && f.flags.canWrite == f0.flags.canWrite && |f.meta.accessed| == 2
    ensures |f.meta.modified| == 4
    ensures if f.IsDir() then f.sector != 0 && (f.cursor < 512 ==> pos < |c|) else |c| == f.size
    ensures Roomy(g, d0, f0, dir) ==> Roomy(g, d, f, dir)
  {
    InvReadable(g, d, f, ch, dir);
    if Roomy(g, d0, f0, dir) { RoomyLater(g, d0, f0, dir, d, f); }
  }

  /** A file that has not taken a slot has left the disk alone, so there is still room for one. */
  lemma RoomyLater(g: Geometry, d: Disk, f: Desc, dir: seq<nat>, d': Disk, f': Desc)
    requires SlotStep(g, d, f, dir, d', f') && SameFile(f, f') && Roomy(g, d, f, dir)
    ensures Roomy(g, d', f', dir)
  {
    assert f'.IsDir() == f.IsDir();
  }

  /** A file open for reading only has nothing unsaved, and crossing to its next sector writes nothing. */
  lemma ReadOnlyClean(g: Geometry, d: Disk, f: Desc, ch: seq<nat>, dir: seq<nat>)
    requires Inv(g, d, f, ch, dir) && !f.flags.canWrite
    ensures !f.flags.dirty
  {
  }

  lemma ReadOnlyCross(g: Geometry, d: Disk, f: Desc, ch: seq<nat>, dir: seq<nat>, d': Disk, ch': seq<nat>, err: bool)
    requires Inv(g, d, f, ch, dir) && !f.flags.canWrite && f.cursor == 512 && Crossed(g, d, f, ch, d', ch', err)
    ensures d' == d && ch' == ch
  {
    InvReadable(g, d, f, ch, dir);
  }

  /** In front of the end of a directory there is another sector. */
  lemma MoreAhead(g: Geometry, d: Disk, f: Desc, ch: seq<nat>, dir: seq<nat>)
    requires Inv(g, d, f, ch, dir) && f.IsDir() && f.cursor == 512 && f.Pos() < Length(g, f, ch)
    ensures f.fileSector + 1 < Sectors(g, ch)
  {
  }

  /** A descriptor that can go no further stands at the end of its file. */
  lemma EndOfFile(g: Geometry, d: Disk, f: Desc, ch: seq<nat>, dir: seq<nat>)
    requires Inv(g, d, f, ch, dir) && f.cursor == 512 && (f.sector == 0 || Stuck(g, d, f, ch))
    ensures f.Pos() == |Content(g, d, f, ch, dir)|
  {
    InvReadable(g, d, f, ch, dir);
  }

  lemma WorkedMore(g: Geometry, d0: Disk, f0: Desc, ch0: seq<nat>, dir: seq<nat>, d1: Disk, f1: Desc, ch1: seq<nat>,
                   c1: seq<byte>, pos1: nat, d2: Disk, f2: Desc, ch2: seq<nat>, c2: seq<byte>, pos2: nat)
    requires Worked(g, d0, f0, ch0, dir, d1, f1, ch1, c1, pos1)
    requires Worked(g, d1, f1, ch1, dir, d2, f2, ch2, c2, pos2)
    ensures Worked(g, d0, f0, ch0, dir, d2, f2, ch2, c2, pos2)
  {
    hide Inv, Content, Frame;
    FrameTrans(g, d0, d1, d2, ch0, ch1, ch2, f1.entrySector, f1.entryNumber, f2.entrySector, f2.entryNumber);
  }

  lemma WorkedKept(g: Geometry, d0: Disk, f0: Desc, ch0: seq<nat>, dir: seq<nat>, d1: Disk, f1: Desc, ch1: seq<nat>,
                   c: seq<byte>, pos: nat, d2: Disk, f2: Desc, ch2: seq<nat>)
    requires Worked(g, d0, f0, ch0, dir, d1, f1, ch1, c, pos) && Kept(g, d1, f1, ch1, dir, d2, f2, ch2, dir)
    ensures Worked(g, d0, f0, ch0, dir, d2, f2, ch2, c, f2.Pos()) && f2.meta.attributes == f1.meta.attributes
    ensures f2.size == f1.size && f2.flags.canWrite == f1.flags.canWrite && f2.IsDir() == f1.IsDir()
  {
    hide Inv, Content, Frame;
    WorkedMore(g, d0, f0, ch0, dir, d1, f1, ch1, c, pos, d2, f2, ch2, c, f2.Pos());
  }

  /** A move that keeps the invariant and the content is work on the file. */
  lemma WorkedMoved(g: Geometry, d0: Disk, f0: Desc, ch0: seq<nat>, dir: seq<nat>, d: Disk, f: Desc, ch: seq<nat>,
                    c: seq<byte>, pos: nat, f': Desc)
    requires Worked(g, d0, f0, ch0, dir, d, f, ch, c, pos)
    requires Inv(g, d, f', ch, dir) && Content(g, d, f', ch, dir) == Content(g, d, f, ch, dir)
    requires f' == f.(cluster := f'.cluster, sector := f'.sector, sectorsLeft := f'.sectorsLeft,
                      fileSector := f'.fileSector, cursor := f'.cursor, buffer := f'.buffer)
    requires f.sector != 0 <==> f'.sector != 0
    ensures Worked(g, d0, f0, ch0, dir, d, f', ch, c, f'.Pos())
  {
    hide Inv, Content, Frame;
  }

  lemma WorkedRead(g: Geometry, d0: Disk, f0: Desc, ch0: seq<nat>, dir: seq<nat>, d: Disk, f: Desc, ch: seq<nat>,
                   c: seq<byte>, pos: nat)
    requires Worked(g, d0, f0, ch0, dir, d, f, ch, c, pos) && f.cursor < 512 && pos < |c|
    ensures |f.buffer| == 512 && f.buffer[f.cursor] == c[pos]
    ensures Worked(g, d0, f0, ch0, dir, d, ByteRead(f), ch, c, pos + 1)
  {
    ReadByte(g, d, f, ch, dir);
    hide Inv, Content, Frame;
  }

  lemma WorkedPut(g: Geometry, d0: Disk, f0: Desc, ch0: seq<nat>, dir: seq<nat>, d: Disk, f: Desc, ch: seq<nat>,
                  c: seq<byte>, pos: nat, b: byte)
    requires Worked(g, d0, f0, ch0, dir, d, f, ch, c, pos) && f.cursor < 512
    requires f.flags.canWrite && (f.IsDir() || (pos + 1 < 0x8000_0000 && |c| + 1 < 0x8000_0000))
    ensures |f.buffer| == 512 && pos <= |c|
    ensures Worked(g, d0, f0, ch0, dir, d, BytePut(f, b), ch, Splice(c, pos, [b]), pos + 1)
  {
    hide Inv, Content, Frame, Splice, SlotFound;
    PutByte(g, d, f, ch, dir, b);
  }

  lemma DatedKeeps(g: Geometry, d: Disk, f: Desc, ch: seq<nat>, dir: seq<nat>, accessed: seq<byte>, modified: seq<byte>)
    requires Inv(g, d, f, ch, dir) && |accessed| == 2 && |modified| == 4
    ensures Inv(g, d, Dated(f, accessed, modified), ch, dir)
    ensures Content(g, d, Dated(f, accessed, modified), ch, dir) == Content(g, d, f, ch, dir)
  {
    var f' := Dated(f, accessed, modified);
    hide Table, VolumeOk, IsChain, SectorOf;
    InvReadable(g, d, f, ch, dir);
    assert Inv(g, d, f', ch, dir);
    InvReadable(g, d, f', ch, dir);
    SameContent(g, d, f, ch, dir, d, f', ch, dir);
  }

  /** Changing the access or modification date only asks for the entry to be saved. */
  lemma WorkedDated(g: Geometry, d0: Disk, f0: Desc, ch0: seq<nat>, dir: seq<nat>, d: Disk, f: Desc, ch: seq<nat>,
                    c: seq<byte>, pos: nat, accessed: seq<byte>, modified: seq<byte>)
    requires Worked(g, d0, f0, ch0, dir, d, f, ch, c, pos) && |accessed| == 2 && |modified| == 4
    ensures Worked(g, d0, f0, ch0, dir, d, Dated(f, accessed, modified), ch, c, pos)
  {
    hide Inv, Content, Frame;
    DatedKeeps(g, d, f, ch, dir, accessed, modified);
  }

  /** The descriptor with new dates, to be saved. */
  function Dated(f: Desc, accessed: seq<byte>, modified: seq<byte>): Desc {
    f.(meta := f.meta.(accessed := accessed, modified := modified), flags := f.flags.(fsDirty := true))
  }

  lemma NeededTrans(g: Geometry, ch0: seq<nat>, s1: nat, ch1: seq<nat>, s2: nat, ch2: seq<nat>)
    requires Needed(g, ch0, s1, ch1) && Needed(g, ch1, s2, ch2) && s1 <= s2
    ensures Needed(g, ch0, s2, ch2)
  {
  }
}
