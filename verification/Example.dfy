/**
 Two small volumes with one file each: the invariants the other modules start from can be met, and the
 cases in which the driver goes wrong do occur.
 */
module Example {
  import opened Bytes
  import opened Chains
  import opened Layout
  import opened RawFat
  import opened Allocator
  import opened Tracks
  import opened FileSpec
  import opened FileBytes
  import opened FileView
  import opened FileSeek
  import opened FileStore
  import opened File
  import opened Sharing
  import opened Sessions
  import opened Dirents

  /** FAT16 with clusters of one sector: boot sector, FAT, two sectors of root directory, clusters 2 and 3. */
  function Geo(): Geometry {
    Geometry(false, 1, 2, 1, 1, 2, 2, 1, 4)
  }

  /** Entry 3 is free unless the volume is full; all others are end marks. */
  function Fat(full: bool): (s: seq<byte>)
    ensures |s| == 512
  {
    seq(512, i => if !full && (i == 6 || i == 7) then 0 else 0xFF)
  }

  /** Slot 0 is a file that starts in cluster 2: of one whole sector when the volume is full, otherwise of two bytes. */
  function Root(full: bool): (s: seq<byte>)
    ensures |s| == 512
  {
    seq(512, i => if i < 11 then 0x41 else if i == 11 then 0x20 else if i == 26 then 2
                  else if i == (if full then 29 else 28) then 2 else 0)
  }

  function Zeros(): (s: seq<byte>)
    ensures |s| == 512
  {
    seq(512, _ => 0)
  }

  /** A sector of the letter A. */
  function Letters(n: nat): (s: seq<byte>)
    ensures |s| == n && forall i :: 0 <= i < n ==> s[i] == 0x41
  {
    seq(n, _ => 0x41)
  }

  function Size(full: bool): nat {
    if full then 512 else 2
  }

  function Volume(full: bool): Disk {
    [Zeros(), Fat(full), Root(full), Zeros(), Letters(512), Zeros()]
  }

  lemma EntriesOf(full: bool, c: nat)
    requires c < 256
    ensures HasFat(Geo(), Volume(full)) && Entry(Geo(), Volume(full), c) == if c == 3 && !full then 0 else 0xFFFF
  {
    hide Root, Zeros, Letters;
    var e: byte := if c == 3 && !full then 0 else 0xFF;
    assert Volume(full)[1] == Fat(full);
    FatBytes(full, c);
    EntryPlace(c);
    hide Fat, Geo;
    TwoBytes(Fat(full), c * 2, e);
  }

  lemma FatBytes(full: bool, c: nat)
    requires c < 256
    ensures var e := if c == 3 && !full then 0 else 0xFF; Fat(full)[c * 2] == e && Fat(full)[c * 2 + 1] == e
  {
  }

  lemma EntryPlace(c: nat)
    requires c < 256
    ensures EntrySector(Geo(), c) == 1 && EntryOffset(Geo(), c) == c * 2
  {
  }

  lemma TwoBytes(s: seq<byte>, o: nat, e: byte)
    requires |s| == 512 && o + 2 <= 512 && s[o] == e && s[o + 1] == e
    ensures Decode(Geo(), s, o) == (e as nat) * 0x101
  {
  }

  lemma TableOf(full: bool)
    ensures HasFat(Geo(), Volume(full))
    ensures forall c :: 0 <= c < 256 ==> Table(Geo(), Volume(full))[c] == if c == 3 && !full then 0 else 0xFFFF
  {
    forall c | 0 <= c < 256 ensures Table(Geo(), Volume(full))[c] == if c == 3 && !full then 0 else 0xFFFF {
      EntriesOf(full, c);
    }
  }

  lemma WellFormed(full: bool)
    ensures VolumeOk(Geo(), Volume(full)) && |Volume(full)| == 6
  {
    TableOf(full);
    hide Table, Fat, Root, Zeros, Letters;
    assert Geo().Base(4) == 6;
  }

  lemma ChainOf2(full: bool)
    ensures HasFat(Geo(), Volume(full)) && IsChain(Table(Geo(), Volume(full)), Geo().EndMarker(), Geo().limit, [2])
  {
    TableOf(full);
    hide Table, Volume, HasFat;
  }

  /** The chain of the file is the heap of the volume that is not full. */
  lemma HeapOf2()
    ensures HasFat(Geo(), Volume(false))
    ensures Heap(Table(Geo(), Volume(false)), Geo().EndMarker(), Geo().limit, [[2]])
  {
    ChainOf2(false);
    TableOf(false);
    hide Table, Volume, HasFat, IsChain;
    var chains: seq<seq<nat>> := [[2]];
    assert 2 in chains[0];
  }

  /** Chains can be freed; there is a cluster to take on one volume only. */
  lemma RoomOnVolume(full: bool)
    ensures HasFat(Geo(), Volume(full)) && Walkable(Table(Geo(), Volume(full)), Geo().EndMarker())
    ensures Full(Table(Geo(), Volume(full))) <==> full
  {
    TableOf(full);
    hide Table, Volume, HasFat;
    assert full || Table(Geo(), Volume(full))[3] == 0;
  }

  lemma BaseOf(c: nat)
    requires c == 2 || c == 3
    ensures Geo().Base(c) == c + 2
  {
  }

  lemma QuietRoot(full: bool)
    ensures HasFat(Geo(), Volume(full)) && Quiet(Geo(), Table(Geo(), Volume(full)), [2], 2)
  {
    hide Table, Volume, HasFat, Geometry.Base;
    TableOf(full);
    BaseOf(2);
    BaseOf(3);
  }

  lemma BytesOf2(full: bool, p: nat)
    requires p < 512
    ensures VolumeOk(Geo(), Volume(full))
    ensures IsChain(Table(Geo(), Volume(full)), Geo().EndMarker(), Geo().limit, [2])
    ensures Sectors(Geo(), [2]) == 1 && DiskByte(Geo(), Volume(full), [2], p) == 0x41
  {
    hide Table, VolumeOk, IsChain, Root, Sectors, SectorOf, Geo;
    WellFormed(full);
    ChainOf2(full);
    OneSector();
    assert p / 512 == 0 && p % 512 == p;
    assert Volume(full)[4] == Letters(512);
  }

  lemma OneSector()
    ensures Sectors(Geo(), [2]) == 1 && SectorOf(Geo(), [2], 0) == 4
  {
    ClusterStart(Geo(), [2], 0, 0);
  }

  lemma SlotOfRoot(full: bool)
    ensures SlotAttributes(Root(full), 0) == 0x20 && SlotFirst(Geo(), Root(full), 0) == 2
    ensures SlotSize(Root(full), 0) == Size(full) && SlotName(Root(full), 0)[0] == 0x41
  {
  }

  /** The file is on disk. */
  lemma FileOnDisk(full: bool)
    ensures OnDisk(Geo(), Volume(full), 2, 0, [2], Letters(Size(full)))
  {
    hide Table, VolumeOk, IsChain, Root, SlotFirst, SlotSize, SlotAttributes, SlotName, Sectors, SectorOf, ClusterOf,
      Quiet, DiskByte;
    WellFormed(full);
    ChainOf2(full);
    SlotOfRoot(full);
    QuietRoot(full);
    OneSector();
    var c := Letters(Size(full));
    forall p | 0 <= p < |c| ensures DiskByte(Geo(), Volume(full), [2], p) == c[p] {
      BytesOf2(full, p);
    }
    assert Volume(full)[2] == Root(full);
  }

  /** A system with that file open meets the invariant of runs, and its heap is in order. */
  lemma OpenSystem() returns (s: System)
    ensures SystemOk(Geo(), s) && |s.files| == 1 && HeapOk(Geo(), s, [])
    ensures OpenOk(Geo(), s.d, s.files[0]) && Meaning(Geo(), s.d, s.files[0]).bytes == [0x41, 0x41]
  {
    FileOnDisk(false);
    HeapOf2();
    hide OnDisk, Heap, Table, Volume, Geo, Inv, Content;
    var b := ReopenedInv(Geo(), Volume(false), 2, 0, [2], Letters(2));
    assert b.f.entrySector != 0;
    s := System(Volume(false), [b]);
    assert VolumeOk(Geo(), s.d) by { WellFormed(false); }
    assert Letters(2) == [0x41, 0x41];
    assert [] + ChainsOf(s.files) == [[2]];
  }

  // ---------------------------------------------------------------- a seek that does not arrive

  /** For a writer the seek to the end of the full volume's file would have to take a cluster. */
  lemma NoWayToEnd(f: Desc)
    requires f.sector != 0 && !f.flags.dirty && f.flags.canWrite && f.cluster != 0xFFFF_FFFF
    ensures HasFat(Geo(), Volume(true)) && !SeekWorks(Geo(), Volume(true), f, [2], 512)
    ensures BogusSector(Geo()) == 1 && Geo().InFat(1)
  {
    hide Table, Volume, VolumeOk, Sectors, InUse, Full, HasFat, IsRoot, BogusSector, Walkable, HasLast;
    RoomOnVolume(true);
    FullCount(Table(Geo(), Volume(true)));
    OneSector();
    Bogus();
  }

  lemma Bogus()
    ensures BogusSector(Geo()) == 1
  {
    assert Wrap32(0xFFFF_FFFF * 1) == 0xFFFF_FFFF;
  }

  /** The record of the full volume's file when it has been opened. */
  lemma OpenedFull(f: Desc, dir: seq<nat>)
    requires ValidDisk(Volume(true)) && OpenedAt(Geo(), Volume(true), 2, 0, f)
    requires Inv(Geo(), Volume(true), f, [2], dir)
    ensures f.sector != 0 && !f.flags.dirty && f.size == 512 && f.Pos() == 0 && f.first != 0
    ensures View(Geo(), f, [2]) == f && f.cluster != 0xFFFF_FFFF && !f.IsDir()
    ensures !NoRoom(Geo(), Volume(true), f)
  {
    hide Table, VolumeOk, Root, SlotFirst, SlotSize, Placed, Content, View;
    ViewSame(Geo(), Volume(true), f, [2], dir);
    SlotOfRoot(true);
    assert Volume(true)[2] == Root(true);
  }

  /** A seek of an open file that misses the end leaves the device as large as it is. */
  lemma MissedEnd(g: Geometry, d0: Disk, f0: Desc, ch0: seq<nat>, dir: seq<nat>, d: Disk, f: Desc, ch: seq<nat>,
                  c: seq<byte>, t: nat)
    requires Missed(g, d0, f0, ch0, dir, d, f, ch, c, t) && f0.Pos() != t && !NoRoom(g, d0, f0)
    ensures |d| == |d0| && f.sector == BogusSector(g)
  {
    hide Stands, NoRoom, Intact, Torn;
    IntactSize(g, d0, f0, ch0, dir, d, ch, c);
  }

  /**
   A file that fills its only cluster, on a full volume: opened for writing and positioned at its end, the
   descriptor is on a sector of the FAT, and the call reports success.
   */
  method SeekToEnd(f: FileS) returns (r: int)
    requires f.Ready() && f.fs.g == Geo() && f.Disk() == Volume(true)
    modifies f, f.buffer, f.fs.sysbuf, f.fs.dev
    ensures r == 512 && f.sector == 1 && Geo().InFat(f.sector) && f.flags.canWrite
  {
    hide OnDisk, Inv, Content, VolumeOk, Volume, Worked, SeekWorks, SeekOk, Missed, OpenedAt, Roomy, Table, NoRoom,
      View, Resting, Stands;
    FileOnDisk(true);
    WellFormed(true);
    var _ := f.OpenSlot(2, 0, true, true, false, [2], Letters(512));
    ghost var d0, f0, c, fdir := f.Disk(), f.Snap(), Letters(512), f.dir;
    OpenedFull(f0, fdir);
    NoWayToEnd(f0);
    r := f.Lseek(0, 2);
    MissedEnd(Geo(), d0, f0, [2], fdir, f.Disk(), f.Snap(), f.chain, c, 512);
    MissedMode(Geo(), d0, f0, [2], fdir, f.Disk(), f.Snap(), f.chain, c, 512);
    assert |f.Disk()| == 6 by { WellFormed(true); }
  }

  lemma MissedMode(g: Geometry, d0: Disk, f0: Desc, ch0: seq<nat>, dir: seq<nat>, d: Disk, f: Desc, ch: seq<nat>,
                   c: seq<byte>, t: nat)
    requires Missed(g, d0, f0, ch0, dir, d, f, ch, c, t)
    ensures f.flags.canWrite == f0.flags.canWrite && f.cursor == t % 512 && (f0.Pos() == t ==> f.sector < |d|)
    ensures f0.Pos() == t && !NoRoom(g, d0, f0) ==> FatShown(g, d, f)
    ensures f0.Pos() == t ==> f.fileSector == f0.fileSector && f0.cursor == 512
  {
    hide Stands, Worked, LostSector, Adrift, NoRoom, Torn, FatShown;
  }

  /**
   A reader of the same file is unharmed: its seek to the end gives the size, it reads nothing there, and
   back at the start it reads the file.
   */
  method SizeThenRead(f: FileS, out: array<byte>, today: seq<byte>) returns (size: int, none: int, back: int, n: int)
    requires f.Ready() && f.fs.g == Geo() && f.Disk() == Volume(true) && |today| == 2
    requires out.Length == 512 && out != f.buffer && out != f.fs.sysbuf
    modifies f, f.buffer, f.fs.sysbuf, f.fs.dev, out
    ensures size == 512 && none == 0 && back == 0 && n == 512 && out[..] == Letters(512)
  {
    hide OnDisk, Inv, Content, VolumeOk, Volume, Worked, SeekWorks, SeekOk, Missed, OpenedAt, Roomy, Table, NoRoom,
      View, Resting, Stands, Filled;
    FileOnDisk(true);
    WellFormed(true);
    var _ := f.OpenSlot(2, 0, true, false, false, [2], Letters(512));
    ghost var d0, f0, c, fdir := f.Disk(), f.Snap(), Letters(512), f.dir;
    OpenedFull(f0, fdir);
    EndInReach(f0);
    size := f.Lseek(0, 2);
    ghost var d1, f1, v1, ch1 := f.Disk(), f.Snap(), f.Viewed(), f.chain;
    StandsFacts(Geo(), d0, f0, [2], fdir, d1, f1, ch1, c, 512);
    ViewFlags(Geo(), f1, ch1);
    none := f.Read(out, 512, today);
    ghost var d2, f2, v2, ch2 := f.Disk(), f.Snap(), f.Viewed(), f.chain;
    NothingRead(Geo(), d1, f1, ch1, fdir, d2, f2, ch2, c, 512);
    StandsFacts(Geo(), d1, v1, ch1, fdir, d2, f2, ch2, c, 512);
    ViewFlags(Geo(), f2, ch2);
    ReaderRoomy(Geo(), d1, v1, fdir);
    ReaderRoomy(Geo(), d2, f2, fdir);
    StartInReach(Geo(), d2, f2, ch2, fdir);
    back := f.Lseek(0, 0);
    StandsFacts(Geo(), d2, v2, ch2, fdir, f.Disk(), f.Snap(), f.chain, c, 0);
    ReaderRoomy(Geo(), f.Disk(), f.Snap(), fdir);
    ghost var out0 := out[..];
    n := f.Read(out, 512, today);
    FilledWhole(out[..], c, out0);
  }

  lemma ReaderRoomy(g: Geometry, d: Disk, f: Desc, dir: seq<nat>)
    requires !f.flags.canWrite
    ensures Roomy(g, d, f, dir)
  {
  }

  /** The reader's seek to the end arrives. */
  lemma EndInReach(f: Desc)
    requires !f.flags.canWrite && f.first != 0 && f.Pos() == 0
    ensures SeekWorks(Geo(), Volume(true), f, [2], 512)
  {
    hide SeekOk, NoRoom, Sectors, View, BogusSector, Fat, Root, Zeros, Letters;
    OneSector();
    Bogus();
  }

  /** The start of a file is always in reach of a reader. */
  lemma StartInReach(g: Geometry, d: Disk, f: Desc, ch: seq<nat>, dir: seq<nat>)
    requires Inv(g, d, View(g, f, ch), ch, dir) && !f.flags.canWrite && !f.IsDir()
    ensures SeekWorks(g, d, f, ch, 0)
  {
    hide View, RestsAt, NoRoom;
    ViewFlags(g, f, ch);
    StartNeeds(g, d, View(g, f, ch), ch, dir);
  }

  lemma StartNeeds(g: Geometry, d: Disk, f: Desc, ch: seq<nat>, dir: seq<nat>)
    requires Inv(g, d, f, ch, dir) && !f.flags.canWrite
    ensures SeekOk(g, d, f, ch, 0)
  {
    InvReadable(g, d, f, ch, dir);
    hide Table, SectorOf;
  }

  /** A read that finds nothing, at rest or not. */
  lemma NothingRead(g: Geometry, d: Disk, f: Desc, ch: seq<nat>, dir: seq<nat>, d': Disk, f': Desc, ch': seq<nat>,
                    c: seq<byte>, pos: nat)
    requires Inv(g, d, View(g, f, ch), ch, dir) && Content(g, d, View(g, f, ch), ch, dir) == c && f.Pos() == pos
    requires if f.cluster == 0xFFFF_FFFF then Resting(g, d, f, ch) && d' == d && f' == f && ch' == ch
             else View(g, f, ch) == f && Worked(g, d, f, ch, dir, d', f', ch', c, pos)
    ensures Stands(g, d, View(g, f, ch), ch, dir, d', f', ch', c, pos)
  {
    hide Inv, Content, Worked, Resting, View, Stands;
    if f.cluster == 0xFFFF_FFFF {
      RestFlags(g, d, f, ch);
      RestStands(g, d, f, ch, dir, c);
    } else {
      StandsPlain(g, d, f, ch, dir, d', f', ch', c, pos);
    }
  }

  lemma RestStands(g: Geometry, d: Disk, f: Desc, ch: seq<nat>, dir: seq<nat>, c: seq<byte>)
    requires Resting(g, d, f, ch) && Inv(g, d, View(g, f, ch), ch, dir) && Content(g, d, View(g, f, ch), ch, dir) == c
    ensures Stands(g, d, View(g, f, ch), ch, dir, d, f, ch, c, f.Pos())
  {
    hide Inv, Content, Worked, View, Resting;
    RestFacts(g, d, f, ch, dir);
    RestFlags(g, d, f, ch);
    WorkedNothing(g, d, View(g, f, ch), ch, dir);
  }

  lemma FilledWhole(out: seq<byte>, c: seq<byte>, out0: seq<byte>)
    requires Filled(out, c, 0, 512, out0) && |c| == 512 == |out0|
    ensures out == c
  {
  }

  /** A reader that has read the whole file and then seeks to its end is put back to the start of its last sector,
      and what it would read there is a sector of the FAT. */
  method ReadThenSeek(f: FileS, out: array<byte>, today: seq<byte>) returns (n: int, r: int)
    requires f.Ready() && f.fs.g == Geo() && f.Disk() == Volume(true) && |today| == 2
    requires out.Length == 512 && out != f.buffer && out != f.fs.sysbuf
    modifies f, f.buffer, f.fs.sysbuf, f.fs.dev, out
    ensures n == 512 && r == 512 && f.Snap().Pos() == 0 && f.ShowsFat()
  {
    hide OnDisk, Inv, Content, VolumeOk, Volume, Worked, SeekWorks, SeekOk, Missed, OpenedAt, Roomy, Table, NoRoom,
      View, Resting, Stands, Filled;
    FileOnDisk(true);
    WellFormed(true);
    var _ := f.OpenSlot(2, 0, true, false, false, [2], Letters(512));
    ghost var d0, f0, c, fdir := f.Disk(), f.Snap(), Letters(512), f.dir;
    OpenedFull(f0, fdir);
    n := f.Read(out, 512, today);
    ghost var d1, f1, ch1 := f.Disk(), f.Snap(), f.chain;
    WorkedMode(Geo(), d0, f0, [2], fdir, d1, f1, ch1, c, 512);
    ReadAway(Geo(), d0, f0, fdir, d1, f1, c);
    r := f.Lseek(0, 2);
    MissedMode(Geo(), d1, f1, [2], fdir, f.Disk(), f.Snap(), f.chain, c, 512);
  }

  /** A reader that has rolled off the only sector of its file is out of reach of where it stands. */
  lemma ReadAway(g: Geometry, d0: Disk, f0: Desc, dir: seq<nat>, d: Disk, f: Desc, c: seq<byte>)
    requires Worked(g, d0, f0, [2], dir, d, f, [2], c, 512) && |c| == 512 && !f0.flags.canWrite && !f0.IsDir()
    requires g == Geo()
    ensures Inv(g, d, f, [2], dir) && View(g, f, [2]) == f && !f.flags.canWrite && !f.IsDir() && Roomy(g, d, f, dir)
    ensures Content(g, d, f, [2], dir) == c && f.Pos() == 512 == f.size && f.cursor == 512 && f.fileSector == 0
    ensures f.flags.isOpen == f0.flags.isOpen && !SeekWorks(g, d, f, [2], 512) && !NoRoom(g, d, f)
  {
    hide Inv, Content, Worked, View, SeekWorks, Geo, Sectors;
    WorkedFacts(g, d0, f0, [2], dir, d, f, [2], c, 512);
    WorkedMode(g, d0, f0, [2], dir, d, f, [2], c, 512);
    ViewSame(g, d, f, [2], dir);
    OneSector();
    AtOwnEnd(g, d, f, dir);
    ReadOnlySeek(g, d, f, [2], dir, 512);
    ReadOnlyClean(g, d, f, [2], dir);
    NotFull(g, d, f);
  }

  lemma AtOwnEnd(g: Geometry, d: Disk, f: Desc, dir: seq<nat>)
    requires Inv(g, d, f, [2], dir) && f.Pos() == 512 && Sectors(g, [2]) == 1 && !f.IsDir() && f.size == 512
    requires !f.flags.canWrite
    ensures f.fileSector == 0 && f.cursor == 512 && f.sector != 0 && Roomy(g, d, f, dir)
  {
    InvReadable(g, d, f, [2], dir);
    hide Table, Sectors;
  }

  /** Appending to that file: one byte is reported as written, but it is in the buffer of a sector of the FAT, and
      the next flush stores it there. */
  method AppendLost(f: FileS, b: byte, now: seq<byte>) returns (n: int)
    requires f.Ready() && f.fs.g == Geo() && f.Disk() == Volume(true) && |now| == 4 && b != 0xFF
    modifies f, f.buffer, f.fs.sysbuf, f.fs.dev
    ensures n == 1 && Geo().InFat(1) && |f.Disk()| == 6 && f.Disk()[1] != Volume(true)[1]
    ensures |f.Disk()[1]| == 512 && f.Disk()[1][0] == b
  {
    hide OnDisk, Inv, Content, VolumeOk, Volume, Worked, SeekWorks, SeekOk, Misplaced, OpenedAt, Roomy, Table, Splice,
      Blocked, NoRoom, View, Resting;
    FileOnDisk(true);
    WellFormed(true);
    var _ := f.OpenSlot(2, 0, true, true, true, [2], Letters(512));
    ghost var d0, f0, c, fdir := f.Disk(), f.Snap(), Letters(512), f.dir;
    OpenedFull(f0, fdir);
    NoWayToEnd(f0);
    ghost var k;
    n, k := f.Write([b], now);
    AppendEnd(Geo(), d0, f0, [2], fdir, f.Disk(), f.Snap(), f.chain, c, b, k);
    var _ := f.Flush();
    assert Volume(true)[1][0] == 0xFF by { FatStart(); }
  }

  lemma FatStart()
    ensures |Volume(true)| == 6 && |Volume(true)[1]| == 512 && Volume(true)[1][0] == 0xFF
  {
  }

  lemma AppendEnd(g: Geometry, d0: Disk, f0: Desc, ch0: seq<nat>, dir: seq<nat>, d: Disk, f: Desc, ch: seq<nat>,
                  c: seq<byte>, b: byte, k: nat)
    requires Misplaced(g, d0, f0, ch0, dir, d, f, ch, c, [b], k) && f0.Pos() != |c| && |c| == 512
    requires !NoRoom(g, d0, f0)
    ensures k == 1 && f.flags.dirty && f.sector == BogusSector(g) && !Inv(g, d, f, ch, dir) && |d| == |d0|
    ensures |f.buffer| == 512 && f.buffer[0] == b && f.size == 513
  {
    hide Worked, Splice, NoRoom, Intact, Adrift;
    assert f.buffer[..1][0] == b;
    IntactSize(g, d0, f0, ch0, dir, d, ch, c);
    AdriftNotInv(g, d, f, ch, dir);
  }

  // ---------------------------------------------------------------- a full root directory

  /** A volume without a file that is all letters behind the FAT: its root directory has no unused entry. */
  function Crowded(): Disk {
    [Zeros(), Fat(true), Letters(512), Letters(512), Letters(512), Letters(512)]
  }

  /** The root directory of that volume, as it is when it has been opened. */
  function OpenRoot(): Desc {
    Desc(Flags(true, true, false, false, false, false), Letters(512), 2, 1, 2, 0, 0, 0, 1, 0, 0, 0,
         Meta(Letters(11), 0x10, [0, 0, 0, 0, 0], [0, 0], [0, 0, 0, 0]))
  }

  lemma CrowdedOk()
    ensures VolumeOk(Geo(), Crowded()) && |Crowded()| == 6
  {
    hide Table, Volume, Crowded, HasFat;
    CrowdedTable();
    assert Geo().Base(4) == 6;
  }

  lemma CrowdedTable()
    ensures HasFat(Geo(), Crowded()) && |Crowded()| == 6
    ensures forall c :: 0 <= c < 256 ==> Table(Geo(), Crowded())[c] != 0
  {
    hide Table, Fat, Root, Zeros, Letters;
    TableOf(true);
    assert Crowded()[1] == Volume(true)[1];
    TableFrame(Geo(), Volume(true), Crowded());
  }

  lemma OpenRootInv()
    ensures Inv(Geo(), Crowded(), OpenRoot(), [1], [])
  {
    hide Table, VolumeOk, Zeros, Fat, Letters;
    CrowdedOk();
    assert Crowded()[2] == Letters(512);
  }

  /** What a walk over that root directory reads is letters. */
  lemma RootLetters()
    ensures Inv(Geo(), Crowded(), OpenRoot(), [1], [])
    ensures var c := Content(Geo(), Crowded(), OpenRoot(), [1], []);
      |c| == 1536 && forall p :: 0 <= p < |c| ==> c[p] == 0x41
  {
    hide Inv, Content, Zeros, Fat;
    OpenRootInv();
    DirectoryLength(Geo(), Crowded(), OpenRoot(), [1], []);
    var c := Content(Geo(), Crowded(), OpenRoot(), [1], []);
    forall p | 0 <= p < |c| ensures c[p] == 0x41 {
      RootBytes(Geo(), Crowded(), OpenRoot(), [1], [], p);
    }
  }

  lemma {:induction false} AllListed(c: seq<byte>, k: nat)
    requires 32 * k <= |c| && |c| % 32 == 0 && forall p :: 0 <= p < |c| ==> c[p] == 0x41
    ensures 32 * |Listing(c, k)| == |c| - 32 * k
    decreases |c| - 32 * k
  {
    if 32 * k < |c| {
      ListingHere(c, k);
      AllListed(c, k + 1);
    } else {
      ListingStep(c, k);
    }
  }

  /** All 32 entries of that root directory are in use; 48 are listed. */
  lemma RootOverrun()
    ensures Inv(Geo(), Crowded(), OpenRoot(), [1], [])
    ensures var c := Content(Geo(), Crowded(), OpenRoot(), [1], []);
      |c| == 1536 && |Listing(Own(c, 2), 0)| == 32 && |Listing(c, 0)| == 48
  {
    hide Inv, Content, Listing, Geo, Crowded, OpenRoot;
    RootLetters();
    var c := Content(Geo(), Crowded(), OpenRoot(), [1], []);
    AllListed(c, 0);
    AllListed(Own(c, 2), 0);
  }

  /** The letters fill the root only; cluster 2 belongs to a file and begins with a zero. */
  function FullRoot(): Disk {
    [Zeros(), Fat(true), Letters(512), Letters(512), Zeros(), Zeros()]
  }

  lemma FullRootTable()
    ensures HasFat(Geo(), FullRoot()) && |FullRoot()| == 6
    ensures forall c :: 0 <= c < 256 ==> Table(Geo(), FullRoot())[c] == 0xFFFF
  {
    hide Table, Fat, Root, Zeros, Letters;
    TableOf(true);
    assert FullRoot()[1] == Volume(true)[1];
    TableFrame(Geo(), Volume(true), FullRoot());
  }

  lemma FullRootOk()
    ensures VolumeOk(Geo(), FullRoot())
    ensures IsChain(Table(Geo(), FullRoot()), Geo().EndMarker(), Geo().limit, [2])
  {
    hide Table, Volume, FullRoot, HasFat;
    FullRootTable();
    assert Geo().Base(4) == 6;
  }

  /** The search for a slot of a new file in that root runs over its end, into the cluster of the file. */
  lemma CreationOverrun(f: Desc)
    requires f.entrySector == 0 && f.flags.canWrite && f.parent == 1
    ensures VolumeOk(Geo(), FullRoot()) && RunsOver(Geo(), FullRoot(), f, [3], [1])
    ensures Geo().rootStart + Geo().rootLen == Geo().DataStart() && Geo().Owns(2, Geo().DataStart())
  {
    hide Table, VolumeOk, IsChain, Fat;
    FullRootOk();
    var d := FullRoot();
    assert d[2] == Letters(512) && d[3] == Letters(512);
    assert EmptyOn(Geo(), d, [1], 2, 0) by {
      assert d[4] == Zeros() && ValidDisk(d);
    }
  }

  // ---------------------------------------------------------------- a fresh FAT32 volume

  /** One sector of FAT; clusters of one sector. */
  function Geo32(): Geometry {
    Geometry(true, 1, 0, 1, 1, 0, 0, 2, 100)
  }

  /** Entries 0 to 2 are end marks, all others free. */
  function Fat32(): (s: seq<byte>)
    ensures |s| == 512
  {
    seq(512, i => if i >= 12 then 0 else if i % 4 == 0 then 0xF8 else if i % 4 == 3 then 0x0F else 0xFF)
  }

  /** The first cluster taken on that volume is 3: bytes 12 to 15 of the FAT become an end mark. */
  method FirstTaken(vol: FatInfo) returns (r: int)
    requires vol.Ready() && vol.g == Geo32() && vol.dev.disk == [Zeros(), Fat32()]
    modifies vol.sysbuf, vol.dev
    ensures r == 3 && |vol.dev.disk| == 2 && vol.dev.disk[0] == Zeros()
    ensures vol.dev.disk[1] == Fat32()[..12] + [0xF8, 0xFF, 0xFF, 0x0F] + Fat32()[16..]
  {
    hide TakenRaw, Allocated, FatRaw, Zeros;
    ghost var d := vol.dev.disk;
    r := vol.GetFreeCluster();
    OneFatSector(d);
    OneFatSector(vol.dev.disk);
    FirstOfFat32(FatRaw(Geo32(), vol.dev.disk), r);
  }

  lemma OneFatSector(d: Disk)
    requires HasFat(Geo32(), d)
    ensures FatRaw(Geo32(), d) == d[1]
  {
    forall p | 0 <= p < 512 ensures FatRaw(Geo32(), d)[p] == d[1][p] {
      RawAt(Geo32(), d, p);
    }
  }

  lemma FirstOfFat32(raw: seq<byte>, r: int)
    requires TakenRaw(true, Fat32(), raw, r)
    ensures r == 3 && raw == Fat32()[..12] + [0xF8, 0xFF, 0xFF, 0x0F] + Fat32()[16..]
  {
    var f := Fat32();
    assert AllZero(Piece(true, f, 3));
    assert Piece(true, f, 0)[0] == 0xF8 && Piece(true, f, 1)[0] == 0xF8 && Piece(true, f, 2)[0] == 0xF8;
    assert !AllZero(Piece(true, f, 0)) && !AllZero(Piece(true, f, 1)) && !AllZero(Piece(true, f, 2));
  }
}
