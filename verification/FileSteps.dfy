/** What the elementary disk updates of an open file do to the invariant, the content and the frame. */
module FileSteps {
  import opened Bytes
  import opened Chains
  import opened Division
  import opened Layout
  import opened RawFat
  import opened Tracks
  import opened Allocator
  import opened FileSpec

  // ---------------------------------------------------------------- frames compose

  lemma GrewRefl(t: seq<nat>, ch: seq<nat>)
    ensures Grew(t, t, ch, ch)
  {
  }

  lemma QuietLater(g: Geometry, t: seq<nat>, t': seq<nat>, ch: seq<nat>, ch': seq<nat>, s: nat)
    requires g.limit <= |t| && Grew(t, t', ch, ch') && Quiet(g, t, ch, s)
    ensures Quiet(g, t', ch', s)
  {
  }

  lemma GrewTrans(t0: seq<nat>, t1: seq<nat>, t2: seq<nat>,
                        c0: seq<nat>, c1: seq<nat>, c2: seq<nat>)
    requires Grew(t0, t1, c0, c1) && Grew(t1, t2, c1, c2)
    ensures Grew(t0, t2, c0, c2)
  {
    forall c | 0 <= c < |t0| && t0[c] != 0 && c !in c0 ensures t2[c] == t0[c] {
      assert t1[c] == t0[c];
      assert c !in c1;
    }
  }

  lemma FrameRefl(g: Geometry, d: Disk, ch: seq<nat>, es: nat, en: nat)
    requires VolumeOk(g, d)
    ensures Frame(g, d, d, ch, ch, es, en)
  {
  }

  lemma FrameTrans(g: Geometry, d0: Disk, d1: Disk, d2: Disk,
                   c0: seq<nat>, c1: seq<nat>, c2: seq<nat>, es0: nat, en0: nat, es: nat, en: nat)
    requires Frame(g, d0, d1, c0, c1, es0, en0) && Frame(g, d1, d2, c1, c2, es, en)
    requires es0 == 0 || (es0 == es && en0 == en)
    ensures Frame(g, d0, d2, c0, c2, es, en)
  {
    var t0, t1, t2 := Table(g, d0), Table(g, d1), Table(g, d2);
    hide Table;
    GrewTrans(t0, t1, t2, c0, c1, c2);
    forall s | 0 <= s < |d0| && Quiet(g, t0, c0, s)
      ensures Quiet(g, t1, c1, s)
    {
      QuietLater(g, t0, t1, c0, c1, s);
    }
    hide Grew, Quiet, VolumeOk;
  }

  // ---------------------------------------------------------------- equal bytes

  /** Two descriptors of equal length whose bytes agree stand for the same byte sequence. */
  lemma SameContent(g: Geometry, d: Disk, f: Desc, ch: seq<nat>, dir: seq<nat>,
                    d': Disk, f': Desc, ch': seq<nat>, dir': seq<nat>)
    requires Inv(g, d, f, ch, dir) && Inv(g, d', f', ch', dir')
    requires Length(g, f, ch) == Length(g, f', ch')
    requires Readable(g, d, f, ch) && Readable(g, d', f', ch')
    requires Length(g, f, ch) <= Capacity(g, f, ch) && Length(g, f', ch') <= Capacity(g, f', ch')
    requires forall p :: 0 <= p < Length(g, f, ch) ==> ByteAt(g, d, f, ch, p) == ByteAt(g, d', f', ch', p)
    ensures Content(g, d, f, ch, dir) == Content(g, d', f', ch', dir')
  {
  }

  lemma ContentAt(g: Geometry, d: Disk, f: Desc, ch: seq<nat>, dir: seq<nat>, p: nat)
    requires Inv(g, d, f, ch, dir) && p < Length(g, f, ch)
    ensures Readable(g, d, f, ch) && p < Capacity(g, f, ch)
    ensures Content(g, d, f, ch, dir)[p] == ByteAt(g, d, f, ch, p)
  {
    InvReadable(g, d, f, ch, dir);
  }

  // ---------------------------------------------------------------- writing the buffer back

  /** A sector of the file's own chain is neither in the FAT nor quiet. */
  lemma OwnSector(g: Geometry, d: Disk, ch: seq<nat>, i: nat)
    requires VolumeOk(g, d) && IsChain(Table(g, d), g.EndMarker(), g.limit, ch) && i < Sectors(g, ch)
    ensures 0 < SectorOf(g, ch, i) < |d| && !g.InFat(SectorOf(g, ch, i))
    ensures !Quiet(g, Table(g, d), ch, SectorOf(g, ch, i))
  {
    TrackSector(g, |d|, Table(g, d), ch, i);
    assert ch[0] >= 2;
  }

  /** A write outside the FAT leaves the volume and the table as they are. */
  lemma DataWrite(g: Geometry, d: Disk, s: nat, b: seq<byte>)
    requires VolumeOk(g, d) && s < |d| && !g.InFat(s) && |b| == 512
    ensures VolumeOk(g, d[s := b]) && Table(g, d[s := b]) == Table(g, d)
  {
    TableFrame(g, d, d[s := b]);
  }

  lemma WriteBackInv(g: Geometry, d: Disk, f: Desc, ch: seq<nat>, dir: seq<nat>)
    requires Inv(g, d, f, ch, dir) && f.sector != 0 && f.flags.dirty && f.sector < |d|
    ensures Inv(g, d[f.sector := f.buffer], f.Clean(), ch, dir)
    ensures Frame(g, d, d[f.sector := f.buffer], ch, ch, f.entrySector, f.entryNumber)
  {
    hide Placed, HasSlot, HasHome, Titled, Synced, VolumeOk, Frame, Table, Quiet, Unplaced;
    WriteBackPlaced(g, d, f, ch, dir);
    WriteBackFrame(g, d, f, ch);
    WriteBackSlot(g, d, f, ch, dir);
  }

  lemma WriteBackPlaced(g: Geometry, d: Disk, f: Desc, ch: seq<nat>, dir: seq<nat>)
    requires Inv(g, d, f, ch, dir) && f.sector != 0 && f.flags.dirty && f.sector < |d|
    ensures !g.InFat(f.sector) && |f.buffer| == 512 && VolumeOk(g, d) && !Quiet(g, Table(g, d), ch, f.sector)
    ensures var d' := d[f.sector := f.buffer];
      VolumeOk(g, d') && Table(g, d') == Table(g, d) ==>
        && Placed(g, d', f.Clean(), ch) && (!f.IsDir() ==> HasSlot(g, d', f.Clean(), ch))
  {
    hide Table, VolumeOk, Titled, Synced;
    OwnSector(g, d, ch, f.fileSector);
  }

  lemma WriteBackFrame(g: Geometry, d: Disk, f: Desc, ch: seq<nat>)
    requires VolumeOk(g, d) && f.sector < |d| && !g.InFat(f.sector) && |f.buffer| == 512
    requires !Quiet(g, Table(g, d), ch, f.sector)
    ensures var d' := d[f.sector := f.buffer];
      && VolumeOk(g, d') && Table(g, d') == Table(g, d) && Frame(g, d, d', ch, ch, f.entrySector, f.entryNumber)
  {
    DataWrite(g, d, f.sector, f.buffer);
    GrewRefl(Table(g, d), ch);
    hide Table, VolumeOk, Grew, Quiet;
  }

  /** The slot of a file does not lie in its data. */
  lemma WriteBackSlot(g: Geometry, d: Disk, f: Desc, ch: seq<nat>, dir: seq<nat>)
    requires Inv(g, d, f, ch, dir) && f.sector != 0 && f.sector < |d| && !Quiet(g, Table(g, d), ch, f.sector)
    ensures !f.IsDir() ==> f.entrySector != f.sector
    ensures var d' := d[f.sector := f.buffer];
      ValidDisk(d') && (!f.IsDir() ==> Titled(d', f.Clean()))
      && (!f.IsDir() && Synced(g, d, f) ==> Synced(g, d', f.Clean()))
  {
    hide Table, At, IsChain, Quiet, RegularOk;
  }

  /** Writing a dirty buffer to its sector keeps the invariant and the content. */
  lemma WriteBack(g: Geometry, d: Disk, f: Desc, ch: seq<nat>, dir: seq<nat>)
    requires Inv(g, d, f, ch, dir) && f.sector != 0 && f.flags.dirty
    ensures f.sector < |d|
    ensures Inv(g, d[f.sector := f.buffer], f.Clean(), ch, dir)
    ensures Content(g, d[f.sector := f.buffer], f.Clean(), ch, dir) == Content(g, d, f, ch, dir)
    ensures Frame(g, d, d[f.sector := f.buffer], ch, ch, f.entrySector, f.entryNumber)
  {
    var d', f' := d[f.sector := f.buffer], f.Clean();
    InvReadable(g, d, f, ch, dir);
    WriteBackInv(g, d, f, ch, dir);
    InvReadable(g, d', f', ch, dir);
    hide Table, VolumeOk, Frame, HasSlot, Synced;
    forall p | 0 <= p < Length(g, f, ch) ensures ByteAt(g, d, f, ch, p) == ByteAt(g, d', f', ch, p) {
      if p / 512 != f.fileSector && SectorOf(g, ch, p / 512) == f.sector {
        SectorsDistinct(g, |d|, Table(g, d), ch, p / 512, f.fileSector);
      }
    }
    SameContent(g, d, f, ch, dir, d', f', ch, dir);
  }

  // ---------------------------------------------------------------- moving the descriptor

  /** f' is f moved to another place of the same file, with its buffer loaded from there. */
  ghost predicate Moved(g: Geometry, d: Disk, f: Desc, f': Desc, ch: seq<nat>)
    requires g.spc > 0
  {
    && f' == f.(cluster := f'.cluster, sector := f'.sector, sectorsLeft := f'.sectorsLeft,
                fileSector := f'.fileSector, cursor := f'.cursor, buffer := f'.buffer)
    && At(g, f', ch, f'.fileSector) && f'.sector < |d|
    && f'.buffer == d[f'.sector] && f'.cursor <= 512
  }

  lemma MovedInv(g: Geometry, d: Disk, f: Desc, f': Desc, ch: seq<nat>, dir: seq<nat>)
    requires Inv(g, d, f, ch, dir) && f.sector != 0 && !f.flags.dirty && Moved(g, d, f, f', ch)
    requires f'.Pos() <= Length(g, f, ch) && f'.sector != 0
    ensures Inv(g, d, f', ch, dir)
  {
    hide Table, Track, IsChain, SectorOf, ClusterOf, LeftAt, Quiet, SlotFirst, SlotSize, SlotName, SlotAttributes,
      Geometry.Valid;
  }

  /** Moving a clean descriptor inside its file changes nothing but the position. */
  lemma MoveKeeps(g: Geometry, d: Disk, f: Desc, f': Desc, ch: seq<nat>, dir: seq<nat>)
    requires Inv(g, d, f, ch, dir) && f.sector != 0 && !f.flags.dirty && Moved(g, d, f, f', ch)
    requires f'.Pos() <= Length(g, f, ch)
    ensures Inv(g, d, f', ch, dir) && Content(g, d, f', ch, dir) == Content(g, d, f, ch, dir)
    ensures f'.sector != 0
  {
    hide Table, HasSlot, IsChain;
    TrackSector(g, |d|, Table(g, d), ch, f'.fileSector);
    MovedInv(g, d, f, f', ch, dir);
    InvReadable(g, d, f, ch, dir);
    InvReadable(g, d, f', ch, dir);
    SameContent(g, d, f, ch, dir, d, f', ch, dir);
  }

  // ---------------------------------------------------------------- saving the directory entry

  lemma SlotWrite(s: seq<byte>, n: nat, b: seq<byte>)
    requires |s| == 512 && n < 16 && |b| == 32
    ensures OnlySlot(s, Patch(s, n * 32, b), n)
  {
  }

  /** Storing the entry of a file in its slot: nothing else changes, and the slot describes the file. */
  lemma SaveSlot(g: Geometry, d: Disk, f: Desc, ch: seq<nat>, reserved: byte)
    requires VolumeOk(g, d) && HasSlot(g, d, f, ch) && SlotFields(f)
    requires f.first < g.EntryMax() && f.size < 0x1_0000_0000
    ensures Saved(g, d, d[f.entrySector := WithSlot(d[f.entrySector], f, reserved)], f, ch)
  {
    var es := f.entrySector;
    SlotParts(f, reserved);
    SlotRoundTrip(g, d[es], f, reserved);
    SlotWrite(d[es], f.entryNumber, SlotOf(f, reserved));
    DataWrite(g, d, es, WithSlot(d[es], f, reserved));
    GrewRefl(Table(g, d), ch);
    hide Table, Patch, SlotOf, Grew, SlotFirst, SlotSize, OnlySlot, VolumeOk;
  }

  /** A slot outside the FAT is written, whether it is one of the directory or not. */
  lemma WriteSlot(g: Geometry, d: Disk, f: Desc, reserved: byte)
    requires VolumeOk(g, d) && SlotFields(f) && 0 < f.entrySector < |d| && f.entryNumber < 16 && !g.InFat(f.entrySector)
    ensures var d' := d[f.entrySector := WithSlot(d[f.entrySector], f, reserved)];
      && ValidDisk(d') && VolumeOk(g, d') && SlotWritten(d, d', f)
  {
    DataWrite(g, d, f.entrySector, WithSlot(d[f.entrySector], f, reserved));
    hide Table, WithSlot, SlotFields;
  }

  lemma WrittenAny(d: Disk, d': Disk, f: Desc, b: seq<byte>)
    requires ValidDisk(d) && SlotWritten(d, d', f)
    ensures SlotWritten(d, d', f.Stored(b))
  {
    var f' := f.Stored(b);
    var reserved: byte :| d' == d[f.entrySector := WithSlot(d[f.entrySector], f, reserved)];
    assert WithSlot(d[f.entrySector], f', reserved) == WithSlot(d[f.entrySector], f, reserved);
  }

  lemma SavedFacts(g: Geometry, d: Disk, d': Disk, f: Desc, ch: seq<nat>, b: seq<byte>)
    requires Saved(g, d, d', f, ch)
    ensures VolumeOk(g, d') && |d'| == |d| && Saved(g, d, d', f.Stored(b), ch)
  {
    var f' := f.Stored(b);
    var reserved :| d' == d[f.entrySector := WithSlot(d[f.entrySector], f, reserved)];
    assert WithSlot(d[f.entrySector], f', reserved) == WithSlot(d[f.entrySector], f, reserved);
  }

  /** A file without an entry is writable and the walk over its parent meets an empty slot. */
  lemma SlotOrRoom(g: Geometry, d: Disk, f: Desc, ch: seq<nat>, dir: seq<nat>)
    requires VolumeOk(g, d)
    requires HasSlot(g, d, f, ch) || HasRoom(g, d, f, ch, dir) || RunsOver(g, d, f, ch, dir)
    ensures f.entrySector == 0 ==> f.flags.canWrite && (HasRoom(g, d, f, ch, dir) || RunsOver(g, d, f, ch, dir))
    ensures f.entrySector != 0 ==> HasSlot(g, d, f, ch)
  {
  }

  /** A file that has its slot does not look for one. */
  lemma NotOver(g: Geometry, d: Disk, f: Desc, ch: seq<nat>, dir: seq<nat>)
    requires VolumeOk(g, d) && (HasSlot(g, d, f, ch) || HasRoom(g, d, f, ch, dir))
    ensures !RunsOver(g, d, f, ch, dir)
  {
  }

  lemma SlotNumber(g: Geometry, d: Disk, f: Desc, ch: seq<nat>)
    requires VolumeOk(g, d) && HasSlot(g, d, f, ch)
    ensures 0 < f.entrySector < |d| && f.entryNumber < 16 && !g.InFat(f.entrySector)
  {
  }

  lemma SameFields(f: Desc, f': Desc)
    requires SlotFields(f) && f'.meta == f.meta
    ensures SlotFields(f')
  {
  }

  /** Where the search for an empty slot of the parent directory starts. */
  lemma RoomStart(g: Geometry, d: Disk, f: Desc, f0: Desc, ch: seq<nat>, dir: seq<nat>)
    requires VolumeOk(g, d) && (HasRoom(g, d, f0, ch, dir) || RunsOver(g, d, f0, ch, dir))
    requires f.sector == (if f0.parent == 1 then g.rootStart else Wrap32(Wrap32(f0.parent * g.spc) + g.cluster0))
    requires f.sectorsLeft == (if f0.parent == 1 then g.rootLen else g.spc - 1) && f.cluster == f0.parent
    ensures Track(g, Table(g, d), dir) && RoomFrom(g, d, dir, 0) && g.spc > 0
    ensures At(g, f, dir, 0) && f.sector < |d| && |d[f.sector]| == 512
  {
    hide Table, EmptyAt, SectorOf, Sectors, ClusterOf, LeftAt, Wrap32, DirSectors;
    SelectedFirst(g, |d|, Table(g, d), dir);
    TrackSector(g, |d|, Table(g, d), dir, 0);
    if HasRoom(g, d, f0, ch, dir) {
      var i, n :| RoomAt(g, d, dir, i, n);
      assert EmptyOn(g, d, dir, i, n);
    }
  }

  /** No empty slot in this sector of the directory: the walk meets one further on. */
  lemma RoomAhead(g: Geometry, d: Disk, f: Desc, dir: seq<nat>, i: nat)
    requires VolumeOk(g, d) && RoomFrom(g, d, dir, i) && At(g, f, dir, i) && f.sector < |d|
    requires FirstEmpty(d[f.sector], 0) == 16
    ensures RoomFrom(g, d, dir, i + 1) && i + 1 < Sectors(g, dir)
  {
    forall x, n | EmptyOn(g, d, dir, x, n) ensures i + 1 <= x {
      if x == i { FirstEmptyIsFirst(d[f.sector], 0, n); }
    }
  }

  /** The first empty slot of the sector the search has reached is where it ends. */
  lemma RoomHere(g: Geometry, d: Disk, f: Desc, dir: seq<nat>, i: nat, n: nat)
    requires VolumeOk(g, d) && RoomFrom(g, d, dir, i) && At(g, f, dir, i) && f.sector < |d|
    requires n < 16 && FirstEmpty(d[f.sector], 0) == n
    ensures SearchEnds(g, d, dir, f.sector, n)
  {
    assert EmptyOn(g, d, dir, i, n);
    forall x, m | EmptyOn(g, d, dir, x, m) ensures i < x || (i == x && n <= m) {
      if x == i { FirstEmptyIsFirst(d[f.sector], 0, m); }
    }
  }

  /** Where the search of the parent directory ends: at its first empty slot, or behind a full fixed root. */
  lemma SearchPlace(g: Geometry, d: Disk, f: Desc, ch: seq<nat>, dir: seq<nat>, s: nat, n: nat)
    requires VolumeOk(g, d) && SearchEnds(g, d, dir, s, n)
    ensures n < 16 && s < |d|
    ensures HasRoom(g, d, f, ch, dir) ==> SlotFound(g, d, dir, s, n)
    ensures RunsOver(g, d, f, ch, dir) ==> s == g.rootStart + g.rootLen && 0 < s && !g.InFat(s)
  {
    hide EmptyAt, Track, Table, SectorOf;
    var i :|
      && EmptyOn(g, d, dir, i, n) && SectorOf(g, dir, i) == s
      && forall x, m :: EmptyOn(g, d, dir, x, m) ==> i < x || (i == x && n <= m);
    assert n < 16 && s < |d| by { InRange(d, s, n); }
    if HasRoom(g, d, f, ch, dir) {
      var x, m :| RoomAt(g, d, dir, x, m);
      assert EmptyOn(g, d, dir, x, m);
      assert RoomAt(g, d, dir, i, n);
    }
    if RunsOver(g, d, f, ch, dir) {
      BehindRoot(g, d, dir, i, n);
    }
  }

  /** An empty slot of a full fixed root is one of the sector behind it. */
  lemma BehindRoot(g: Geometry, d: Disk, dir: seq<nat>, i: nat, n: nat)
    requires VolumeOk(g, d) && IsRoot(g, dir) && EmptyOn(g, d, dir, i, n) && !RoomAt(g, d, dir, i, n)
    ensures SectorOf(g, dir, i) == g.rootStart + g.rootLen > 0 && !g.InFat(SectorOf(g, dir, i))
  {
    hide Table, HasFat, EmptyAt;
    TrackSector(g, |d|, Table(g, d), dir, i);
  }

  lemma InRange(d: Disk, s: nat, n: nat)
    requires ValidDisk(d) && EmptyAt(d, s, n)
    ensures s < |d| && n < 16
  {
  }

  lemma {:induction false} FirstEmptyIsFirst(s: seq<byte>, n: nat, k: nat)
    requires |s| == 512 && n <= k < 16 && s[k * 32] == 0
    ensures FirstEmpty(s, n) <= k
    decreases 16 - n
  {
    if n < k { FirstEmptyIsFirst(s, n + 1, k); }
  }

  /** What the search of the parent directory finds is a slot for the file. */
  lemma FoundIsSlot(g: Geometry, d: Disk, f0: Desc, f: Desc, ch: seq<nat>, dir: seq<nat>)
    requires VolumeOk(g, d) && HasRoom(g, d, f0, ch, dir) && SlotFound(g, d, dir, f.entrySector, f.entryNumber)
    ensures HasSlot(g, d, f, ch)
  {
    var i :| RoomAt(g, d, dir, i, f.entryNumber) && SectorOf(g, dir, i) == f.entrySector;
    RoomIsSlot(g, d, dir, i, f.entryNumber, ch);
  }

  lemma SaveInv(g: Geometry, d: Disk, f: Desc, ch: seq<nat>, dir: seq<nat>, d': Disk)
    requires VolumeOk(g, d) && Placed(g, d, f, ch) && f.sector != 0 && !f.flags.dirty && !f.IsDir()
    requires |f.buffer| == 512 && f.cursor <= 512 && |f.meta.name| == 11 && InUseMark(f.meta.name[0])
    requires Saved(g, d, d', f, ch)
    ensures f.sector < |d'| && Inv(g, d', f.Stored(d'[f.sector]), ch, dir)
  {
    hide Table, VolumeOk, WithSlot, Frame, Quiet, SectorOf, ClusterOf, LeftAt, IsChain, Sectors, Track, SlotFirst,
      SlotSize, SlotName, SlotAttributes;
    SectorSize(g, d', f.sector);
  }

  /** Saving an entry writes no byte of the file; f is the file, q the record whose slot is written. */
  lemma SaveBytes(g: Geometry, d: Disk, f: Desc, q: Desc, ch: seq<nat>, d': Disk, p: nat)
    requires VolumeOk(g, d) && IsChain(Table(g, d), g.EndMarker(), g.limit, ch) && Saved(g, d, d', q, ch)
    requires f.sector != 0 && !f.flags.dirty && f.sector < |d'| && |d| == |d'| && g.spc > 0
    requires p < Sectors(g, ch) * 512 && Readable(g, d, f, ch)
    requires var f' := q.Stored(d'[f.sector]); Readable(g, d', f', ch) && f'.sector != 0 && !f'.flags.dirty
    ensures ByteAt(g, d, f, ch, p) == ByteAt(g, d', q.Stored(d'[f.sector]), ch, p)
  {
    OwnSector(g, d, ch, p / 512);
    SaveTouches(g, d, d', q, ch, SectorOf(g, ch, p / 512));
    hide VolumeOk, Saved, SectorOf, Readable, IsChain, Table;
  }

  lemma SaveTouches(g: Geometry, d: Disk, d': Disk, q: Desc, ch: seq<nat>, s: nat)
    requires VolumeOk(g, d) && Saved(g, d, d', q, ch) && s < |d| && !Quiet(g, Table(g, d), ch, s)
    ensures s < |d'| && d'[s] == d[s]
  {
    hide Table, VolumeOk, WithSlot, Frame, Quiet;
  }

  /** Saving the entry of a clean placed file is transparent to its data. */
  lemma SaveKeeps(g: Geometry, d: Disk, f: Desc, ch: seq<nat>, dir: seq<nat>, d': Disk)
    requires Inv(g, d, f, ch, dir) && f.sector != 0 && !f.flags.dirty && !f.IsDir() && Saved(g, d, d', f, ch)
    ensures f.sector < |d'|
    ensures Inv(g, d', f.Stored(d'[f.sector]), ch, dir)
    ensures Content(g, d', f.Stored(d'[f.sector]), ch, dir) == Content(g, d, f, ch, dir)
  {
    SaveInv(g, d, f, ch, dir, d');
    var f' := f.Stored(d'[f.sector]);
    ChainOf(g, d, f, ch, dir);
    InvReadable(g, d, f, ch, dir);
    InvReadable(g, d', f', ch, dir);
    hide Inv, Content, Table, VolumeOk, Saved, IsChain, SectorOf, Readable;
    forall p | 0 <= p < Length(g, f, ch) ensures ByteAt(g, d, f, ch, p) == ByteAt(g, d', f', ch, p) {
      SaveBytes(g, d, f, f, ch, d', p);
    }
    SameContent(g, d, f, ch, dir, d', f', ch, dir);
  }

  // ---------------------------------------------------------------- taking a cluster

  /** Marking a free cluster as used keeps the volume. */
  lemma TakeCluster(g: Geometry, d: Disk, k: nat)
    requires VolumeOk(g, d) && LeastFree(Table(g, d), k)
    ensures var d1 := WithEntry(g, d, k, g.NewEnd());
      && VolumeOk(g, d1) && |d1| == |d| && Table(g, d1) == Table(g, d)[k := g.NewEnd()]
      && 2 <= k < g.limit
      && (forall s :: 0 <= s < |d| && !g.InFat(s) ==> d1[s] == d[s])
  {
    TableWithEntry(g, d, k, g.NewEnd());
  }

  /** A change of the FAT alone that respects the entries of others is within the frame. */
  lemma FatOnlyFrame(g: Geometry, d: Disk, d': Disk, ch: seq<nat>, ch': seq<nat>, es: nat, en: nat)
    requires VolumeOk(g, d) && VolumeOk(g, d') && |d'| == |d|
    requires Grew(Table(g, d), Table(g, d'), ch, ch')
    requires forall s :: 0 <= s < |d| && !g.InFat(s) ==> d'[s] == d[s]
    ensures Frame(g, d, d', ch, ch', es, en)
    ensures forall s :: 0 <= s < |d| && Quiet(g, Table(g, d), ch, s) ==> Quiet(g, Table(g, d'), ch', s)
  {
    forall s | 0 <= s < |d| && Quiet(g, Table(g, d), ch, s) ensures Quiet(g, Table(g, d'), ch', s) {
      QuietLater(g, Table(g, d), Table(g, d'), ch, ch', s);
    }
  }

  lemma ExtendFrame(g: Geometry, t: seq<nat>, ch: seq<nat>, k: nat)
    requires LeastFree(t, k) && 2 <= k < g.limit && IsChain(t, g.EndMarker(), g.limit, ch)
    ensures k !in ch && k < |t|
    ensures var t' := t[k := g.NewEnd()][ch[|ch| - 1] := k];
      Grew(t, t', ch, ch + [k]) && IsChain(t', g.EndMarker(), g.limit, ch + [k])
  {
    ExtendChain(t, g.EndMarker(), g.limit, ch, k, g.NewEnd());
    assert ch[|ch| - 1] in ch;
  }

  /** Storing a link in an entry keeps the volume. */
  lemma LinkEntry(g: Geometry, d: Disk, c: nat, k: nat)
    requires VolumeOk(g, d) && c < g.Entries() && 0 < k < g.limit
    ensures var d2 := WithEntry(g, d, c, k);
      && VolumeOk(g, d2) && |d2| == |d| && Table(g, d2) == Table(g, d)[c := k]
      && (forall s :: 0 <= s < |d| && !g.InFat(s) ==> d2[s] == d[s])
  {
    TableWithEntry(g, d, c, k);
    assert g.InFat(EntrySector(g, c));
    hide Table, WithEntry, EntrySector;
  }

  /** Linking a taken cluster behind the tail of a chain. */
  lemma ExtendDisk(g: Geometry, d: Disk, ch: seq<nat>, k: nat, es: nat, en: nat)
    requires VolumeOk(g, d) && LeastFree(Table(g, d), k)
    requires IsChain(Table(g, d), g.EndMarker(), g.limit, ch)
    ensures HasFat(g, WithEntry(g, d, k, g.NewEnd()))
    ensures var d2 := WithEntry(g, WithEntry(g, d, k, g.NewEnd()), ch[|ch| - 1], k);
      && VolumeOk(g, d2) && |d2| == |d|
      && Table(g, d2) == Table(g, d)[k := g.NewEnd()][ch[|ch| - 1] := k]
      && k !in ch && IsChain(Table(g, d2), g.EndMarker(), g.limit, ch + [k])
      && Frame(g, d, d2, ch, ch + [k], es, en)
      && (forall s :: 0 <= s < |d| && !g.InFat(s) ==> d2[s] == d[s])
      && (forall s :: 0 <= s < |d| && Quiet(g, Table(g, d), ch, s) ==> Quiet(g, Table(g, d2), ch + [k], s))
  {
    var t, last := Table(g, d), ch[|ch| - 1];
    assert last in ch;
    hide WithEntry;
    TakeCluster(g, d, k);
    var d1 := WithEntry(g, d, k, g.NewEnd());
    LinkEntry(g, d1, last, k);
    ExtendFrame(g, t, ch, k);
    var d2 := WithEntry(g, d1, last, k);
    hide Table, WithEntry, IsChain, LeastFree, VolumeOk, Frame, Grew;
    FatOnlyFrame(g, d, d2, ch, ch + [k], es, en);
  }

  lemma ExtendInv(g: Geometry, d: Disk, f: Desc, ch: seq<nat>, dir: seq<nat>, d': Disk, k: nat)
    requires Inv(g, d, f, ch, dir) && f.sector != 0 && !f.flags.dirty && !f.IsDir() && k != g.rootCluster
    requires VolumeOk(g, d') && |d'| == |d|
    requires IsChain(Table(g, d'), g.EndMarker(), g.limit, ch + [k])
    requires forall s :: 0 <= s < |d| && !g.InFat(s) ==> d'[s] == d[s]
    requires HasSlot(g, d', f, ch + [k])
    ensures f.sector < |d'|
    ensures Inv(g, d', f.(buffer := d'[f.sector]), ch + [k], dir)
  {
    assert ch[0] >= 2;
    AppendCluster(g, ch, k, f.fileSector);
    InvReadable(g, d, f, ch, dir);
    hide Table, VolumeOk, IsChain, SectorOf, ClusterOf, LeftAt;
  }

  /** Extending the chain of a clean file leaves position and content alone. */
  lemma ExtendKeeps(g: Geometry, d: Disk, f: Desc, ch: seq<nat>, dir: seq<nat>, d': Disk, k: nat)
    requires Inv(g, d, f, ch, dir) && f.sector != 0 && !f.flags.dirty && !f.IsDir() && k != g.rootCluster
    requires VolumeOk(g, d') && |d'| == |d|
    requires IsChain(Table(g, d'), g.EndMarker(), g.limit, ch + [k])
    requires forall s :: 0 <= s < |d| && !g.InFat(s) ==> d'[s] == d[s]
    requires HasSlot(g, d', f, ch + [k])
    ensures f.sector < |d'|
    ensures Inv(g, d', f.(buffer := d'[f.sector]), ch + [k], dir)
    ensures Content(g, d', f.(buffer := d'[f.sector]), ch + [k], dir) == Content(g, d, f, ch, dir)
  {
    ExtendInv(g, d, f, ch, dir, d', k);
    var f', ch' := f.(buffer := d'[f.sector]), ch + [k];
    ChainOf(g, d, f, ch, dir);
    InvReadable(g, d, f, ch, dir);
    InvReadable(g, d', f', ch', dir);
    hide Inv, Content, Table, VolumeOk, IsChain, SectorOf, ClusterOf, LeftAt, HasSlot, Quiet, IsRoot;
    forall p | 0 <= p < Length(g, f, ch) ensures ByteAt(g, d, f, ch, p) == ByteAt(g, d', f', ch', p) {
      AppendCluster(g, ch, k, p / 512);
      OwnSector(g, d, ch, p / 512);
    }
    SameContent(g, d, f, ch, dir, d', f', ch', dir);
  }

  lemma ChainOf(g: Geometry, d: Disk, f: Desc, ch: seq<nat>, dir: seq<nat>)
    requires Inv(g, d, f, ch, dir) && f.sector != 0 && !f.IsDir()
    ensures VolumeOk(g, d) && IsChain(Table(g, d), g.EndMarker(), g.limit, ch)
    ensures |ch| > 0 && ch[0] >= 2 && g.spc > 0
  {
  }

  // ---------------------------------------------------------------- the first cluster of a file

  /** The descriptor after fat_flush has given an unplaced file its first cluster. */
  function PlacedAt(g: Geometry, f: Desc, k: nat): Desc
    requires k >= 2 && g.Base(k) >= 0 && g.spc > 0
  {
    f.(first := k, flags := f.flags.(fsDirty := true, dirty := false),
       sector := g.Base(k), sectorsLeft := g.spc - 1, cluster := k)
  }

  /** A sector of another allocated track is not a sector of a free cluster. */
  lemma WalkOfOther(g: Geometry, d: Disk, dir: seq<nat>, i: nat, k: nat)
    requires VolumeOk(g, d) && Track(g, Table(g, d), dir) && i < Sectors(g, dir) && i < DirSectors(g, dir)
    requires 2 <= k < g.limit && Table(g, d)[k] == 0
    ensures g.spc > 0 && 0 < SectorOf(g, dir, i) < |d|
    ensures !g.Owns(k, SectorOf(g, dir, i)) && !g.InFat(SectorOf(g, dir, i))
  {
    TrackSector(g, |d|, Table(g, d), dir, i);
    if g.Owns(k, SectorOf(g, dir, i)) {
      if IsRoot(g, dir) {
        ClusterInData(g, |d|, k, SectorOf(g, dir, i));
      } else {
        ClustersDisjoint(g, k, ClusterOf(g, dir, i), SectorOf(g, dir, i));
        ChainEntriesInUse(Table(g, d), g.EndMarker(), g.limit, dir);
      }
    }
  }

  /** A slot found in the parent directory is safe from writes to the file's own data. */
  lemma RoomIsSlot(g: Geometry, d: Disk, dir: seq<nat>, i: nat, n: nat, ch: seq<nat>)
    requires VolumeOk(g, d) && Track(g, Table(g, d), dir) && RoomAt(g, d, dir, i, n) && Disjoint(dir, ch)
    ensures 0 < SectorOf(g, dir, i) && Quiet(g, Table(g, d), ch, SectorOf(g, dir, i))
  {
    var s := SectorOf(g, dir, i);
    TrackSector(g, |d|, Table(g, d), dir, i);
    forall c | 2 <= c < g.limit && (Table(g, d)[c] == 0 || c in ch) ensures !g.Owns(c, s) {
      if g.Owns(c, s) {
        if IsRoot(g, dir) {
          ClusterInData(g, |d|, c, s);
        } else {
          ClustersDisjoint(g, c, ClusterOf(g, dir, i), s);
          ChainEntriesInUse(Table(g, d), g.EndMarker(), g.limit, dir);
        }
      }
    }
  }

  lemma ClusterPlace(g: Geometry, d: Disk, k: nat)
    requires VolumeOk(g, d) && 2 <= k < g.limit
    ensures g.spc > 0 && 0 < g.Base(k) < |d| && !g.InFat(g.Base(k)) && g.Owns(k, g.Base(k))
    ensures Wrap32(Wrap32(k * g.spc) + g.cluster0) == g.Base(k)
  {
    ClusterToSector(g, |d|, k);
    ClusterInData(g, |d|, k, g.Base(k));
  }

  /** An unplaced file gets its first cluster: the disk side. */
  lemma FirstCluster(g: Geometry, d: Disk, k: nat, b: seq<byte>, es: nat, en: nat)
    requires VolumeOk(g, d) && LeastFree(Table(g, d), k) && |b| == 512
    ensures 2 <= k < g.limit && 0 < g.Base(k) < |d| && !g.InFat(g.Base(k))
    ensures var d2 := WithEntry(g, d, k, g.NewEnd())[g.Base(k) := b];
      && VolumeOk(g, d2) && |d2| == |d| && Table(g, d2) == Table(g, d)[k := g.NewEnd()]
      && IsChain(Table(g, d2), g.EndMarker(), g.limit, [k])
      && Frame(g, d, d2, [], [k], es, en)
      && (forall s :: 0 <= s < |d| && !g.InFat(s) && s != g.Base(k) ==> d2[s] == d[s])
  {
    TakeCluster(g, d, k);
    ClusterPlace(g, d, k);
    var d1 := WithEntry(g, d, k, g.NewEnd());
    DataWrite(g, d1, g.Base(k), b);
    var d2 := d1[g.Base(k) := b];
    OneCluster(g, Table(g, d), k);
    hide Table, WithEntry, VolumeOk, IsChain, LeastFree, Frame;
    FirstFrame(g, d, d2, k, es, en);
  }

  lemma OneCluster(g: Geometry, t: seq<nat>, k: nat)
    requires g.limit <= |t| && g.limit <= g.EndMarker() && 2 <= k < g.limit
    ensures IsChain(t[k := g.NewEnd()], g.EndMarker(), g.limit, [k])
  {
  }

  lemma FirstFrame(g: Geometry, d: Disk, d2: Disk, k: nat, es: nat, en: nat)
    requires VolumeOk(g, d) && VolumeOk(g, d2) && |d2| == |d| && 2 <= k < g.limit && Table(g, d)[k] == 0
    requires Table(g, d2) == Table(g, d)[k := g.NewEnd()] && g.Base(k) >= 0 && g.Owns(k, g.Base(k))
    requires forall s :: 0 <= s < |d| && !g.InFat(s) && s != g.Base(k) ==> d2[s] == d[s]
    ensures Frame(g, d, d2, [], [k], es, en)
  {
    assert Grew(Table(g, d), Table(g, d2), [], [k]);
    hide Table, VolumeOk, Grew;
  }

  /** An unplaced file gets its first cluster: the descriptor side. */
  lemma PlaceNew(g: Geometry, d: Disk, f: Desc, dir: seq<nat>, k: nat)
    requires Inv(g, d, f, [], dir) && f.sector == 0 && f.flags.dirty && LeastFree(Table(g, d), k)
    requires Roomy(g, d, f, dir)
    ensures 2 <= k < g.limit && 0 < g.Base(k) < |d|
    ensures var d2, f2 := WithEntry(g, d, k, g.NewEnd())[g.Base(k) := f.buffer], PlacedAt(g, f, k);
      && VolumeOk(g, d2) && Titled(d2, f2) && Placed(g, d2, f2, [k])
      && IsChain(Table(g, d2), g.EndMarker(), g.limit, [k])
      && (HasSlot(g, d2, f2, [k]) || HasRoom(g, d2, f2, [k], dir))
      && Readable(g, d2, f2, [k]) && Readable(g, d, f, []) && f.size <= Capacity(g, f2, [k])
      && (forall p :: 0 <= p < f.size ==> ByteAt(g, d2, f2, [k], p) == ByteAt(g, d, f, [], p))
  {
    FirstCluster(g, d, k, f.buffer, f.entrySector, f.entryNumber);
    var d2 := WithEntry(g, d, k, g.NewEnd())[g.Base(k) := f.buffer];
    InvReadable(g, d, f, [], dir);
    ClusterPlace(g, d, k);
    PlacedInFirst(g, d2, f, k);
    FirstBytes(g, d, d2, f, k);
    SlotOrHome(g, d, f, dir);
    NewSlot(g, d, d2, f, dir, k);
    TitleSurvives(g, d, d2, f, k);
    hide Inv, Titled, Placed, VolumeOk, HasSlot, HasRoom, Table, WithEntry, IsChain, Readable, Capacity, ByteAt;
  }

  lemma PlacedInFirst(g: Geometry, d2: Disk, f: Desc, k: nat)
    requires VolumeOk(g, d2) && Unplaced(f, []) && f.flags.dirty && 2 <= k < g.limit && 0 < g.Base(k) < |d2|
    requires IsChain(Table(g, d2), g.EndMarker(), g.limit, [k]) && k != g.rootCluster
    requires |f.buffer| == 512 && d2[g.Base(k)] == f.buffer && f.sector == 0 && g.spc > 0
    ensures var f2 := PlacedAt(g, f, k);
      Placed(g, d2, f2, [k]) && Readable(g, d2, f2, [k]) && f.size <= Capacity(g, f2, [k])
  {
    ClusterStart(g, [k], 0, 0);
    assert Sectors(g, [k]) == g.spc;
    forall i | 0 <= i < Sectors(g, [k]) ensures 0 <= SectorOf(g, [k], i) < |d2| {
      TrackSector(g, |d2|, Table(g, d2), [k], i);
    }
    hide Table, VolumeOk, SectorOf, ClusterOf;
  }

  /** A small file on its first sector: the bytes it had in the buffer are the bytes on disk. */
  lemma FirstBytes(g: Geometry, d: Disk, d2: Disk, f: Desc, k: nat)
    requires Unplaced(f, []) && Readable(g, d, f, []) && f.sector == 0
    requires k >= 2 && 0 < g.Base(k) < |d2| && |f.buffer| == 512 && d2[g.Base(k)] == f.buffer && g.spc > 0
    requires Readable(g, d2, PlacedAt(g, f, k), [k]) && f.size <= Capacity(g, PlacedAt(g, f, k), [k])
    ensures forall p :: 0 <= p < f.size ==> ByteAt(g, d2, PlacedAt(g, f, k), [k], p) == ByteAt(g, d, f, [], p)
  {
    var f2 := PlacedAt(g, f, k);
    ClusterStart(g, [k], 0, 0);
    hide SectorOf;
    forall p | 0 <= p < f.size ensures ByteAt(g, d2, f2, [k], p) == ByteAt(g, d, f, [], p) {
      assert p / 512 == 0;
    }
  }

  /** A file with unsaved data and no cluster has a slot, or finds one in its parent directory. */
  lemma SlotOrHome(g: Geometry, d: Disk, f: Desc, dir: seq<nat>)
    requires Inv(g, d, f, [], dir) && f.sector == 0 && f.flags.dirty && Roomy(g, d, f, dir)
    ensures HasSlot(g, d, f, []) || HasRoom(g, d, f, [], dir)
    ensures SlotFields(f) && Titled(d, f)
  {
    hide Table, VolumeOk, Synced, Quiet;
  }

  /** A write to a free cluster and the FAT leaves the name in the slot. */
  lemma TitleSurvives(g: Geometry, d: Disk, d2: Disk, f: Desc, k: nat)
    requires VolumeOk(g, d) && SlotFields(f) && Titled(d, f) && ValidDisk(d2)
    requires HasSlot(g, d, f, []) || f.entrySector == 0
    requires 2 <= k < g.limit && Table(g, d)[k] == 0 && g.Base(k) >= 0 && g.Owns(k, g.Base(k)) && g.spc > 0
    requires |d2| == |d| && forall s :: 0 <= s < |d| && !g.InFat(s) && s != g.Base(k) ==> d2[s] == d[s]
    ensures Titled(d2, PlacedAt(g, f, k))
  {
    hide Table, VolumeOk;
  }

  lemma NewSlot(g: Geometry, d: Disk, d2: Disk, f: Desc, dir: seq<nat>, k: nat)
    requires VolumeOk(g, d) && (HasSlot(g, d, f, []) || HasRoom(g, d, f, [], dir))
    requires 2 <= k < g.limit && Table(g, d)[k] == 0 && g.Base(k) >= 0 && g.Owns(k, g.Base(k)) && g.spc > 0
    requires VolumeOk(g, d2) && |d2| == |d| && Table(g, d2) == Table(g, d)[k := g.NewEnd()]
    requires forall s :: 0 <= s < |d| && !g.InFat(s) && s != g.Base(k) ==> d2[s] == d[s]
    ensures HasSlot(g, d2, PlacedAt(g, f, k), [k]) || HasRoom(g, d2, PlacedAt(g, f, k), [k], dir)
  {
    var t := Table(g, d);
    hide Table;
    if f.entrySector == 0 {
      var i, n :| RoomAt(g, d, dir, i, n);
      ChainOrRootSurvives(g, t, dir, k);
      WalkOfOther(g, d, dir, i, k);
      assert RoomAt(g, d2, dir, i, n);
    } else {
      QuietLater(g, t, Table(g, d2), [], [k], f.entrySector);
    }
  }

  lemma ChainOrRootSurvives(g: Geometry, t: seq<nat>, dir: seq<nat>, k: nat)
    requires Track(g, t, dir) && 2 <= k < |t| && t[k] == 0 && g.limit <= |t|
    ensures Track(g, t[k := g.NewEnd()], dir) && k !in dir
  {
    if !IsRoot(g, dir) {
      ChainEntriesInUse(t, g.EndMarker(), g.limit, dir);
      ChainFrame(t, t[k := g.NewEnd()], g.EndMarker(), g.limit, dir);
    }
  }

  // ---------------------------------------------------------------- the end of the chain

  /** A descriptor that has rolled off the end of its chain does not use its buffer. */
  lemma SpentKeeps(g: Geometry, d: Disk, f: Desc, ch: seq<nat>, dir: seq<nat>, b: seq<byte>)
    requires Inv(g, d, f, ch, dir) && f.sector != 0 && !f.flags.dirty && Spent(g, f, ch) && |b| == 512
    ensures Inv(g, d, f.(buffer := b), ch, dir)
    ensures Content(g, d, f.(buffer := b), ch, dir) == Content(g, d, f, ch, dir)
  {
    var f' := f.(buffer := b);
    hide Table, VolumeOk, IsChain;
    assert Inv(g, d, f', ch, dir);
    InvReadable(g, d, f, ch, dir);
    InvReadable(g, d, f', ch, dir);
    SameContent(g, d, f, ch, dir, d, f', ch, dir);
  }

  lemma KeptRefl(g: Geometry, d: Disk, f: Desc, ch: seq<nat>, dir: seq<nat>)
    requires Inv(g, d, f, ch, dir)
    ensures Kept(g, d, f, ch, dir, d, f, ch, dir)
  {
    FrameRefl(g, d, ch, f.entrySector, f.entryNumber);
  }

  lemma KeptTrans(g: Geometry, d0: Disk, f0: Desc, c0: seq<nat>, d1: Disk, f1: Desc, c1: seq<nat>,
                  d2: Disk, f2: Desc, c2: seq<nat>, dir: seq<nat>)
    requires Kept(g, d0, f0, c0, dir, d1, f1, c1, dir) && Kept(g, d1, f1, c1, dir, d2, f2, c2, dir)
    ensures Kept(g, d0, f0, c0, dir, d2, f2, c2, dir)
  {
    hide Inv, Content, Frame;
    FrameTrans(g, d0, d1, d2, c0, c1, c2, f1.entrySector, f1.entryNumber, f2.entrySector, f2.entryNumber);
  }

  // ---------------------------------------------------------------- fat_flush

  /** What a successful or failed allocation means on a well-formed volume. */
  lemma Taken(g: Geometry, d: Disk, d': Disk, r: int)
    requires VolumeOk(g, d) && r >= 0 && Allocated(g, d, d', r)
    ensures r == 0 <==> Full(Table(g, d))
    ensures r == 0 ==> d' == d
    ensures r != 0 ==> 2 <= r < g.limit && LeastFree(Table(g, d), r) && d' == WithEntry(g, d, r, g.NewEnd())
    ensures r < 0xFFF_FFF0 && VolumeOk(g, d') && |d'| == |d|
  {
    if r != 0 { TakeCluster(g, d, r); }
  }

  lemma UnplacedChain(g: Geometry, d: Disk, f: Desc, ch: seq<nat>, dir: seq<nat>)
    requires Inv(g, d, f, ch, dir) && f.sector == 0
    ensures ch == [] && |f.buffer| == 512 && !f.IsDir()
  {
  }

  /** Flushing a file that has a sector. */
  lemma FlushPlaced(g: Geometry, d: Disk, f: Desc, ch: seq<nat>, dir: seq<nat>)
    requires Inv(g, d, f, ch, dir) && f.sector != 0 && f.flags.dirty
    ensures f.sector < |d| && |f.buffer| == 512
    ensures var d' := d[f.sector := f.buffer];
      Kept(g, d, f, ch, dir, d', f.Clean(), ch, dir) && VolumeOk(g, d') && Table(g, d') == Table(g, d)
  {
    WriteBack(g, d, f, ch, dir);
    InvReadable(g, d, f, ch, dir);
    DataWrite(g, d, f.sector, f.buffer);
    EntryKnown(g, d, f, ch, dir);
    hide Inv, Content, Frame, Table, VolumeOk;
  }

  /** A regular file that has a sector has its directory entry already. */
  lemma EntryKnown(g: Geometry, d: Disk, f: Desc, ch: seq<nat>, dir: seq<nat>)
    requires Inv(g, d, f, ch, dir) && f.sector != 0
    ensures !f.IsDir() ==> f.entrySector != 0 && HasSlot(g, d, f, ch)
    ensures Roomy(g, d, f, dir)
  {
  }

  /** Flushing a file that has no cluster: everything up to the saving of its directory entry. */
  lemma FlushNew(g: Geometry, d: Disk, f: Desc, dir: seq<nat>, k: nat)
    requires Inv(g, d, f, [], dir) && f.sector == 0 && f.flags.dirty && LeastFree(Table(g, d), k)
    requires Roomy(g, d, f, dir)
    ensures 2 <= k < g.limit && 0 < g.Base(k) < |d| && g.spc > 0
    ensures Wrap32(Wrap32(k * g.spc) + g.cluster0) == g.Base(k)
    ensures var d2, f2 := WithEntry(g, d, k, g.NewEnd())[g.Base(k) := f.buffer], PlacedAt(g, f, k);
      && VolumeOk(g, d2) && |d2| == |d| && Table(g, d2) == Table(g, d)[k := g.NewEnd()]
      && f2.first != g.rootCluster && f2.first < g.EntryMax() && f2.size < 0x1_0000_0000 && SlotFields(f2)
      && (HasSlot(g, d2, f2, [k]) || HasRoom(g, d2, f2, [k], dir))
      && Frame(g, d, d2, [], [k], f.entrySector, f.entryNumber)
  {
    PlaceNew(g, d, f, dir, k);
    ClusterToSector(g, |d|, k);
    FirstCluster(g, d, k, f.buffer, f.entrySector, f.entryNumber);
  }

  /** Flushing a file that has no cluster: the directory entry has been saved. */
  lemma FlushNewSaved(g: Geometry, d: Disk, f: Desc, dir: seq<nat>, k: nat, f2: Desc, d3: Disk, f3: Desc)
    requires Inv(g, d, f, [], dir) && f.sector == 0 && f.flags.dirty && LeastFree(Table(g, d), k)
    requires 2 <= k && 0 < g.Base(k) < |d| && g.spc > 0 && f2 == PlacedAt(g, f, k)
    requires var d2 := WithEntry(g, d, k, g.NewEnd())[g.Base(k) := f.buffer];
      && VolumeOk(g, d2) && Saved(g, d2, d3, f3, [k]) && f2.sector < |d3|
      && f3 == f2.(entrySector := f3.entrySector, entryNumber := f3.entryNumber).Stored(d3[f2.sector])
      && (if f2.entrySector != 0 then f3.entrySector == f2.entrySector && f3.entryNumber == f2.entryNumber
          else SlotFound(g, d2, dir, f3.entrySector, f3.entryNumber))
    requires Roomy(g, d, f, dir)
    ensures Kept(g, d, f, [], dir, d3, f3, [k], dir)
    ensures VolumeOk(g, d3) && FirstPlaced(g, d, d3, f3, [k])
  {
    var d2 := WithEntry(g, d, k, g.NewEnd())[g.Base(k) := f.buffer];
    var f2' := f2.(entrySector := f3.entrySector, entryNumber := f3.entryNumber);
    UnplacedChain(g, d, f, [], dir);
    ParkedSaved(g, d2, d3, f3, f2', [k]);
    FlushNewContent(g, d, f, dir, k, d2, f2', d3);
    FirstCluster(g, d, k, f.buffer, f.entrySector, f.entryNumber);
    FirstSaved(g, d, d2, k, f3, d3);
    FirstSlotStep(g, d, f, dir, k, d2, d3, f3);
    hide Inv, Content, Frame, WithEntry, Table, Saved, LeastFree, FirstPlaced, IsChain, HasSlot, VolumeOk,
      SlotFields, SlotStep, SlotFound, Roomy;
    FrameTrans(g, d, d2, d3, [], [k], [k], f.entrySector, f.entryNumber, f3.entrySector, f3.entryNumber);
  }

  /** The slot found once the first cluster has been filled was empty before: it lies in no free cluster. */
  lemma FirstSlotStep(g: Geometry, d: Disk, f: Desc, dir: seq<nat>, k: nat, d2: Disk, d3: Disk, f3: Desc)
    requires Inv(g, d, f, [], dir) && f.sector == 0 && f.flags.dirty && 2 <= k < g.limit && Table(g, d)[k] == 0
    requires g.spc > 0 && g.Base(k) >= 0 && g.Owns(k, g.Base(k)) && VolumeOk(g, d2) && |d2| == |d|
    requires forall s :: 0 <= s < |d| && !g.InFat(s) && s != g.Base(k) ==> d2[s] == d[s]
    requires f3.sector != 0 && f3.size == f.size && f3.entrySector != 0
    requires f.entrySector == 0 ==> SlotFound(g, d2, dir, f3.entrySector, f3.entryNumber)
    ensures SlotStep(g, d, f, dir, d3, f3)
  {
    if f.entrySector == 0 {
      var i :| RoomAt(g, d2, dir, i, f3.entryNumber) && SectorOf(g, dir, i) == f3.entrySector;
      WalkOfOther(g, d, dir, i, k);
      assert RoomAt(g, d, dir, i, f3.entryNumber);
    }
  }

  /** Saving the entry of a freshly placed file leaves it on the least free cluster with a clean buffer. */
  lemma FirstSaved(g: Geometry, d: Disk, d2: Disk, k: nat, f3: Desc, d3: Disk)
    requires VolumeOk(g, d) && VolumeOk(g, d2) && Saved(g, d2, d3, f3, [k]) && LeastFree(Table(g, d), k)
    requires Table(g, d2) == Table(g, d)[k := g.NewEnd()] && !f3.flags.dirty
    requires 0 < f3.sector < |d3| && f3.buffer == d3[f3.sector]
    ensures VolumeOk(g, d3) && FirstPlaced(g, d, d3, f3, [k])
    ensures Frame(g, d2, d3, [k], [k], f3.entrySector, f3.entryNumber)
  {
    hide Table, Frame, WithSlot, HasSlot;
  }

  /** The placed file with its entry saved: same bytes, and its slot bears its name. */
  lemma FlushNewContent(g: Geometry, d: Disk, f: Desc, dir: seq<nat>, k: nat, d2: Disk, f2: Desc, d3: Disk)
    requires Inv(g, d, f, [], dir) && f.sector == 0 && f.flags.dirty && LeastFree(Table(g, d), k)
    requires 2 <= k && 0 < g.Base(k) < |d| && g.spc > 0 && Roomy(g, d, f, dir)
    requires d2 == WithEntry(g, d, k, g.NewEnd())[g.Base(k) := f.buffer] && VolumeOk(g, d2)
    requires f2 == PlacedAt(g, f, k).(entrySector := f2.entrySector, entryNumber := f2.entryNumber)
    requires f2.sector < |d3| && Saved(g, d2, d3, f2, [k])
    ensures Inv(g, d3, f2.Stored(d3[f2.sector]), [k], dir)
    ensures Content(g, d3, f2.Stored(d3[f2.sector]), [k], dir) == Content(g, d, f, [], dir)
  {
    var p, f3 := PlacedAt(g, f, k), f2.Stored(d3[f2.sector]);
    PlaceNew(g, d, f, dir, k);
    SlotOrHome(g, d, f, dir);
    UnplacedChain(g, d, f, [], dir);
    OtherSlotPlaced(g, d2, p, f2, [k]);
    SaveInv(g, d2, f2, [k], dir, d3);
    InvReadable(g, d3, f3, [k], dir);
    hide Inv, Content, WithEntry, Table, VolumeOk, Placed, Saved, IsChain, Roomy, SectorOf;
    assert 2 <= [k][0];
    forall q | 0 <= q < f.size ensures ByteAt(g, d, f, [], q) == ByteAt(g, d3, f3, [k], q) {
      SaveBytes(g, d2, p, f2, [k], d3, q);
    }
    SameContent(g, d, f, [], dir, d3, f3, [k], dir);
  }

  lemma OtherSlotPlaced(g: Geometry, d: Disk, f: Desc, f2: Desc, ch: seq<nat>)
    requires VolumeOk(g, d) && Placed(g, d, f, ch)
    requires f2 == f.(entrySector := f2.entrySector, entryNumber := f2.entryNumber)
    ensures Placed(g, d, f2, ch)
  {
  }

  // ---------------------------------------------------------------- fat_next_cluster

  /** What the FAT says behind the j-th cluster of a walk. */
  lemma LinkOf(g: Geometry, d: Disk, walk: seq<nat>, j: nat)
    requires VolumeOk(g, d) && Track(g, Table(g, d), walk) && j < |walk|
    ensures IsRoot(g, walk) <==> walk[j] == 1
    ensures walk[j] == 1 ==> j + 1 == |walk|
    ensures walk[j] != 1 ==>
      && walk[j] < g.Entries() && EntrySector(g, walk[j]) < |d|
      && (j + 1 < |walk| ==> 2 <= walk[j + 1] < g.EndMarker() && Entry(g, d, walk[j]) == walk[j + 1])
      && (j + 1 == |walk| ==> Entry(g, d, walk[j]) >= g.EndMarker() >= 2)
  {
  }

  /** The next cluster of a walk is the number in the bytes of the entry. */
  lemma LinkRaw(g: Geometry, d: Disk, walk: seq<nat>, j: nat)
    requires VolumeOk(g, d) && Track(g, Table(g, d), walk) && j < |walk|
    ensures j + 1 < |walk| ==>
      walk[j] < EntryCount(g.fat32, 512 * g.spf) && walk[j + 1] == Value(Piece(g.fat32, FatRaw(g, d), walk[j]))
  {
    if j + 1 < |walk| {
      hide Table, FatRaw;
      LinkBytes(g, d, walk, j);
    }
  }

  lemma EntryDecodes(g: Geometry, d: Disk, c: nat)
    requires VolumeOk(g, d) && c < g.Entries() && EntrySector(g, c) < |d|
    ensures |d[EntrySector(g, c)]| == 512
    ensures Entry(g, d, c) == Decode(g, d[EntrySector(g, c)], EntryOffset(g, c))
  {
  }

  /** Storing an entry through a sector buffer. */
  lemma StoredEntry(g: Geometry, d: Disk, c: nat, v: nat)
    requires VolumeOk(g, d) && c < g.Entries()
    ensures EntrySector(g, c) < |d| && |d[EntrySector(g, c)]| == 512
    ensures WithEntry(g, d, c, v)
         == d[EntrySector(g, c) := Patch(d[EntrySector(g, c)], EntryOffset(g, c), Encode(g, v))]
  {
  }

  lemma GrowTest(g: Geometry, d: Disk, f: Desc, walk: seq<nat>)
    requires VolumeOk(g, d)
    ensures CanGrow(g, Table(g, d), f, walk) <==> f.flags.canWrite && !IsRoot(g, walk) && !Full(Table(g, d))
  {
  }

  /** A parked writable file at the end of its chain, before it is extended. */
  ghost predicate AtTail(g: Geometry, d: Disk, f: Desc, ch: seq<nat>, dir: seq<nat>, c: nat) {
    && 0 < f.sector < |d| && !f.flags.dirty && f.flags.canWrite && |ch| > 0 && !f.IsDir()
    && Inv(g, d, Parked(d, f, c), ch, dir)
  }

  /** Linking the new cluster: what saving the directory entry then needs. */
  lemma GrowLinked(g: Geometry, d: Disk, f: Desc, ch: seq<nat>, dir: seq<nat>, c: nat, k: nat)
    requires VolumeOk(g, d) && AtTail(g, d, f, ch, dir, c) && LeastFree(Table(g, d), k) && !IsRoot(g, ch)
    ensures 2 <= k < g.limit && HasFat(g, WithEntry(g, d, k, g.NewEnd())) && ch[|ch| - 1] < g.Entries()
    ensures var d1 := WithEntry(g, WithEntry(g, d, k, g.NewEnd()), ch[|ch| - 1], k);
      && VolumeOk(g, d1) && |d1| == |d| && Linked(g, d, d1, ch, ch + [k])
      && HasSlot(g, d1, f, ch + [k])
      && f.entrySector != 0 && f.first != 0 && f.first != g.rootCluster && f.first < g.EntryMax()
      && f.size < 0x1_0000_0000 && SlotFields(f)
      && Kept(g, d, Parked(d, f, c), ch, dir, d1, Parked(d1, f, c), ch + [k], dir)
  {
    var p := Parked(d, f, c);
    TailFacts(g, d, p, ch, dir);
    ExtendDisk(g, d, ch, k, f.entrySector, f.entryNumber);
    var d1 := WithEntry(g, WithEntry(g, d, k, g.NewEnd()), ch[|ch| - 1], k);
    TakeCluster(g, d, k);
    hide Inv, Content, Frame, Table, WithEntry, IsChain, VolumeOk, Kept;
    assert HasSlot(g, d1, p, ch + [k]) && HasSlot(g, d1, f, ch + [k]);
    GrowKept(g, d, p, ch, dir, d1, k);
  }

  lemma GrowKept(g: Geometry, d: Disk, p: Desc, ch: seq<nat>, dir: seq<nat>, d1: Disk, k: nat)
    requires Inv(g, d, p, ch, dir) && p.sector != 0 && !p.flags.dirty && !p.IsDir() && k != g.rootCluster
    requires VolumeOk(g, d1) && |d1| == |d| && IsChain(Table(g, d1), g.EndMarker(), g.limit, ch + [k])
    requires forall s :: 0 <= s < |d| && !g.InFat(s) ==> d1[s] == d[s]
    requires HasSlot(g, d1, p, ch + [k]) && p.sector < |d| && p.buffer == d[p.sector]
    requires Frame(g, d, d1, ch, ch + [k], p.entrySector, p.entryNumber)
    ensures Kept(g, d, p, ch, dir, d1, p.(buffer := d1[p.sector]), ch + [k], dir)
  {
    ExtendKeeps(g, d, p, ch, dir, d1, k);
    EntryKnown(g, d, p, ch, dir);
    hide Inv, Content, Frame, Table, IsChain, VolumeOk;
  }

  /** What is known of a placed regular file when its chain is extended. */
  lemma TailFacts(g: Geometry, d: Disk, f: Desc, ch: seq<nat>, dir: seq<nat>)
    requires Inv(g, d, f, ch, dir) && f.sector != 0 && !f.IsDir()
    ensures VolumeOk(g, d) && IsChain(Table(g, d), g.EndMarker(), g.limit, ch) && HasSlot(g, d, f, ch)
    ensures f.first == ch[0] && f.first != 0 && f.first != g.rootCluster && f.first < g.EntryMax()
    ensures f.size < 0x8000_0000 && SlotFields(f) && 0 < f.entrySector < |d| && !g.InFat(f.entrySector)
  {
    assert ch[0] in ch;
  }

  /** The extended file after its directory entry has been saved. */
  lemma GrowSaved(g: Geometry, d: Disk, f: Desc, ch: seq<nat>, dir: seq<nat>, c: nat, k: nat, d1: Disk, d2: Disk,
      f2: Desc)
    requires 0 < f.sector < |d| == |d1| == |d2| && f2 == f.Stored(d2[f.sector]) && !f.flags.dirty && !f.IsDir()
    requires Linked(g, d, d1, ch, ch + [k]) && VolumeOk(g, d1)
    requires Kept(g, d, Parked(d, f, c), ch, dir, d1, Parked(d1, f, c), ch + [k], dir)
    requires Saved(g, d1, d2, f2, ch + [k])
    ensures Grown(g, d, f, ch, dir, d2, f2, ch + [k], c, k)
  {
    var p1, p2 := Parked(d1, f, c), Parked(d2, f2, c);
    assert p2 == p1.Stored(d2[p1.sector]);
    ParkedSaved(g, d1, d2, f2, p1, ch + [k]);
    GrowParked(g, d, f, ch, dir, c, d1, ch + [k]);
    SavedLink(g, d, d1, ch, ch + [k], d2, f2);
    hide Inv, Content, Frame, Table, Sectors, Saved, Linked, VolumeOk, Kept;
    SavedKept(g, d1, p1, ch + [k], dir, d2);
    KeptTrans(g, d, Parked(d, f, c), ch, d1, p1, ch + [k], d2, p2, ch + [k], dir);
  }

  /** Saving the entry of a clean placed file that has one. */
  lemma SavedKept(g: Geometry, d: Disk, f: Desc, ch: seq<nat>, dir: seq<nat>, d': Disk)
    requires Inv(g, d, f, ch, dir) && f.sector != 0 && !f.flags.dirty && !f.IsDir() && Saved(g, d, d', f, ch)
    ensures f.sector < |d'| && Kept(g, d, f, ch, dir, d', f.Stored(d'[f.sector]), ch, dir)
  {
    SaveKeeps(g, d, f, ch, dir, d');
    SavedSlot(g, d, d', f, ch);
    hide Inv, Content, Frame, Table, Saved, VolumeOk;
  }

  lemma GrowParked(g: Geometry, d: Disk, f: Desc, ch: seq<nat>, dir: seq<nat>, c: nat, d1: Disk, ch1: seq<nat>)
    requires f.sector < |d| == |d1|
    requires Kept(g, d, Parked(d, f, c), ch, dir, d1, Parked(d1, f, c), ch1, dir)
    ensures Inv(g, d1, Parked(d1, f, c), ch1, dir)
  {
  }

  lemma SavedLink(g: Geometry, d: Disk, d1: Disk, ch: seq<nat>, ch1: seq<nat>, d2: Disk, f2: Desc)
    requires Linked(g, d, d1, ch, ch1) && Saved(g, d1, d2, f2, ch1)
    ensures Linked(g, d, d2, ch, ch1)
  {
    hide Frame, Table, WithSlot, HasSlot, LeastFree;
  }

  lemma SavedSlot(g: Geometry, d: Disk, d': Disk, f: Desc, ch: seq<nat>)
    requires Saved(g, d, d', f, ch)
    ensures f.entrySector != 0 && Frame(g, d, d', ch, ch, f.entrySector, f.entryNumber)
  {
  }

  lemma SlotAnyBuffer(g: Geometry, d: Disk, f: Desc, b: seq<byte>, ch: seq<nat>)
    requires VolumeOk(g, d) && HasSlot(g, d, f, ch)
    ensures HasSlot(g, d, f.(buffer := b), ch) && (SlotFields(f) ==> SlotFields(f.(buffer := b)))
  {
  }

  lemma GrownAnyBuffer(g: Geometry, d: Disk, f: Desc, b: seq<byte>, ch: seq<nat>, dir: seq<nat>,
                       d': Disk, f': Desc, ch': seq<nat>, c: nat, r: int)
    requires f.sector < |d| && f'.sector < |d'| && |d| == |d'|
    requires Grown(g, d, f.(buffer := b), ch, dir, d', f', ch', c, r)
    ensures Grown(g, d, f, ch, dir, d', f', ch', c, r)
  {
    assert Parked(d, f.(buffer := b), c) == Parked(d, f, c);
  }

  lemma ParkedSaved(g: Geometry, d: Disk, d': Disk, f: Desc, p: Desc, ch: seq<nat>)
    requires Saved(g, d, d', f, ch)
    requires p.entrySector == f.entrySector && p.entryNumber == f.entryNumber
    requires p.meta == f.meta && p.first == f.first && p.size == f.size
    ensures Saved(g, d, d', p, ch)
  {
    var reserved :| d' == d[f.entrySector := WithSlot(d[f.entrySector], f, reserved)];
    assert WithSlot(d[f.entrySector], p, reserved) == WithSlot(d[f.entrySector], f, reserved);
  }

  // ---------------------------------------------------------------- fat_next_sector

  /** The descriptor one sector further on in the same cluster. */
  function NextInside(f: Desc, b: seq<byte>): Desc
    requires f.sectorsLeft > 0
  {
    f.(sectorsLeft := f.sectorsLeft - 1, fileSector := f.fileSector + 1, cursor := 0, sector := f.sector + 1,
        buffer := b)
  }

  /** The descriptor on the first sector of cluster c, which follows its own. */
  function NextAcross(g: Geometry, f: Desc, c: nat, b: seq<byte>): Desc
    requires g.spc > 0
  {
    f.(cluster := c, sector := Wrap32(Wrap32(c * g.spc) + g.cluster0), sectorsLeft := g.spc - 1,
       fileSector := f.fileSector + 1, cursor := 0, buffer := b)
  }

  lemma WalkInside(g: Geometry, d: Disk, f: Desc, walk: seq<nat>, i: nat)
    requires VolumeOk(g, d) && Track(g, Table(g, d), walk) && At(g, f, walk, i) && f.sectorsLeft > 0
    ensures f.sector + 1 < |d| && At(g, NextInside(f, d[f.sector + 1]), walk, i + 1)
  {
    StepInside(g, walk, i);
    TrackSector(g, |d|, Table(g, d), walk, i + 1);
  }

  lemma WalkAcross(g: Geometry, d: Disk, f: Desc, walk: seq<nat>, i: nat)
    requires VolumeOk(g, d) && Track(g, Table(g, d), walk) && At(g, f, walk, i) && f.sectorsLeft == 0
    ensures g.spc > 0
    ensures IsRoot(g, walk) ==> i + 1 == Sectors(g, walk)
    ensures !IsRoot(g, walk) ==>
      && Quot(i, g.spc) < |walk| && f.cluster == walk[Quot(i, g.spc)]
      && (i + 1 < Sectors(g, walk) <==> Quot(i, g.spc) + 1 < |walk|)
    ensures !IsRoot(g, walk) && i + 1 < Sectors(g, walk) ==>
      var s := Wrap32(Wrap32(walk[Quot(i, g.spc) + 1] * g.spc) + g.cluster0);
      s < |d| && walk[Quot(i, g.spc) + 1] >= 2 && At(g, NextAcross(g, f, walk[Quot(i, g.spc) + 1], d[s]), walk, i + 1)
  {
    if !IsRoot(g, walk) {
      StepAcross(g, walk, i);
      if i + 1 < Sectors(g, walk) {
        ClusterToSector(g, |d|, walk[Quot(i, g.spc) + 1]);
      }
    }
  }

  /** A clean placed file moved by one sector. */
  lemma StepKeeps(g: Geometry, d: Disk, f: Desc, f': Desc, ch: seq<nat>, dir: seq<nat>)
    requires Inv(g, d, f, ch, dir) && f.sector != 0 && !f.flags.dirty && f.cursor == 512
    requires Moved(g, d, f, f', ch) && f'.fileSector == f.fileSector + 1 && f'.cursor == 0
    ensures Kept(g, d, f, ch, dir, d, f', ch, dir) && 0 < f'.sector < |d|
    ensures Crossed(g, d, f, ch, d, ch, false)
  {
    InvReadable(g, d, f, ch, dir);
    MoveKeeps(g, d, f, f', ch, dir);
    FrameRefl(g, d, ch, f.entrySector, f.entryNumber);
  }

  /** A placed descriptor stands on its own chain; parking it changes nothing. */
  lemma OwnWalk(g: Geometry, d: Disk, f: Desc, ch: seq<nat>, dir: seq<nat>)
    requires Inv(g, d, f, ch, dir) && f.sector != 0 && !f.flags.dirty
    ensures VolumeOk(g, d) && Track(g, Table(g, d), ch) && At(g, f, ch, f.fileSector) && 0 < f.sector < |d|
    ensures Inv(g, d, Parked(d, f, f.cluster), ch, dir)
    ensures Kept(g, d, f, ch, dir, d, Parked(d, f, f.cluster), ch, dir)
    ensures |d[f.sector]| == 512
  {
    InvReadable(g, d, f, ch, dir);
    MoveKeeps(g, d, f, Parked(d, f, f.cluster), ch, dir);
    FrameRefl(g, d, ch, f.entrySector, f.entryNumber);
  }

  /** The file one sector further on in its cluster. */
  lemma InsideOwn(g: Geometry, d: Disk, f: Desc, ch: seq<nat>, dir: seq<nat>)
    requires Inv(g, d, f, ch, dir) && f.sector != 0 && !f.flags.dirty && f.cursor == 512 && f.sectorsLeft > 0
    ensures f.sector + 1 < |d| && Kept(g, d, f, ch, dir, d, NextInside(f, d[f.sector + 1]), ch, dir)
    ensures Crossed(g, d, f, ch, d, ch, false)
  {
    OwnWalk(g, d, f, ch, dir);
    WalkInside(g, d, f, ch, f.fileSector);
    VolumeSpc(g, d);
    hide Inv, Kept, Crossed, Table, VolumeOk, Track;
    StepKeeps(g, d, f, NextInside(f, d[f.sector + 1]), ch, dir);
  }

  lemma RolledIsPlaced(g: Geometry, d: Disk, f: Desc, ch: seq<nat>, dir: seq<nat>)
    requires Inv(g, d, f, ch, dir) && f.cursor == 512 && !f.flags.dirty
    ensures f.sector != 0
  {
  }

  /** Stepping into the next cluster of the chain. */
  lemma AcrossPlain(g: Geometry, d: Disk, f: Desc, ch: seq<nat>, dir: seq<nat>)
    requires Inv(g, d, f, ch, dir) && f.sector != 0 && !f.flags.dirty && f.cursor == 512
    requires f.sectorsLeft == 0 && !IsRoot(g, ch) && g.spc > 0 && f.fileSector + 1 < Sectors(g, ch)
    ensures Quot(f.fileSector, g.spc) + 1 < |ch| && ch[Quot(f.fileSector, g.spc) + 1] >= 2
    ensures var c := ch[Quot(f.fileSector, g.spc) + 1];
      var s := Wrap32(Wrap32(c * g.spc) + g.cluster0);
      s < |d| && Kept(g, d, f, ch, dir, d, NextAcross(g, f, c, d[s]), ch, dir) && 0 < s
  {
    hide Inv, Table, Wrap32, Kept, IsRoot, Sectors, ClusterOf, LeftAt, SectorOf, Quot, VolumeOk, Track, At;
    OwnWalk(g, d, f, ch, dir);
    WalkAcross(g, d, f, ch, f.fileSector);
    var c := ch[Quot(f.fileSector, g.spc) + 1];
    var s := Wrap32(Wrap32(c * g.spc) + g.cluster0);
    StepKeeps(g, d, f, NextAcross(g, f, c, d[s]), ch, dir);
  }

  /** The parked file after its chain has been extended stands on the old last sector of a longer walk. */
  lemma GrownAtOldEnd(g: Geometry, d: Disk, f: Desc, ch: seq<nat>, dir: seq<nat>, d2: Disk, f2: Desc, ch2: seq<nat>,
      k: nat)
    requires Inv(g, d, f, ch, dir) && f.sector != 0 && !f.flags.dirty && f.cursor == 512
    requires f.sectorsLeft == 0 && !IsRoot(g, ch) && f.fileSector + 1 == Sectors(g, ch)
    requires 0 < f.sector < |d| == |d2| && 0 < f2.sector < |d2| && Grown(g, d, f, ch, dir, d2, f2, ch2, f.cluster, k)
    ensures f2.sector == f.sector && ch2 == ch + [k] && !IsRoot(g, ch2) && g.spc > 0
    ensures f.fileSector + 1 < Sectors(g, ch2) && Quot(f.fileSector, g.spc) + 1 == |ch|
    ensures Inv(g, d2, Parked(d2, f2, f.cluster), ch2, dir)
    ensures Kept(g, d, f, ch, dir, d2, Parked(d2, f2, f.cluster), ch2, dir)
    ensures f2 == f.Stored(d2[f.sector])
  {
    hide Inv, Kept, Content, Frame, Table, Linked, Grown, VolumeOk, Wrap32, Track, At, IsRoot, Sectors, Quot,
      ClusterOf, LeftAt;
    OwnWalk(g, d, f, ch, dir);
    WalkAcross(g, d, f, ch, f.fileSector);
    GrownParts(g, d, f, ch, dir, d2, f2, ch2, f.cluster, k);
    AppendToWalk(g, d, ch, k, f.fileSector);
    KeptTrans(g, d, f, ch, d, Parked(d, f, f.cluster), ch, d2, Parked(d2, f2, f.cluster), ch2, dir);
  }

  /** Stepping into the cluster the chain has just been extended by. */
  lemma AcrossGrown(g: Geometry, d: Disk, f: Desc, ch: seq<nat>, dir: seq<nat>, d2: Disk, f2: Desc, ch2: seq<nat>,
      k: nat)
    requires Inv(g, d, f, ch, dir) && f.sector != 0 && !f.flags.dirty && f.cursor == 512
    requires f.sectorsLeft == 0 && !IsRoot(g, ch) && f.fileSector + 1 == Sectors(g, ch)
    requires 0 < f.sector < |d| == |d2| && 0 < f2.sector < |d2| && Grown(g, d, f, ch, dir, d2, f2, ch2, f.cluster, k)
    ensures g.spc > 0 && k >= 2
    ensures var s := Wrap32(Wrap32(k * g.spc) + g.cluster0);
      0 < s < |d2| && Kept(g, d, f, ch, dir, d2, NextAcross(g, f2, k, d2[s]), ch2, dir)
  {
    hide Inv, Kept, Content, Frame, Table, Grown, VolumeOk, Wrap32, IsRoot, Sectors, Quot;
    GrownAtOldEnd(g, d, f, ch, dir, d2, f2, ch2, k);
    var p2 := Parked(d2, f2, f.cluster);
    AcrossPlain(g, d2, p2, ch2, dir);
    var s := Wrap32(Wrap32(k * g.spc) + g.cluster0);
    var f3 := NextAcross(g, f2, k, d2[s]);
    assert NextAcross(g, p2, k, d2[s]) == f3;
    KeptTrans(g, d, f, ch, d2, p2, ch2, d2, f3, ch2, dir);
  }

  lemma AppendToWalk(g: Geometry, d: Disk, ch: seq<nat>, k: nat, i: nat)
    requires VolumeOk(g, d) && Track(g, Table(g, d), ch) && !IsRoot(g, ch) && i < Sectors(g, ch)
    ensures !IsRoot(g, ch + [k]) && Sectors(g, ch + [k]) == Sectors(g, ch) + g.spc && g.spc > 0
  {
    AppendCluster(g, ch, k, i);
  }

  lemma GrownParts(g: Geometry, d: Disk, f: Desc, ch: seq<nat>, dir: seq<nat>, d2: Disk, f2: Desc, ch2: seq<nat>,
      c: nat, k: nat)
    requires f.sector < |d| && f2.sector < |d2| && |d| == |d2|
    requires Grown(g, d, f, ch, dir, d2, f2, ch2, c, k)
    ensures Inv(g, d2, Parked(d2, f2, c), ch2, dir)
    ensures Kept(g, d, Parked(d, f, c), ch, dir, d2, Parked(d2, f2, c), ch2, dir)
    ensures f2 == f.Stored(d2[f.sector]) && ch2 == ch + [k]
  {
  }

  /** Rolling off the end of the chain with no way on. */
  lemma AcrossEnd(g: Geometry, d: Disk, f: Desc, ch: seq<nat>, dir: seq<nat>, b: seq<byte>)
    requires Inv(g, d, f, ch, dir) && f.sector != 0 && !f.flags.dirty && f.cursor == 512 && |b| == 512
    requires HasFat(g, d) && !(f.fileSector + 1 < Sectors(g, ch)) && !CanGrow(g, Table(g, d), f, ch)
    ensures Kept(g, d, f, ch, dir, d, f.(buffer := b), ch, dir)
    ensures Stuck(g, d, f.(buffer := b), ch) && Crossed(g, d, f, ch, d, ch, true) && Needed(g, ch, f.fileSector, ch)
  {
    OwnWalk(g, d, f, ch, dir);
    hide Table, Sectors;
    SpentKeeps(g, d, f, ch, dir, b);
    FrameRefl(g, d, ch, f.entrySector, f.entryNumber);
  }

  /** A file whose cursor has rolled off, once its buffer has been flushed. */
  lemma FlushedOwn(g: Geometry, d0: Disk, f0: Desc, ch0: seq<nat>, d: Disk, f: Desc, ch: seq<nat>, dir: seq<nat>)
    requires Inv(g, d0, f0, ch0, dir) && f0.cursor == 512 && f.cursor == 512 && f.fileSector == f0.fileSector
    requires f0.flags.dirty ==> Kept(g, d0, f0, ch0, dir, d, f, ch, dir) && !f.flags.dirty
    requires !f0.flags.dirty ==> d == d0 && f == f0 && ch == ch0
    ensures Kept(g, d0, f0, ch0, dir, d, f, ch, dir) && Inv(g, d, f, ch, dir) && 0 < f.sector < |d|
    ensures Track(g, Table(g, d), ch) && At(g, f, ch, f.fileSector)
    ensures Inv(g, d, Parked(d, f, f.cluster), ch, dir) && Roomy(g, d, f, dir)
    ensures f.IsDir() == f0.IsDir() && f.flags.canWrite == f0.flags.canWrite && (f0.IsDir() ==> f0.sector != 0)
  {
    if !f0.flags.dirty { KeptRefl(g, d0, f0, ch0, dir); }
    RolledIsPlaced(g, d, f, ch, dir);
    OwnWalk(g, d, f, ch, dir);
    EntryKnown(g, d, f, ch, dir);
  }

  /** A walk at a cluster boundary: j is the index of its cluster, and what lies behind it. */
  lemma Boundary(g: Geometry, d: Disk, f: Desc, w: seq<nat>, x: nat) returns (j: nat)
    requires VolumeOk(g, d) && Track(g, Table(g, d), w) && At(g, f, w, x) && f.sectorsLeft == 0
    ensures g.spc > 0 && j < |w| && f.cluster == w[j]
    ensures x + 1 < Sectors(g, w) <==> j + 1 < |w|
    ensures j + 1 < |w| ==>
      var s := Wrap32(Wrap32(w[j + 1] * g.spc) + g.cluster0);
      s < |d| && w[j + 1] >= 2 && At(g, NextAcross(g, f, w[j + 1], d[s]), w, x + 1)
    ensures !IsRoot(g, w) ==> j == Quot(x, g.spc)
    ensures IsRoot(g, w) ==> j + 1 == |w|
  {
    WalkAcross(g, d, f, w, x);
    j := if IsRoot(g, w) then 0 else Quot(x, g.spc);
  }

  /** The file in its next cluster, found in the chain or newly linked. */
  lemma NextOwn(g: Geometry, d: Disk, f: Desc, ch: seq<nat>, dir: seq<nat>, d1: Disk, f1: Desc, ch1: seq<nat>,
      c: nat, f2: Desc)
    requires Inv(g, d, f, ch, dir) && 0 < f.sector < |d| && !f.flags.dirty && f.cursor == 512
    requires f.sectorsLeft == 0 && !IsRoot(g, ch) && g.spc > 0 && Quot(f.fileSector, g.spc) < |ch|
    requires HasFat(g, d) && (Quot(f.fileSector, g.spc) + 1 < |ch| || CanGrow(g, Table(g, d), f, ch))
    requires f.fileSector + 1 < Sectors(g, ch) <==> Quot(f.fileSector, g.spc) + 1 < |ch|
    requires f.fileSector < Sectors(g, ch)
    requires Quot(f.fileSector, g.spc) + 1 < |ch| ==>
      c == ch[Quot(f.fileSector, g.spc) + 1] && d1 == d && ch1 == ch && f1 == f.(buffer := f1.buffer)
    requires Quot(f.fileSector, g.spc) + 1 == |ch| ==>
      |d1| == |d| && 0 < f1.sector < |d1| && Grown(g, d, f, ch, dir, d1, f1, ch1, f.cluster, c)
    requires f2 == NextAcross(g, f1, c, f2.buffer) && (f2.sector < |d1| ==> f2.buffer == d1[f2.sector])
    ensures 0 < f2.sector < |d1| && Kept(g, d, f, ch, dir, d1, f2, ch1, dir)
    ensures !f2.flags.dirty && f2.fileSector == f.fileSector + 1 && Needed(g, ch, f2.fileSector, ch1)
    ensures Crossed(g, d, f, ch, d1, ch1, false)
  {
    hide Inv, Kept, Grown, Sectors, Quot, Wrap32, Table, CanGrow, HasFat;
    if Quot(f.fileSector, g.spc) + 1 < |ch| {
      AcrossPlain(g, d, f, ch, dir);
      assert f2 == NextAcross(g, f, c, d[f2.sector]);
    } else {
      AcrossGrown(g, d, f, ch, dir, d1, f1, ch1, c);
      GrownParts(g, d, f, ch, dir, d1, f1, ch1, f.cluster, c);
      assert f2 == NextAcross(g, f1, c, d1[f2.sector]);
      GrownNeeded(g, f, ch, f2, ch1);
    }
  }

  lemma GrownNeeded(g: Geometry, f: Desc, ch: seq<nat>, f2: Desc, ch1: seq<nat>)
    requires !IsRoot(g, ch) && !(f.fileSector + 1 < Sectors(g, ch)) && f.fileSector < Sectors(g, ch)
    requires |ch1| == |ch| + 1 && f2.fileSector == f.fileSector + 1
    ensures Needed(g, ch, f2.fileSector, ch1)
  {
  }
}
