/**
 Files that share one volume. Every descriptor has its own buffer; they share the FAT, the data
 region and the sectors of their directories. Work on one of them changes nothing the others stand
 for, whether they are open, closed or have no directory entry yet.
 */
module Sharing {
  import opened Bytes
  import opened Chains
  import opened Layout
  import opened Tracks
  import opened FileSpec
  import opened FileSteps
  import opened FileStore

  /** A file: its record, its clusters and, while it has no entry, its parent directory. */
  datatype Handle = Handle(f: Desc, ch: seq<nat>, dir: seq<nat>)

  /** A file that has been deleted. */
  predicate Dead(a: Handle) {
    a.ch == [] && a.dir == [] && a.f.entrySector == 0 && !a.f.flags.isOpen
  }

  /** A file that meets the invariant. Closed, it has nothing unsaved. */
  ghost predicate Live(g: Geometry, d: Disk, a: Handle) {
    && Inv(g, d, a.f, a.ch, a.dir) && !a.f.IsDir()
    && (!a.f.flags.isOpen ==> a.f.flags == Flags(false, false, false, false, false, false))
  }

  ghost predicate OpenOk(g: Geometry, d: Disk, a: Handle) {
    VolumeOk(g, d) && (Dead(a) || Live(g, d, a))
  }

  /** Work on clusters ch and slot (es, en) does not concern file b. */
  ghost predicate Clear(g: Geometry, t: seq<nat>, ch: seq<nat>, es: nat, en: nat, b: Handle)
    requires g.limit <= |t|
  {
    && Disjoint(ch, b.ch) && Disjoint(b.ch, ch)
    && (if b.f.entrySector == 0 then Disjoint(b.dir, ch) else Quiet(g, t, ch, b.f.entrySector))
    && (es != 0 ==> Quiet(g, t, b.ch, es) && (es != b.f.entrySector || en != b.f.entryNumber))
  }

  /** Two files share no cluster and no slot, and neither's slot or directory lies in the data of the other. */
  ghost predicate Independent(g: Geometry, t: seq<nat>, a: Handle, b: Handle)
    requires g.limit <= |t|
  {
    Clear(g, t, a.ch, a.f.entrySector, a.f.entryNumber, b) && (a.f.entrySector == 0 ==> Disjoint(a.dir, b.ch))
  }

  ghost predicate Apart(g: Geometry, d: Disk, a: Handle, b: Handle) {
    VolumeOk(g, d) && Independent(g, Table(g, d), a, b) && Independent(g, Table(g, d), b, a)
  }

  // ---------------------------------------------------------------- one step of one file

  /** The slot a step works on: the one the file has afterwards, or had before. */
  function SlotUsed(a: Handle, a': Handle): (nat, nat) {
    if a'.f.entrySector != 0 then (a'.f.entrySector, a'.f.entryNumber) else (a.f.entrySector, a.f.entryNumber)
  }

  /** A slot that is new was an empty one of the file's directory. */
  ghost predicate Gained(g: Geometry, d: Disk, a: Handle, es: nat, en: nat) {
    a.f.entrySector == 0 && VolumeOk(g, d) && Track(g, Table(g, d), a.dir) && Disjoint(a.dir, a.ch)
    && SlotFound(g, d, a.dir, es, en)
  }

  /** From d to d' only file a has been worked on; it is a' now. */
  ghost predicate Worker(g: Geometry, d: Disk, a: Handle, d': Disk, a': Handle) {
    var (es, en) := SlotUsed(a, a');
    && OpenOk(g, d, a) && OpenOk(g, d', a')
    && Touched(g, d, d', a.ch, a'.ch, es, en)
    && (es != 0 ==> Quiet(g, Table(g, d), a.ch, es))
    && ((es == a.f.entrySector && en == a.f.entryNumber) || es == 0 || Gained(g, d, a, es, en))
    && (a'.f.entrySector == 0 ==> a'.dir == [] || (a.f.entrySector == 0 && a'.dir == a.dir))
  }

  lemma FrameTouched(g: Geometry, d: Disk, d': Disk, ch: seq<nat>, ch': seq<nat>, es: nat, en: nat)
    requires Frame(g, d, d', ch, ch', es, en)
    ensures Touched(g, d, d', ch, ch', es, en)
  {
  }

  lemma TouchedNothing(g: Geometry, d: Disk, ch: seq<nat>, es: nat, en: nat)
    requires VolumeOk(g, d)
    ensures Touched(g, d, d, ch, ch, es, en)
  {
  }

  /** The slot a file gains is clear of every file it is independent of. */
  lemma GainedClear(g: Geometry, d: Disk, a: Handle, es: nat, en: nat, b: Handle)
    requires Gained(g, d, a, es, en) && Apart(g, d, a, b) && OpenOk(g, d, b)
    ensures es != 0 && Clear(g, Table(g, d), a.ch, es, en, b)
  {
    hide Inv, Content, Table, Quiet, SectorOf;
    var i :| RoomAt(g, d, a.dir, i, en) && SectorOf(g, a.dir, i) == es;
    RoomIsSlot(g, d, a.dir, i, en, b.ch);
    if es == b.f.entrySector && en == b.f.entryNumber {
      SlotNotEmpty(g, d, b);
    }
  }

  lemma SlotNotEmpty(g: Geometry, d: Disk, b: Handle)
    requires OpenOk(g, d, b) && b.f.entrySector != 0
    ensures ValidDisk(d) && !EmptyAt(d, b.f.entrySector, b.f.entryNumber)
  {
    hide Table, IsChain, Quiet, Placed, Unplaced, Synced, SlotFirst;
  }

  /** Work on a does not concern the files a is independent of. */
  lemma WorkerClear(g: Geometry, d: Disk, a: Handle, d': Disk, a': Handle, b: Handle)
    requires Worker(g, d, a, d', a') && Apart(g, d, a, b) && OpenOk(g, d, b)
    ensures var (es, en) := SlotUsed(a, a'); Clear(g, Table(g, d), a.ch, es, en, b)
  {
    hide OpenOk, Touched, Quiet, Table, Gained;
    var (es, en) := SlotUsed(a, a');
    if Gained(g, d, a, es, en) {
      GainedClear(g, d, a, es, en, b);
    }
  }

  // ---------------------------------------------------------------- the others

  lemma ClustersInUse(g: Geometry, d: Disk, b: Handle)
    requires OpenOk(g, d, b)
    ensures forall c :: c in b.ch ==> c < g.Entries() && Table(g, d)[c] != 0
    ensures b.f.entrySector == 0 ==> forall c :: c in b.dir ==> c < g.Entries() && Table(g, d)[c] != 0
    ensures b.f.entrySector != 0 ==> Quiet(g, Table(g, d), b.ch, b.f.entrySector)
  {
    if Live(g, d, b) {
      if b.f.sector != 0 { ChainEntriesInUse(Table(g, d), g.EndMarker(), g.limit, b.ch); }
      if b.f.entrySector == 0 && !IsRoot(g, b.dir) {
        ChainEntriesInUse(Table(g, d), g.EndMarker(), g.limit, b.dir);
      }
    }
  }

  /** The sectors of a file are quiet for every other file. */
  lemma OtherSector(g: Geometry, d: Disk, ch: seq<nat>, es: nat, en: nat, b: Handle, i: nat)
    requires Live(g, d, b) && Clear(g, Table(g, d), ch, es, en, b) && b.f.sector != 0 && i < Sectors(g, b.ch)
    ensures 0 <= SectorOf(g, b.ch, i) < |d|
    ensures Quiet(g, Table(g, d), ch, SectorOf(g, b.ch, i)) && (es != 0 ==> SectorOf(g, b.ch, i) != es)
  {
    var s := SectorOf(g, b.ch, i);
    TrackSector(g, |d|, Table(g, d), b.ch, i);
    assert b.ch[0] >= 2;
    var k := ClusterOf(g, b.ch, i);
    ChainEntriesInUse(Table(g, d), g.EndMarker(), g.limit, b.ch);
    forall c | 2 <= c < g.limit && (Table(g, d)[c] == 0 || c in ch) ensures !g.Owns(c, s) {
      if g.Owns(c, s) { ClustersDisjoint(g, c, k, s); }
    }
  }

  lemma OtherBytes(g: Geometry, d: Disk, d': Disk, ch: seq<nat>, ch': seq<nat>, es: nat, en: nat, b: Handle, i: nat)
    requires Live(g, d, b) && Clear(g, Table(g, d), ch, es, en, b) && Touched(g, d, d', ch, ch', es, en)
    requires b.f.sector != 0 && i < Sectors(g, b.ch)
    ensures 0 <= SectorOf(g, b.ch, i) < |d| == |d'| && d'[SectorOf(g, b.ch, i)] == d[SectorOf(g, b.ch, i)]
  {
    hide Live, Clear, Table;
    OtherSector(g, d, ch, es, en, b, i);
  }

  /** The directory slot of a file is not touched by work on another one. */
  lemma OtherSlot(g: Geometry, d: Disk, d': Disk, ch: seq<nat>, ch': seq<nat>, es: nat, en: nat, b: Handle)
    requires Live(g, d, b) && Clear(g, Table(g, d), ch, es, en, b) && Touched(g, d, d', ch, ch', es, en)
    ensures Synced(g, d, b.f) && b.f.entrySector != 0 ==> Synced(g, d', b.f)
    ensures Titled(d', b.f)
  {
    hide Table, Placed, Unplaced, IsChain, Others;
    var s, n := b.f.entrySector, b.f.entryNumber;
    if s != 0 && s == es {
      assert d'[s][n * 32..n * 32 + 32] == d[s][n * 32..n * 32 + 32];
      SlotBytes(g, d[s], d'[s], n);
    }
  }

  lemma SlotBytes(g: Geometry, s: seq<byte>, s': seq<byte>, n: nat)
    requires |s| == 512 == |s'| && n < 16 && s'[n * 32..n * 32 + 32] == s[n * 32..n * 32 + 32]
    ensures SlotFirst(g, s', n) == SlotFirst(g, s, n) && SlotSize(s', n) == SlotSize(s, n)
    ensures SlotName(s', n) == SlotName(s, n) && SlotAttributes(s', n) == SlotAttributes(s, n)
  {
    var o := n * 32;
    assert forall k :: o <= k < o + 32 ==> s'[k] == s'[o..o + 32][k - o] && s[k] == s[o..o + 32][k - o];
  }

  /** What work on other clusters leaves of the parts of a file's invariant that look at the FAT. */
  lemma OtherChain(g: Geometry, d: Disk, d': Disk, ch: seq<nat>, ch': seq<nat>, es: nat, en: nat, b: Handle)
    requires Live(g, d, b) && Clear(g, Table(g, d), ch, es, en, b) && Touched(g, d, d', ch, ch', es, en)
    ensures b.f.sector != 0 ==> IsChain(Table(g, d'), g.EndMarker(), g.limit, b.ch)
    ensures b.f.entrySector != 0 ==> HasSlot(g, d', b.f, b.ch)
    ensures b.f.entrySector == 0 ==> HasHome(g, d', b.f, b.ch, b.dir)
  {
    var t, t' := Table(g, d), Table(g, d');
    hide Table, SlotFirst, SlotSize, Titled;
    if b.f.sector != 0 {
      ChainEntriesInUse(t, g.EndMarker(), g.limit, b.ch);
      ChainFrame(t, t', g.EndMarker(), g.limit, b.ch);
    }
    if b.f.entrySector == 0 && !IsRoot(g, b.dir) {
      ChainEntriesInUse(t, g.EndMarker(), g.limit, b.dir);
      ChainFrame(t, t', g.EndMarker(), g.limit, b.dir);
    }
  }

  lemma BystanderInv(g: Geometry, d: Disk, d': Disk, ch: seq<nat>, ch': seq<nat>, es: nat, en: nat, b: Handle)
    requires Live(g, d, b) && Clear(g, Table(g, d), ch, es, en, b) && Touched(g, d, d', ch, ch', es, en)
    ensures Live(g, d', b)
  {
    hide Table, Quiet, Synced, Titled, IsChain, Others, SectorOf, ClusterOf, LeftAt, Sectors, HasSlot, HasHome, Clear,
      VolumeOk, Touched;
    VolumeLater(g, d, d', ch, ch', es, en);
    OtherSlot(g, d, d', ch, ch', es, en, b);
    OtherChain(g, d, d', ch, ch', es, en, b);
    if b.f.sector != 0 {
      SectorOfPlace(g, d, b);
      OtherBytes(g, d, d', ch, ch', es, en, b, b.f.fileSector);
    }
  }

  lemma VolumeLater(g: Geometry, d: Disk, d': Disk, ch: seq<nat>, ch': seq<nat>, es: nat, en: nat)
    requires Touched(g, d, d', ch, ch', es, en)
    ensures VolumeOk(g, d) && VolumeOk(g, d') && |d'| == |d|
  {
  }

  lemma SectorOfPlace(g: Geometry, d: Disk, b: Handle)
    requires Live(g, d, b) && b.f.sector != 0
    ensures g.spc > 0 && b.f.fileSector < Sectors(g, b.ch) && b.f.sector == SectorOf(g, b.ch, b.f.fileSector)
    ensures b.f.entrySector != 0
  {
  }

  /** Work on other clusters and another slot leaves file b as it is: same record, same bytes, same position. */
  lemma Bystander(g: Geometry, d: Disk, d': Disk, ch: seq<nat>, ch': seq<nat>, es: nat, en: nat, b: Handle)
    requires Live(g, d, b) && Clear(g, Table(g, d), ch, es, en, b) && Touched(g, d, d', ch, ch', es, en)
    ensures Live(g, d', b) && Content(g, d', b.f, b.ch, b.dir) == Content(g, d, b.f, b.ch, b.dir)
  {
    BystanderInv(g, d, d', ch, ch', es, en, b);
    InvReadable(g, d, b.f, b.ch, b.dir);
    InvReadable(g, d', b.f, b.ch, b.dir);
    hide Inv, Content, Clear, Touched, Table, SectorOf, Sectors;
    forall p | 0 <= p < Length(g, b.f, b.ch)
      ensures ByteAt(g, d, b.f, b.ch, p) == ByteAt(g, d', b.f, b.ch, p)
    {
      if b.f.sector != 0 { OtherBytes(g, d, d', ch, ch', es, en, b, p / 512); }
    }
    SameContent(g, d, b.f, b.ch, b.dir, d', b.f, b.ch, b.dir);
  }

  /** After its work a is still apart from b. */
  lemma ApartLater(g: Geometry, d: Disk, a: Handle, d': Disk, a': Handle, b: Handle)
    requires Worker(g, d, a, d', a') && Apart(g, d, a, b) && OpenOk(g, d, b)
    ensures Apart(g, d', a', b)
  {
    var (es, en) := SlotUsed(a, a');
    WorkerClear(g, d, a, d', a', b);
    ClustersInUse(g, d, b);
    hide OpenOk, Gained, OnlySlot, VolumeOk;
    ApartTables(g, Table(g, d), Table(g, d'), a, a', es, en, b);
  }

  lemma ApartTables(g: Geometry, t: seq<nat>, t': seq<nat>, a: Handle, a': Handle, es: nat, en: nat, b: Handle)
    requires g.limit <= |t| && Others(t, t', a.ch, a'.ch) && Independent(g, t, a, b) && Independent(g, t, b, a)
    requires Clear(g, t, a.ch, es, en, b) && (es != 0 ==> Quiet(g, t, a.ch, es))
    requires forall c :: c in b.ch ==> c < |t| && t[c] != 0
    requires b.f.entrySector == 0 ==> forall c :: c in b.dir ==> c < |t| && t[c] != 0
    requires b.f.entrySector != 0 ==> Quiet(g, t, b.ch, b.f.entrySector)
    requires a'.f.entrySector != 0 ==> es == a'.f.entrySector && en == a'.f.entryNumber
    requires a'.f.entrySector == 0 ==> a'.dir == [] || (a.f.entrySector == 0 && a'.dir == a.dir)
    ensures Independent(g, t', a', b) && Independent(g, t', b, a')
  {
  }

  /** Two other files are still apart. */
  lemma StillApart(g: Geometry, d: Disk, a: Handle, d': Disk, a': Handle, b: Handle, c: Handle)
    requires Worker(g, d, a, d', a') && Apart(g, d, a, b) && Apart(g, d, a, c) && Apart(g, d, b, c)
    requires OpenOk(g, d, b) && OpenOk(g, d, c)
    ensures Apart(g, d', b, c)
  {
    hide OpenOk, Gained, OnlySlot, Table;
    StillApartTables(g, Table(g, d), Table(g, d'), a, a', b, c);
    StillApartTables(g, Table(g, d), Table(g, d'), a, a', c, b);
  }

  lemma StillApartTables(g: Geometry, t: seq<nat>, t': seq<nat>, a: Handle, a': Handle, b: Handle, c: Handle)
    requires g.limit <= |t| && Others(t, t', a.ch, a'.ch)
    requires Independent(g, t, a, b) && Independent(g, t, a, c) && Independent(g, t, b, c)
    ensures Independent(g, t', b, c)
  {
  }

  // ---------------------------------------------------------------- files that are not open

  /** The record that opening slot (es, en) would give. */
  ghost function Reopened(g: Geometry, d: Disk, es: nat, en: nat): Desc
    requires ValidDisk(d) && es < |d| && en < 16 && g.spc > 0
  {
    var first := if SlotFirst(g, d[es], en) == 0 then g.rootCluster else SlotFirst(g, d[es], en);
    var sector := if first == 1 then g.rootStart else Wrap32(Wrap32(first * g.spc) + g.cluster0);
    Desc(Flags(true, true, false, false, false, false), if sector < |d| then d[sector] else seq(512, _ => 0),
         sector, first, if first == 1 then g.rootLen else g.spc - 1, 0, 0, SlotSize(d[es], en), first, es, en, 0,
         Meta(SlotName(d[es], en), SlotAttributes(d[es], en), [0, 0, 0, 0, 0], [0, 0], [0, 0, 0, 0]))
  }

  lemma ReopenedInv(g: Geometry, d: Disk, es: nat, en: nat, ch: seq<nat>, c: seq<byte>) returns (b: Handle)
    requires OnDisk(g, d, es, en, ch, c)
    ensures Live(g, d, b) && Content(g, d, b.f, b.ch, b.dir) == c && b.ch == ch
    ensures b.f.entrySector == es && b.f.entryNumber == en && !b.f.flags.dirty && !b.f.flags.fsDirty && b.f.sector != 0
    ensures es != 0
  {
    SectorSize(g, d, es);
    var f := Reopened(g, d, es, en);
    ReopenedAt(g, d, es, en);
    OpenedInv(g, d, es, en, ch, c, f, []);
    hide Inv, Content, Table, IsChain, DiskByte;
    b := Handle(f, ch, []);
    HeldSector(g, d, f, ch, []);
  }

  lemma ReopenedAt(g: Geometry, d: Disk, es: nat, en: nat)
    requires ValidDisk(d) && es < |d| && en < 16 && g.spc > 0
    ensures OpenedAt(g, d, es, en, Reopened(g, d, es, en))
  {
    hide SlotFirst, SlotSize, Wrap32;
  }

  lemma HeldSector(g: Geometry, d: Disk, f: Desc, ch: seq<nat>, dir: seq<nat>)
    requires Inv(g, d, f, ch, dir) && !f.flags.dirty && ch != []
    ensures f.sector != 0
  {
  }

  /**
   A file on disk stays on disk under work on other clusters and another slot: reading, writing and
   seeking, closing, truncating and deleting another file alike.
   */
  lemma ClosedFileKept(g: Geometry, d: Disk, d': Disk, ch: seq<nat>, ch': seq<nat>, es: nat, en: nat,
                       s: nat, n: nat, k: seq<nat>, c: seq<byte>)
    requires OnDisk(g, d, s, n, k, c) && Touched(g, d, d', ch, ch', es, en)
    requires Disjoint(ch, k) && Disjoint(k, ch) && Quiet(g, Table(g, d), ch, s)
    requires es != 0 ==> Quiet(g, Table(g, d), k, es) && (es != s || en != n)
    ensures OnDisk(g, d', s, n, k, c)
  {
    var b := ReopenedInv(g, d, s, n, k, c);
    hide OnDisk, Content, Touched, Quiet, Table;
    Bystander(g, d, d', ch, ch', es, en, b);
    SyncedNow(g, d', b);
    ClosedOnDisk(g, d', b.f, b.ch, b.dir);
  }

  lemma SyncedNow(g: Geometry, d: Disk, b: Handle)
    requires Live(g, d, b) && !b.f.flags.fsDirty && b.f.entrySector != 0 && b.f.sector != 0
    ensures Inv(g, d, b.f, b.ch, b.dir) && Synced(g, d, b.f) && !b.f.IsDir()
  {
  }
}
