/** A file as it stands on disk, with no descriptor open on it: closing, opening, truncating and deleting. */
module FileStore {
  import opened Bytes
  import opened Chains
  import opened Layout
  import opened Tracks
  import opened FileSpec
  import opened FileSteps
  import opened FileBytes
  import opened FileView

  /** Byte p of the chain ch on disk. */
  ghost function DiskByte(g: Geometry, d: Disk, ch: seq<nat>, p: nat): byte
    requires VolumeOk(g, d) && IsChain(Table(g, d), g.EndMarker(), g.limit, ch) && p < Sectors(g, ch) * 512
  {
    TrackSector(g, |d|, Table(g, d), ch, p / 512);
    d[SectorOf(g, ch, p / 512)][p % 512]
  }

  /** Slot (es, en) describes a regular file whose clusters are ch and whose bytes on disk are c. */
  ghost predicate OnDisk(g: Geometry, d: Disk, es: nat, en: nat, ch: seq<nat>, c: seq<byte>) {
    && VolumeOk(g, d) && 0 < es < |d| && en < 16 && Quiet(g, Table(g, d), ch, es)
    && IsChain(Table(g, d), g.EndMarker(), g.limit, ch) && g.rootCluster !in ch
    && SlotAttributes(d[es], en) / 0x10 % 2 == 0 && InUseMark(SlotName(d[es], en)[0])
    && SlotFirst(g, d[es], en) == ch[0] && SlotSize(d[es], en) == |c| < 0x8000_0000
    && |c| <= Sectors(g, ch) * 512
    && forall p :: 0 <= p < |c| ==> DiskByte(g, d, ch, p) == c[p]
  }

  // ---------------------------------------------------------------- closing

  /** What fat_flush_fileinfo needs when a clean file is closed. */
  lemma CloseReady(g: Geometry, d: Disk, f: Desc, ch: seq<nat>, dir: seq<nat>)
    requires Inv(g, d, f, ch, dir) && !f.IsDir() && !f.flags.dirty
    ensures f.first == 0 <==> f.sector == 0
    ensures f.sector == 0 ==> ch == []
    ensures f.first != 0 ==>
      && f.first != g.rootCluster && f.first < g.EntryMax() && f.size < 0x1_0000_0000
      && SlotFields(f) && 0 < f.sector < |d| && HasSlot(g, d, f, ch)
  {
    if f.sector != 0 {
      InvReadable(g, d, f, ch, dir);
      assert ch[0] in ch;
    }
  }

  /** Saving the entry before the file is closed. */
  lemma CloseSaved(g: Geometry, d: Disk, f: Desc, ch: seq<nat>, dir: seq<nat>, d': Disk, f': Desc)
    requires Inv(g, d, f, ch, dir) && !f.IsDir() && !f.flags.dirty && 0 < f.sector < |d| == |d'|
    requires f.entrySector != 0 && f' == f.Stored(d'[f.sector]) && Saved(g, d, d', f', ch)
    ensures Kept(g, d, f, ch, dir, d', f', ch, dir) && Synced(g, d', f')
  {
    ParkedSaved(g, d, d', f', f, ch);
    SaveKeeps(g, d, f, ch, dir, d');
  }

  /** What fat_flush_fileinfo needs when a resting reader is closed. */
  lemma RestReady(g: Geometry, d: Disk, f: Desc, ch: seq<nat>, dir: seq<nat>)
    requires Resting(g, d, f, ch) && Inv(g, d, View(g, f, ch), ch, dir)
    ensures f.first != 0 && f.first != g.rootCluster && f.first < g.EntryMax() && f.size < 0x1_0000_0000
    ensures SlotFields(f) && f.sector < |d| && VolumeOk(g, d) && HasSlot(g, d, f, ch) && f.entrySector != 0
  {
    hide Inv, View, HasSlot, Resting;
    RestFlags(g, d, f, ch);
    RestFacts(g, d, f, ch, dir);
    CloseReady(g, d, View(g, f, ch), ch, dir);
    SameFields(View(g, f, ch), f);
    SameSlot(g, d, View(g, f, ch), f, ch);
  }

  lemma SameSlot(g: Geometry, d: Disk, f: Desc, f': Desc, ch: seq<nat>)
    requires VolumeOk(g, d) && HasSlot(g, d, f, ch)
    requires f'.entrySector == f.entrySector && f'.entryNumber == f.entryNumber
    ensures HasSlot(g, d, f', ch) && f'.entrySector != 0
  {
  }

  /** Saving the entry of a resting reader leaves it at rest. */
  lemma RestSaved(g: Geometry, d0: Disk, v0: Desc, ch0: seq<nat>, dir: seq<nat>, d: Disk, f: Desc, ch: seq<nat>,
                  c: seq<byte>, d': Disk, f': Desc)
    requires Stands(g, d0, v0, ch0, dir, d, f, ch, c, f.Pos()) && Resting(g, d, f, ch) && f.sector < |d| == |d'|
    requires f' == f.Stored(d'[f.sector]) && Saved(g, d, d', f', ch) && f.entrySector != 0
    ensures Stands(g, d0, v0, ch0, dir, d', f', ch, c, f'.Pos())
  {
    hide Inv, Content, Worked, Saved, Kept, HasLast, SectorOf, ClusterOf, LeftAt, Sectors, BogusSector;
    var v := View(g, f, ch);
    StandsFacts(g, d0, v0, ch0, dir, d, f, ch, c, f.Pos());
    RestFacts(g, d, f, ch, dir);
    SectorBound(g, d, v, ch, dir);
    var v1 := v.Stored(d'[v.sector]);
    ParkedSaved(g, d, d', f', v1, ch);
    CloseSaved(g, d, v, ch, dir, d', v1);
    WorkedKept(g, d0, v0, ch0, dir, d, v, ch, c, f.Pos(), d', v1, ch);
    WorkedFacts(g, d0, v0, ch0, dir, d', v1, ch, c, v1.Pos());
    SavedSector(g, d, d', f', ch, f.sector);
    SpentKeeps(g, d', v1, ch, dir, d'[f.sector]);
    WorkedMoved(g, d0, v0, ch0, dir, d', v1, ch, c, v1.Pos(), v1.(buffer := d'[f.sector]));
    assert View(g, f', ch) == v1.(buffer := d'[f.sector]);
  }

  lemma SectorBound(g: Geometry, d: Disk, f: Desc, ch: seq<nat>, dir: seq<nat>)
    requires Inv(g, d, f, ch, dir) && f.sector != 0
    ensures 0 < f.sector < |d|
  {
    InvReadable(g, d, f, ch, dir);
  }

  lemma SavedSector(g: Geometry, d: Disk, d': Disk, f: Desc, ch: seq<nat>, s: nat)
    requires Saved(g, d, d', f, ch) && s < |d'|
    ensures |d'[s]| == 512
  {
  }

  /** A clean placed file whose entry is up to date is on disk. */
  lemma ClosedOnDisk(g: Geometry, d: Disk, f: Desc, ch: seq<nat>, dir: seq<nat>)
    requires Inv(g, d, f, ch, dir) && !f.IsDir() && !f.flags.dirty && f.sector != 0 && Synced(g, d, f)
    ensures OnDisk(g, d, f.entrySector, f.entryNumber, ch, Content(g, d, f, ch, dir))
  {
    var c := Content(g, d, f, ch, dir);
    InvReadable(g, d, f, ch, dir);
    assert ch[0] >= 2;
    forall p | 0 <= p < |c| ensures DiskByte(g, d, ch, p) == c[p] {
      ContentAt(g, d, f, ch, dir, p);
    }
  }

  // ---------------------------------------------------------------- opening

  /** The descriptor of a file that has just been opened through its slot. */
  ghost predicate OpenedAt(g: Geometry, d: Disk, es: nat, en: nat, f: Desc)
    requires ValidDisk(d) && es < |d| && en < 16 && g.spc > 0
  {
    var first := if SlotFirst(g, d[es], en) == 0 then g.rootCluster else SlotFirst(g, d[es], en);
    && !f.flags.dirty && !f.flags.fsDirty && f.size == SlotSize(d[es], en) && f.first == first
    && f.entrySector == es && f.entryNumber == en && f.fileSector == 0 && f.cursor == 0 && f.cluster == first
    && f.sector == (if first == 1 then g.rootStart else Wrap32(Wrap32(first * g.spc) + g.cluster0))
    && f.sectorsLeft == (if first == 1 then g.rootLen else g.spc - 1)
    && |f.buffer| == 512 && (f.sector < |d| ==> f.buffer == d[f.sector])
    && SlotFields(f) && f.meta.name == SlotName(d[es], en) && f.meta.attributes == SlotAttributes(d[es], en)
  }

  /** Opening a file that is on disk gives its bytes, positioned at the start. */
  lemma OpenedInv(g: Geometry, d: Disk, es: nat, en: nat, ch: seq<nat>, c: seq<byte>, f: Desc, dir: seq<nat>)
    requires OnDisk(g, d, es, en, ch, c) && OpenedAt(g, d, es, en, f)
    ensures f.sector < |d|
    ensures Inv(g, d, f, ch, dir) && !f.IsDir() && f.Pos() == 0 && Roomy(g, d, f, dir)
    ensures Content(g, d, f, ch, dir) == c
  {
    assert ch[0] >= 2;
    SelectedFirst(g, |d|, Table(g, d), ch);
    TrackSector(g, |d|, Table(g, d), ch, 0);
    OpenedPlaced(g, d, es, en, ch, c, f, dir);
    EntryKnown(g, d, f, ch, dir);
    InvReadable(g, d, f, ch, dir);
    var c' := Content(g, d, f, ch, dir);
    forall p | 0 <= p < |c| ensures c'[p] == c[p] {
      ContentAt(g, d, f, ch, dir, p);
      assert DiskByte(g, d, ch, p) == c[p];
    }
  }

  lemma OpenedPlaced(g: Geometry, d: Disk, es: nat, en: nat, ch: seq<nat>, c: seq<byte>, f: Desc, dir: seq<nat>)
    requires OnDisk(g, d, es, en, ch, c) && OpenedAt(g, d, es, en, f)
    ensures Inv(g, d, f, ch, dir) && !f.IsDir()
  {
    hide OpenedAt, OnDisk, VolumeOk, Placed, HasSlot, Titled, Synced, Table;
    OpenedOnTrack(g, d, es, en, ch, c, f);
    OpenedSlot(g, d, es, en, ch, c, f);
  }

  lemma OpenedOnTrack(g: Geometry, d: Disk, es: nat, en: nat, ch: seq<nat>, c: seq<byte>, f: Desc)
    requires OnDisk(g, d, es, en, ch, c) && OpenedAt(g, d, es, en, f)
    ensures VolumeOk(g, d) && Placed(g, d, f, ch) && f.sector != 0 && f.Pos() == 0 && !f.IsDir()
  {
    hide DiskByte, Quiet, SlotFirst, SlotSize, Table, SectorOf, ClusterOf, LeftAt, Wrap32;
    assert ch[0] >= 2;
    SelectedFirst(g, |d|, Table(g, d), ch);
    TrackSector(g, |d|, Table(g, d), ch, 0);
  }

  lemma OpenedSlot(g: Geometry, d: Disk, es: nat, en: nat, ch: seq<nat>, c: seq<byte>, f: Desc)
    requires OnDisk(g, d, es, en, ch, c) && OpenedAt(g, d, es, en, f)
    ensures VolumeOk(g, d) && HasSlot(g, d, f, ch) && SlotFields(f) && Titled(d, f) && Synced(g, d, f)
    ensures |f.buffer| == 512 && f.cursor == 0
  {
    hide DiskByte, Quiet, SlotFirst, SlotSize, Table, Sectors;
    assert ch[0] >= 2;
  }

  /**
   A slot with first cluster 0 is taken for the root directory. If it is that of a file, the record is
   no file's; the first byte written goes to the start of the root directory.
   */
  lemma ZeroClusterFile(g: Geometry, d: Disk, es: nat, en: nat, f: Desc, root: seq<nat>, b: byte)
    requires VolumeOk(g, d) && es < |d| && en < 16 && OpenedAt(g, d, es, en, f) && SlotFirst(g, d[es], en) == 0
    requires Track(g, Table(g, d), root) && root[0] == g.rootCluster
    ensures 0 < f.sector < |d| && f.sector == SectorOf(g, root, 0) && f.Pos() == 0 && f.buffer == d[f.sector]
    ensures var f' := BytePut(f, b); f'.sector == f.sector && f'.flags.dirty && f'.buffer == d[f.sector][0 := b]
    ensures !f.IsDir() ==> forall ch, dir :: !Inv(g, d, f, ch, dir)
  {
    hide SlotFirst, SlotSize, Table, SectorOf, ClusterOf, LeftAt, Wrap32, Sectors, Titled, Synced, HasSlot, Spent;
    SelectedFirst(g, |d|, Table(g, d), root);
    TrackSector(g, |d|, Table(g, d), root, 0);
  }

  /**
   Truncating or deleting such a file frees the clusters of the root directory: on FAT32 the whole chain, on FAT16
   entry 1, the number the driver gives the fixed root. Either way the volume has lost its root.
   */
  lemma ZeroClusterFreed(g: Geometry, d: Disk, es: nat, en: nat, f: Desc, root: seq<nat>)
    requires VolumeOk(g, d) && es < |d| && en < 16 && OpenedAt(g, d, es, en, f) && SlotFirst(g, d[es], en) == 0
    requires Track(g, Table(g, d), root) && root[0] == g.rootCluster && Walkable(Table(g, d), g.EndMarker())
    ensures f.first < g.Entries()
    ensures var t, t' := Table(g, d), FreeWalk(Table(g, d), g.EndMarker(), f.first);
      && t'[g.rootCluster] == 0
      && (g.fat32 ==> t' == Zeroed(t, root))
      && (!g.fat32 && t[1] >= g.EndMarker() ==> t' == t[1 := 0])
    ensures forall d' ::
      HasFat(g, d') && Table(g, d') == FreeWalk(Table(g, d), g.EndMarker(), f.first) ==> !VolumeOk(g, d')
  {
    hide SlotFirst, SlotSize, SlotName, SlotAttributes, Table, Wrap32, Walkable, HasFat;
    var t, m := Table(g, d), g.EndMarker();
    FreeWalkZeroes(t, m, f.first, g.rootCluster);
    if g.fat32 {
      FreeWalkOfChain(t, m, g.limit, root);
    }
  }

  /**
   An entry that a full fixed root lets run over its end is written over the file whose cluster begins there: the
   name of the one file becomes bytes of the other.
   */
  lemma OverrunHits(g: Geometry, d: Disk, d': Disk, f: Desc, ch: seq<nat>, i: nat, k: nat)
    requires VolumeOk(g, d) && VolumeOk(g, d') && SlotWritten(d, d', f) && k < 11
    requires IsChain(Table(g, d'), g.EndMarker(), g.limit, ch) && i < Sectors(g, ch)
    requires SectorOf(g, ch, i) == f.entrySector
    ensures DiskByte(g, d', ch, i * 512 + f.entryNumber * 32 + k) == f.meta.name[k]
  {
    hide Table, SectorOf, Sectors, VolumeOk, IsChain;
    var p := i * 512 + f.entryNumber * 32 + k;
    assert p / 512 == i && p % 512 == f.entryNumber * 32 + k;
    var reserved: byte :| d' == d[f.entrySector := WithSlot(d[f.entrySector], f, reserved)];
    SlotParts(f, reserved);
  }

  /** The record of a file that does not exist yet. */
  function NewRecord(name: seq<byte>, attributes: byte, mode: Flags, created: seq<byte>, parent: nat): Desc {
    Desc(mode, seq(512, _ => 0), 0, 0, 0, 0, 0, 0, 0, 0, 0, parent,
         Meta(name, attributes, created, [0, 0], [0, 0, 0, 0]))
  }

  /** A new file with room in its parent directory is well formed and empty. */
  lemma NewFileInv(g: Geometry, d: Disk, f: Desc, dir: seq<nat>)
    requires VolumeOk(g, d) && Track(g, Table(g, d), dir)
    requires f == NewRecord(f.meta.name, f.meta.attributes, f.flags, f.meta.created, dir[0])
    requires |f.meta.name| == 11 && |f.meta.created| == 5 && f.meta.attributes in {0x20, 0x21}
    requires InUseMark(f.meta.name[0]) && !f.flags.dirty && !f.flags.fsDirty
    ensures Inv(g, d, f, [], dir) && !f.IsDir() && Content(g, d, f, [], dir) == []
  {
    hide VolumeOk, Table, Track, RoomAt;
    assert Inv(g, d, f, [], dir);
    assert |Content(g, d, f, [], dir)| == 0;
  }

  // ---------------------------------------------------------------- freeing the clusters of a file

  /** Zeroing the entries of the file's chain keeps the volume and every entry of others. */
  lemma FreedVolume(g: Geometry, d: Disk, d': Disk, ch: seq<nat>, es: nat, en: nat)
    requires VolumeOk(g, d) && IsChain(Table(g, d), g.EndMarker(), g.limit, ch) && g.rootCluster !in ch
    requires HasFat(g, d') && |d'| == |d| && Table(g, d') == Zeroed(Table(g, d), ch)
    requires Quiet(g, Table(g, d), ch, es)
    ensures VolumeOk(g, d') && Quiet(g, Table(g, d'), [], es)
    ensures forall c :: 0 <= c < g.Entries() && c !in ch ==> Table(g, d')[c] == Table(g, d)[c]
  {
    ChainEntriesInUse(Table(g, d), g.EndMarker(), g.limit, ch);
  }

  /** The record names a chain of clusters and a slot outside it: a regular file, or a directory to be removed. */
  ghost predicate Deletable(g: Geometry, d: Disk, f: Desc, ch: seq<nat>) {
    && VolumeOk(g, d) && IsChain(Table(g, d), g.EndMarker(), g.limit, ch) && g.rootCluster !in ch
    && f.first == ch[0] && HasSlot(g, d, f, ch)
  }

  lemma RegularDeletable(g: Geometry, d: Disk, f: Desc, ch: seq<nat>, dir: seq<nat>)
    requires Inv(g, d, f, ch, dir) && !f.IsDir() && f.sector != 0
    ensures Deletable(g, d, f, ch) && SlotFields(f)
  {
  }

  /** Freeing the clusters of a file, with at most its slot rewritten, touches nothing of others. */
  lemma FreedTouched(g: Geometry, d: Disk, d': Disk, ch: seq<nat>, es: nat, en: nat)
    requires VolumeOk(g, d) && IsChain(Table(g, d), g.EndMarker(), g.limit, ch) && g.rootCluster !in ch
    requires HasFat(g, d') && |d'| == |d| && Table(g, d') == Zeroed(Table(g, d), ch)
    requires Quiet(g, Table(g, d), ch, es) && 0 < es < |d| && ValidDisk(d') && OnlySlot(d[es], d'[es], en)
    requires forall s :: 0 <= s < |d| && !g.InFat(s) && s != es ==> d'[s] == d[s]
    ensures Touched(g, d, d', ch, [], es, en)
  {
    hide Table, OnlySlot, IsChain;
    FreedVolume(g, d, d', ch, es, en);
    assert |Table(g, d)| == g.Entries();
  }

  /** What freeing the clusters of a file relies on. */
  lemma FreeStart(g: Geometry, d: Disk, f: Desc, ch: seq<nat>)
    requires Deletable(g, d, f, ch) && Walkable(Table(g, d), g.EndMarker())
    ensures VolumeOk(g, d) && IsChain(Table(g, d), g.EndMarker(), g.limit, ch) && g.rootCluster !in ch
    ensures f.first == ch[0] && 2 <= ch[0] < g.Entries() && 0 < f.entrySector < |d| && f.entryNumber < 16
    ensures Quiet(g, Table(g, d), ch, f.entrySector) && !g.InFat(f.entrySector) && |d[f.entrySector]| == 512
    ensures FreeWalk(Table(g, d), g.EndMarker(), ch[0]) == Zeroed(Table(g, d), ch)
  {
    FreeWalkOfChain(Table(g, d), g.EndMarker(), g.limit, ch);
  }

  /** A truncated file is an empty file without clusters, and its slot on disk is out of date. */
  lemma TruncateDone(g: Geometry, d: Disk, f: Desc, ch: seq<nat>, dir: seq<nat>, d': Disk, f': Desc)
    requires Inv(g, d, f, ch, dir) && !f.IsDir() && !f.flags.dirty && !f.flags.fsDirty && f.sector != 0 && f.cursor == 0
    requires f.flags.canWrite && HasFat(g, d') && |d'| == |d| && Table(g, d') == Zeroed(Table(g, d), ch)
    requires forall s :: 0 <= s < |d| && !g.InFat(s) ==> d'[s] == d[s]
    requires f' == f.(size := 0, first := 0, sector := 0, cluster := 0, sectorsLeft := 0, fileSector := 0,
                      meta := f'.meta, flags := f.flags.(fsDirty := true))
    requires f'.meta.attributes == f.meta.attributes && f'.meta.name == f.meta.name && SlotFields(f')
    ensures Inv(g, d', f', [], dir) && Content(g, d', f', [], dir) == []
    ensures f.entrySector < |d'| && f.entryNumber < 16 && VolumeOk(g, d')
    ensures SlotFirst(g, d'[f.entrySector], f.entryNumber) == ch[0] && !Synced(g, d', f')
  {
    hide VolumeOk, Table, Quiet, SlotFirst, SlotSize, Walkable;
    TruncatedSlot(g, d, f, ch, dir);
    FreedVolume(g, d, d', ch, f.entrySector, f.entryNumber);
  }

  lemma TruncatedSlot(g: Geometry, d: Disk, f: Desc, ch: seq<nat>, dir: seq<nat>)
    requires Inv(g, d, f, ch, dir) && !f.IsDir() && !f.flags.dirty && !f.flags.fsDirty && f.sector != 0
    ensures VolumeOk(g, d) && IsChain(Table(g, d), g.EndMarker(), g.limit, ch) && g.rootCluster !in ch
    ensures Quiet(g, Table(g, d), ch, f.entrySector) && !g.InFat(f.entrySector) && 0 < f.entrySector < |d|
    ensures f.entryNumber < 16 && SlotFirst(g, d[f.entrySector], f.entryNumber) == ch[0] && ch[0] >= 2
  {
  }

  lemma NoRoomTest(g: Geometry, d: Disk, f: Desc)
    requires VolumeOk(g, d)
    ensures NoRoom(g, d, f) <==> f.flags.dirty && f.sector == 0 && Full(Table(g, d))
  {
  }

  /** The record of a closed file with the open mode of f0: nothing is unsaved, but for a file without a cluster. */
  function Unclosed(f: Desc, f0: Desc): Desc {
    f.(flags := f0.flags.(dirty := false, fsDirty := f.sector == 0 && f0.flags.fsDirty))
  }

  /**
   What closing a file with content c leaves: the file has been worked on within its frame, and its
   bytes are on disk in its slot. A file that has no cluster leaves the disk as it was. An entry is
   made for a file without one exactly when it has a byte.
   */
  ghost predicate Closed(g: Geometry, d0: Disk, f0: Desc, ch0: seq<nat>, dir: seq<nat>, d: Disk, f: Desc, ch: seq<nat>,
      c: seq<byte>) {
    && Worked(g, d0, f0, ch0, dir, d, Unclosed(f, f0), ch, c, f.Pos())
    && f.flags == Flags(false, false, false, false, false, false)
    && (if f.sector == 0 then d == d0 && ch == [] && c == [] else OnDisk(g, d, f.entrySector, f.entryNumber, ch, c))
    && (f.entrySector != 0 <==> f0.entrySector != 0 || c != [])
  }

  /** Flushing unsaved data leaves the file on a cluster. */
  lemma CleanPlaced(g: Geometry, d0: Disk, f0: Desc, ch0: seq<nat>, d: Disk, f: Desc, ch: seq<nat>)
    requires if f0.sector == 0 then FirstPlaced(g, d0, d, f, ch) else f.sector != 0 && ch == ch0
    ensures f.sector != 0 && Needed(g, ch0, f.fileSector, ch)
  {
  }

  /** A file all of whose data and whose entry have been written is on disk. */
  lemma CloseDone(g: Geometry, d0: Disk, f0: Desc, ch0: seq<nat>, dir: seq<nat>, d: Disk, f: Desc, ch: seq<nat>,
      c: seq<byte>)
    requires Worked(g, d0, f0, ch0, dir, d, f, ch, c, f.Pos()) && !f.IsDir() && !f.flags.dirty
    requires if f.sector == 0 then d == d0 && f.flags == f0.flags else !f.flags.fsDirty
    ensures Closed(g, d0, f0, ch0, dir, d, f.(flags := Flags(false, false, false, false, false, false)), ch, c)
    ensures f0.entrySector != 0 ==> f.entrySector == f0.entrySector && f.entryNumber == f0.entryNumber
    ensures f0.entrySector != 0 && (f.sector == 0 ==> f == f0 && f0.sector == 0) ==>
      (Synced(g, d, f.(flags := Flags(false, false, false, false, false, false)))
       <==> f.sector != 0 || Synced(g, d0, f0))
  {
    hide Inv, Content, Frame, OnDisk, SlotStep;
    var f1 := f.(flags := Flags(false, false, false, false, false, false));
    assert Unclosed(f1, f0) == f;
    CloseSlot(g, d0, f0, ch0, dir, d, f, ch, c);
    if f.sector != 0 {
      CloseSynced(g, d, f, ch, dir);
      ClosedOnDisk(g, d, f, ch, dir);
    }
  }

  /** The same for a record that may be that of a resting reader. */
  lemma ShutView(g: Geometry, d0: Disk, f0: Desc, ch0: seq<nat>, dir: seq<nat>, d: Disk, f: Desc, ch: seq<nat>,
      c: seq<byte>)
    requires Stands(g, d0, View(g, f0, ch0), ch0, dir, d, f, ch, c, f.Pos()) && !f.IsDir() && !f.flags.dirty
    requires if f.first == 0 then d == d0 && f == f0 && ch == ch0 else !f.flags.fsDirty
    ensures var f1 := f.(flags := Flags(false, false, false, false, false, false));
      && Closed(g, d0, View(g, f0, ch0), ch0, dir, d, View(g, f1, ch), ch, c) && Shows(g, d, f1, ch)
      && (f.cluster != 0xFFFF_FFFF ==> View(g, f1, ch) == f1) && ValidDisk(d) && ValidDisk(d0)
      && (f0.entrySector != 0 ==> f.entrySector == f0.entrySector && f.entryNumber == f0.entryNumber)
      && (f0.entrySector != 0 ==> (Synced(g, d, f1) <==> f.first != 0 || Synced(g, d0, f0)))
  {
    hide Inv, Content, Worked, Closed, HasLast, BogusSector, Sectors, SectorOf, ClusterOf, LeftAt;
    var v := View(g, f, ch);
    StandsFacts(g, d0, View(g, f0, ch0), ch0, dir, d, f, ch, c, f.Pos());
    CloseReady(g, d, v, ch, dir);
    StartDisk(g, d0, View(g, f0, ch0), ch0, dir, d, v, ch, c, f.Pos());
    CloseDone(g, d0, View(g, f0, ch0), ch0, dir, d, v, ch, c);
    hide SlotFirst, SlotSize, SlotName, SlotAttributes;
  }

  lemma StartDisk(g: Geometry, d0: Disk, f0: Desc, ch0: seq<nat>, dir: seq<nat>, d: Disk, f: Desc, ch: seq<nat>,
      c: seq<byte>, pos: nat)
    requires Worked(g, d0, f0, ch0, dir, d, f, ch, c, pos)
    ensures ValidDisk(d0) && ValidDisk(d)
  {
  }

  lemma CloseSlot(g: Geometry, d0: Disk, f0: Desc, ch0: seq<nat>, dir: seq<nat>, d: Disk, f: Desc, ch: seq<nat>,
      c: seq<byte>)
    requires Worked(g, d0, f0, ch0, dir, d, f, ch, c, f.Pos()) && !f.IsDir() && !f.flags.dirty
    ensures f.entrySector != 0 <==> f0.entrySector != 0 || c != []
    ensures f.sector == 0 ==> ch == [] && c == []
    ensures f0.entrySector != 0 ==> f.entrySector == f0.entrySector && f.entryNumber == f0.entryNumber
  {
    hide Frame, Quiet, Table, VolumeOk, Synced, Titled;
    WorkedFacts(g, d0, f0, ch0, dir, d, f, ch, c, f.Pos());
  }

  lemma CloseSynced(g: Geometry, d: Disk, f: Desc, ch: seq<nat>, dir: seq<nat>)
    requires Inv(g, d, f, ch, dir) && !f.IsDir() && f.sector != 0 && !f.flags.fsDirty
    ensures Synced(g, d, f)
  {
  }
}
