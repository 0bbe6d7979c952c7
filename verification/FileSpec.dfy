/**
 What an open file means: the invariant that ties a descriptor to the disk, the byte sequence
 it stands for, and what an operation on it may change.
 */
module FileSpec {
  import opened Bytes
  import opened Chains
  import opened Layout
  import opened Tracks

  /** The bits of the flags field of a FileS record. */
  datatype Flags = Flags(isOpen: bool, canRead: bool, canWrite: bool, append: bool, dirty: bool, fsDirty: bool)

  /** What a directory entry stores verbatim; the dates are opaque bytes. */
  datatype Meta = Meta(name: seq<byte>, attributes: byte, created: seq<byte>, accessed: seq<byte>, modified: seq<byte>)

  /** The value of a FileS record. */
  datatype Desc = Desc(
    flags: Flags, buffer: seq<byte>,
    sector: nat, cluster: nat, sectorsLeft: nat, cursor: nat, fileSector: nat,
    size: nat, first: nat, entrySector: nat, entryNumber: nat, parent: nat, meta: Meta)
  {
    predicate IsDir() {
      meta.attributes / 0x10 % 2 == 1
    }

    /** The record after its buffer has been written back. */
    function Clean(): Desc {
      this.(flags := flags.(dirty := false))
    }

    /** The record after its directory entry has been saved and its buffer reloaded with b. */
    function Stored(b: seq<byte>): Desc {
      this.(flags := flags.(fsDirty := false), buffer := b)
    }

    function Pos(): nat {
      fileSector * 512 + cursor
    }
  }

  /** A directory has the bit 0x10 of the attributes. */
  lemma DirectoryBit(f: Desc)
    ensures f.IsDir() <==> (f.meta.attributes as bv8) & 0x10 != 0
  {
  }

  // ---------------------------------------------------------------- the volume

  /** Entries 0 and 1 are never free, nor is the root; every free entry names a cluster on the device. */
  ghost predicate VolumeOk(g: Geometry, d: Disk) {
    && HasFat(g, d) && g.Valid(|d|)
    && var t := Table(g, d);
      && t[0] != 0 && t[1] != 0 && t[g.rootCluster] != 0
      && forall c :: 0 <= c < |t| && t[c] == 0 ==> c < g.limit
  }

  lemma VolumeSpc(g: Geometry, d: Disk)
    requires VolumeOk(g, d)
    ensures 0 < g.spc <= 128
  {
  }

  lemma SectorSize(g: Geometry, d: Disk, s: nat)
    requires VolumeOk(g, d) && s < |d|
    ensures |d[s]| == 512 && g.spc > 0
  {
  }

  /** Sector s belongs neither to the FAT, nor to chain ch, nor to a free cluster. */
  ghost predicate Quiet(g: Geometry, t: seq<nat>, ch: seq<nat>, s: nat)
    requires g.limit <= |t|
  {
    !g.InFat(s) && forall c :: 2 <= c < g.limit && (t[c] == 0 || c in ch) ==> !g.Owns(c, s)
  }

  // ---------------------------------------------------------------- directory slots

  /** The first cluster named by the directory entry at offset o. */
  function FirstAt(g: Geometry, s: seq<byte>, o: nat): nat
    requires o + 32 <= |s|
  {
    Le16(s, o + 26) + if g.fat32 then 0x1_0000 * Le16(s, o + 20) else 0
  }

  function SlotFirst(g: Geometry, s: seq<byte>, n: nat): nat
    requires |s| == 512 && n < 16
  {
    FirstAt(g, s, n * 32)
  }

  function SlotName(s: seq<byte>, n: nat): seq<byte>
    requires |s| == 512 && n < 16
  {
    s[n * 32..n * 32 + 11]
  }

  function SlotAttributes(s: seq<byte>, n: nat): byte
    requires |s| == 512 && n < 16
  {
    s[n * 32 + 11]
  }

  function SlotSize(s: seq<byte>, n: nat): nat
    requires |s| == 512 && n < 16
  {
    Le32(s, n * 32 + 28)
  }

  /** The 32 bytes of the entry that describes f; the driver leaves the reserved byte unset. */
  function SlotOf(f: Desc, reserved: byte): seq<byte> {
    f.meta.name + [f.meta.attributes, reserved] + f.meta.created + f.meta.accessed + Bytes16(f.first / 0x1_0000)
    + f.meta.modified + Bytes16(f.first % 0x1_0000) + Bytes32(f.size)
  }

  ghost predicate SlotFields(f: Desc) {
    && |f.meta.name| == 11 && |f.meta.created| == 5 && |f.meta.accessed| == 2 && |f.meta.modified| == 4
  }

  /** The slot on disk has the file's name, attributes, first cluster and size. */
  ghost predicate Synced(g: Geometry, d: Disk, f: Desc)
    requires ValidDisk(d)
  {
    && f.entrySector < |d| && f.entryNumber < 16
    && SlotName(d[f.entrySector], f.entryNumber) == f.meta.name
    && SlotAttributes(d[f.entrySector], f.entryNumber) == f.meta.attributes
    && SlotFirst(g, d[f.entrySector], f.entryNumber) == f.first
    && SlotSize(d[f.entrySector], f.entryNumber) == f.size
  }

  lemma Pieces(n: seq<byte>, x: seq<byte>, hi: seq<byte>, m: seq<byte>, lo: seq<byte>, sz: seq<byte>)
    requires |n| == 11 && |x| == 9 && |hi| == 2 && |m| == 4 && |lo| == 2 && |sz| == 4
    ensures var b := n + x + hi + m + lo + sz;
      |b| == 32 && b[..11] == n && b[11] == x[0] && b[20..22] == hi && b[26..28] == lo && b[28..32] == sz
  {
  }

  lemma SlotParts(f: Desc, reserved: byte)
    requires SlotFields(f)
    ensures var b := SlotOf(f, reserved);
      && |b| == 32 && b[..11] == f.meta.name && b[11] == f.meta.attributes
      && b[20..22] == Bytes16(f.first / 0x1_0000)
      && b[26..28] == Bytes16(f.first % 0x1_0000)
      && b[28..32] == Bytes32(f.size)
  {
    var x := [f.meta.attributes, reserved] + f.meta.created + f.meta.accessed;
    var hi, lo, sz := Bytes16(f.first / 0x1_0000), Bytes16(f.first % 0x1_0000), Bytes32(f.size);
    hide Bytes16, Bytes32;
    Pieces(f.meta.name, x, hi, f.meta.modified, lo, sz);
    assert SlotOf(f, reserved) == f.meta.name + x + hi + f.meta.modified + lo + sz;
  }

  lemma FieldAfterPatch(s: seq<byte>, o: nat, b: seq<byte>, k: nat, n: nat)
    requires o + |b| <= |s| && k + n <= |b|
    ensures Patch(s, o, b)[o + k..o + k + n] == b[k..k + n]
  {
  }

  /** A saved slot decodes to the file's name, attributes, first cluster and size. */
  lemma SlotRoundTrip(g: Geometry, s: seq<byte>, f: Desc, reserved: byte)
    requires |s| == 512 && SlotFields(f) && f.entryNumber < 16
    requires f.first < g.EntryMax() && f.size < 0x1_0000_0000
    ensures |SlotOf(f, reserved)| == 32
    ensures var s' := Patch(s, f.entryNumber * 32, SlotOf(f, reserved));
      && SlotFirst(g, s', f.entryNumber) == f.first
      && SlotSize(s', f.entryNumber) == f.size
      && SlotName(s', f.entryNumber) == f.meta.name
      && SlotAttributes(s', f.entryNumber) == f.meta.attributes
  {
    SlotParts(f, reserved);
    var b, o := SlotOf(f, reserved), f.entryNumber * 32;
    var hi, lo, sz := Bytes16(f.first / 0x1_0000), Bytes16(f.first % 0x1_0000), Bytes32(f.size);
    FieldAfterPatch(s, o, b, 0, 11);
    assert Patch(s, o, b)[o + 11] == b[11];
    FieldAfterPatch(s, o, b, 20, 2);
    FieldAfterPatch(s, o, b, 26, 2);
    FieldAfterPatch(s, o, b, 28, 4);
    Le16Codec(f.first / 0x1_0000);
    Le16Codec(f.first % 0x1_0000);
    Le32Codec(f.size);
    var s' := Patch(s, o, b);
    hide SlotOf, Patch, Bytes16, Bytes32, Le16, Le32;
    Le16Slice(s', o + 20);
    Le16Slice(s', o + 26);
    Le32Slice(s', o + 28);
    assert Le16(s', o + 20) == f.first / 0x1_0000 && Le16(s', o + 26) == f.first % 0x1_0000;
  }

  lemma Le16Slice(s: seq<byte>, o: nat)
    requires o + 2 <= |s|
    ensures Le16(s, o) == Le16(s[o..o + 2], 0)
  {
  }

  lemma Le32Slice(s: seq<byte>, o: nat)
    requires o + 4 <= |s|
    ensures Le32(s, o) == Le32(s[o..o + 4], 0)
  {
  }

  // ---------------------------------------------------------------- the descriptor

  /** The descriptor stands on the i-th sector of the walk over ch. */
  ghost predicate At(g: Geometry, f: Desc, ch: seq<nat>, i: nat) {
    && g.spc > 0 && i < Sectors(g, ch)
    && f.sector == SectorOf(g, ch, i)
    && f.cluster == ClusterOf(g, ch, i)
    && f.sectorsLeft == LeftAt(g, ch, i)
  }

  /** The cursor has rolled off the last sector of the walk: the buffer is not used before it is reloaded. */
  ghost predicate Spent(g: Geometry, f: Desc, ch: seq<nat>) {
    f.cursor == 512 && f.fileSector + 1 == Sectors(g, ch)
  }

  /** A descriptor that has a sector: its position, and what a clean buffer holds. */
  ghost predicate Placed(g: Geometry, d: Disk, f: Desc, ch: seq<nat>)
    requires VolumeOk(g, d)
  {
    && Track(g, Table(g, d), ch)
    && At(g, f, ch, f.fileSector) && f.sector < |d|
    && f.first == ch[0]
    && (!f.flags.dirty ==> f.buffer == d[f.sector] || Spent(g, f, ch))
    && (!f.flags.canWrite ==> !f.flags.dirty)
    && (if f.IsDir() then f.flags.canWrite ==> IsChain(Table(g, d), g.EndMarker(), g.limit, ch)
        else RegularOk(g, d, f, ch))
  }

  ghost predicate RegularOk(g: Geometry, d: Disk, f: Desc, ch: seq<nat>)
    requires VolumeOk(g, d)
  {
    && IsChain(Table(g, d), g.EndMarker(), g.limit, ch)
    && f.Pos() <= f.size <= Sectors(g, ch) * 512
    && f.size < 0x8000_0000
    && g.rootCluster !in ch
  }

  /** A file without a cluster: everything written so far is in the buffer. */
  ghost predicate Unplaced(f: Desc, ch: seq<nat>) {
    && ch == [] && !f.IsDir() && (f.flags.dirty ==> f.flags.canWrite)
    && f.first == 0 && f.cluster == 0 && f.sectorsLeft == 0 && f.fileSector == 0
    && f.cursor <= f.size <= 512 && (f.flags.dirty <==> f.size > 0)
  }

  /** The file has a directory entry, safe from writes to its own data. */
  ghost predicate HasSlot(g: Geometry, d: Disk, f: Desc, ch: seq<nat>)
    requires VolumeOk(g, d)
  {
    && 0 < f.entrySector < |d| && f.entryNumber < 16
    && Quiet(g, Table(g, d), ch, f.entrySector)
  }

  ghost predicate EmptyAt(d: Disk, s: nat, n: nat)
    requires ValidDisk(d)
  {
    s < |d| && n < 16 && d[s][n * 32] == 0
  }

  /** How many sectors of the directory really belong to it. */
  ghost function DirSectors(g: Geometry, dir: seq<nat>): nat {
    if IsRoot(g, dir) then g.rootLen else Sectors(g, dir)
  }

  ghost predicate RoomAt(g: Geometry, d: Disk, dir: seq<nat>, i: nat, n: nat)
    requires VolumeOk(g, d)
  {
    && i < DirSectors(g, dir) && i < Sectors(g, dir) && SectorOf(g, dir, i) >= 0
    && EmptyAt(d, SectorOf(g, dir, i), n)
  }

  /** The first empty slot of a directory sector from slot n on, or 16. */
  function FirstEmpty(s: seq<byte>, n: nat): (k: nat)
    requires |s| == 512 && n <= 16
    ensures n <= k <= 16 && (k < 16 ==> s[k * 32] == 0)
    decreases 16 - n
  {
    if n == 16 || s[n * 32] == 0 then n else FirstEmpty(s, n + 1)
  }

  /** Slot n of sector s is an empty slot of the directory. */
  ghost predicate SlotFound(g: Geometry, d: Disk, dir: seq<nat>, s: nat, n: nat)
    requires VolumeOk(g, d)
  {
    exists i :: RoomAt(g, d, dir, i, n) && SectorOf(g, dir, i) == s
  }

  /** Slot n of the i-th sector of a walk is empty; the walk over the fixed root visits the sector behind it too. */
  ghost predicate EmptyOn(g: Geometry, d: Disk, dir: seq<nat>, i: nat, n: nat)
    requires VolumeOk(g, d)
  {
    i < Sectors(g, dir) && SectorOf(g, dir, i) >= 0 && EmptyAt(d, SectorOf(g, dir, i), n)
  }

  /** A walk over the directory meets an empty slot in its i-th sector or behind it, and none before. */
  ghost predicate RoomFrom(g: Geometry, d: Disk, dir: seq<nat>, i: nat)
    requires VolumeOk(g, d)
  {
    && (exists x, n :: EmptyOn(g, d, dir, x, n))
    && forall x, n :: EmptyOn(g, d, dir, x, n) ==> i <= x
  }

  /** The first empty slot that a walk over the directory meets is slot n of sector s. */
  ghost predicate SearchEnds(g: Geometry, d: Disk, dir: seq<nat>, s: nat, n: nat)
    requires VolumeOk(g, d)
  {
    exists i ::
      && EmptyOn(g, d, dir, i, n) && SectorOf(g, dir, i) == s
      && forall x, m :: EmptyOn(g, d, dir, x, m) ==> i < x || (i == x && n <= m)
  }

  /** The directory of a file that has no entry yet. */
  ghost predicate HasHome(g: Geometry, d: Disk, f: Desc, ch: seq<nat>, dir: seq<nat>)
    requires VolumeOk(g, d)
  {
    f.entrySector == 0 && Track(g, Table(g, d), dir) && Disjoint(dir, ch) && f.parent == dir[0]
  }

  /** The parent directory has an empty slot for a file that has no entry yet. */
  ghost predicate HasRoom(g: Geometry, d: Disk, f: Desc, ch: seq<nat>, dir: seq<nat>)
    requires VolumeOk(g, d)
  {
    HasHome(g, d, f, ch, dir) && f.flags.canWrite && exists i, n :: RoomAt(g, d, dir, i, n)
  }

  /** The fixed root has no empty slot, and the sector behind it, which the walk visits too, begins one. */
  ghost predicate RunsOver(g: Geometry, d: Disk, f: Desc, ch: seq<nat>, dir: seq<nat>)
    requires VolumeOk(g, d)
  {
    && HasHome(g, d, f, ch, dir) && f.flags.canWrite && IsRoot(g, dir)
    && !(exists i, n :: RoomAt(g, d, dir, i, n)) && exists n :: EmptyOn(g, d, dir, g.rootLen, n)
  }

  /** A file that may ask for a directory entry finds an empty slot. */
  ghost predicate Roomy(g: Geometry, d: Disk, f: Desc, dir: seq<nat>) {
    f.entrySector == 0 && f.flags.canWrite && !f.IsDir() ==> VolumeOk(g, d) && exists i, n :: RoomAt(g, d, dir, i, n)
  }

  /** The first byte of a name in use: it marks the entry neither as empty nor as deleted. */
  predicate InUseMark(b: byte) {
    b != 0 && b != 0xE5
  }

  /** The file has a name in use, which its slot bears from the start, with the attributes. */
  ghost predicate Titled(d: Disk, f: Desc)
    requires ValidDisk(d) && |f.meta.name| == 11
  {
    && InUseMark(f.meta.name[0])
    && (f.entrySector != 0 ==>
      && f.entrySector < |d| && f.entryNumber < 16
      && SlotName(d[f.entrySector], f.entryNumber) == f.meta.name
      && SlotAttributes(d[f.entrySector], f.entryNumber) == f.meta.attributes)
  }

  /** Everything an open descriptor keeps true between calls; one that is not open may have been closed without a
      cluster, and then its slot need not be right. */
  ghost predicate Inv(g: Geometry, d: Disk, f: Desc, ch: seq<nat>, dir: seq<nat>) {
    && VolumeOk(g, d)
    && |f.buffer| == 512 && f.cursor <= 512 && SlotFields(f)
    && (if f.sector == 0 then Unplaced(f, ch) && (HasSlot(g, d, f, ch) || HasHome(g, d, f, ch, dir))
        else Placed(g, d, f, ch) && (f.IsDir() || HasSlot(g, d, f, ch)))
    && (f.entrySector != 0 && !f.IsDir() && !f.flags.fsDirty ==>
      Synced(g, d, f) || (f.sector == 0 && !f.flags.isOpen))
    && (!f.IsDir() ==> Titled(d, f))
  }

  // ---------------------------------------------------------------- the bytes of the file

  /** The number of bytes a descriptor can be positioned on. */
  ghost function Capacity(g: Geometry, f: Desc, ch: seq<nat>): nat {
    if f.sector == 0 then 512 else Sectors(g, ch) * 512
  }

  ghost predicate Readable(g: Geometry, d: Disk, f: Desc, ch: seq<nat>) {
    && g.spc > 0 && |f.buffer| == 512 && ValidDisk(d)
    && (f.sector != 0 ==> forall i :: 0 <= i < Sectors(g, ch) ==> 0 <= SectorOf(g, ch, i) < |d|)
  }

  /** Byte p of the file: the chain's sectors on disk, with a dirty buffer laid over its sector. */
  ghost function ByteAt(g: Geometry, d: Disk, f: Desc, ch: seq<nat>, p: nat): byte
    requires Readable(g, d, f, ch) && p < Capacity(g, f, ch)
  {
    if f.sector == 0 || (f.flags.dirty && p / 512 == f.fileSector) then f.buffer[p % 512]
    else d[SectorOf(g, ch, p / 512)][p % 512]
  }

  ghost function Length(g: Geometry, f: Desc, ch: seq<nat>): nat {
    if f.IsDir() then Capacity(g, f, ch) else f.size
  }

  /** The first n bytes of the file. */
  ghost function Prefix(g: Geometry, d: Disk, f: Desc, ch: seq<nat>, n: nat): (b: seq<byte>)
    requires Readable(g, d, f, ch) && n <= Capacity(g, f, ch)
    ensures |b| == n
    ensures forall p :: 0 <= p < n ==> b[p] == ByteAt(g, d, f, ch, p)
  {
    if n == 0 then [] else Prefix(g, d, f, ch, n - 1) + [ByteAt(g, d, f, ch, n - 1)]
  }

  lemma InvReadable(g: Geometry, d: Disk, f: Desc, ch: seq<nat>, dir: seq<nat>)
    requires Inv(g, d, f, ch, dir)
    ensures Readable(g, d, f, ch) && Length(g, f, ch) <= Capacity(g, f, ch)
    ensures f.Pos() <= Capacity(g, f, ch) && f.Pos() <= Length(g, f, ch)
    ensures f.sector != 0 ==> 0 < f.sector < |d| && !g.InFat(f.sector) && f.fileSector < Sectors(g, ch)
  {
    if f.sector != 0 {
      forall i | 0 <= i < Sectors(g, ch) ensures 0 <= SectorOf(g, ch, i) < |d| {
        TrackSector(g, |d|, Table(g, d), ch, i);
      }
      TrackSector(g, |d|, Table(g, d), ch, f.fileSector);
    }
  }

  /** The byte sequence an open file stands for. */
  ghost function Content(g: Geometry, d: Disk, f: Desc, ch: seq<nat>, dir: seq<nat>): (b: seq<byte>)
    requires Inv(g, d, f, ch, dir)
    ensures |b| == Length(g, f, ch)
  {
    InvReadable(g, d, f, ch, dir);
    Prefix(g, d, f, ch, Length(g, f, ch))
  }

  // ---------------------------------------------------------------- what an operation may change

  /**
   From disk d to d' only the file with chain ch (now ch') and directory slot (es, en) has been
   worked on: entries in use outside ch keep their value and stay in use, free entries outside
   ch' stay free, new clusters were free, and outside the FAT only the file's own sectors,
   sectors of clusters that were free, and the 32 bytes of the slot differ.
   */
  ghost predicate Frame(g: Geometry, d: Disk, d': Disk, ch: seq<nat>, ch': seq<nat>, es: nat, en: nat) {
    && VolumeOk(g, d) && VolumeOk(g, d') && |d'| == |d|
    && Grew(Table(g, d), Table(g, d'), ch, ch')
    && (forall s :: 0 <= s < |d| && Quiet(g, Table(g, d), ch, s) && (s != es || es == 0) ==> d'[s] == d[s])
    && (0 < es < |d| && Quiet(g, Table(g, d), ch, es) ==> OnlySlot(d[es], d'[es], en))
  }

  /** The sectors differ at most in the 32 bytes of slot n. */
  ghost predicate OnlySlot(s: seq<byte>, s': seq<byte>, n: nat) {
    |s'| == |s| && forall k :: 0 <= k < |s| && !(n * 32 <= k < n * 32 + 32) ==> s'[k] == s[k]
  }

  /**
   What Frame says of everything that is not the file's: other entries in use keep their value, new
   clusters were free, and outside the FAT only the file's sectors, free ones and the slot differ.
   The clusters of the file itself may have been freed.
   */
  ghost predicate Touched(g: Geometry, d: Disk, d': Disk, ch: seq<nat>, ch': seq<nat>, es: nat, en: nat) {
    && VolumeOk(g, d) && VolumeOk(g, d') && |d'| == |d|
    && Others(Table(g, d), Table(g, d'), ch, ch')
    && (forall s :: 0 <= s < |d| && Quiet(g, Table(g, d), ch, s) && (s != es || es == 0) ==> d'[s] == d[s])
    && (0 < es < |d| && Quiet(g, Table(g, d), ch, es) ==> OnlySlot(d[es], d'[es], en))
  }

  ghost predicate Others(t: seq<nat>, t': seq<nat>, ch: seq<nat>, ch': seq<nat>) {
    && |t'| == |t|
    && (forall c :: 0 <= c < |t| && t[c] != 0 && c !in ch ==> t'[c] == t[c])
    && (forall c :: c in ch' ==> c in ch || (c < |t| && t[c] == 0))
  }

  /** The fields that position does not touch, except those a first save fills in. */
  ghost predicate SameFile(f: Desc, f': Desc) {
    && f'.flags == f.flags.(dirty := f'.flags.dirty, fsDirty := f'.flags.fsDirty)
    && f'.parent == f.parent
    && f'.meta == f.meta.(accessed := f'.meta.accessed, modified := f'.meta.modified)
    && (f.entrySector != 0 ==> f'.entrySector == f.entrySector && f'.entryNumber == f.entryNumber)
    && (f.sector != 0 ==> f'.first == f.first && f'.sector != 0)
  }

  /**
   How a regular file comes by its first cluster, with the first of its bytes, and by its directory
   entry: while it has none the disk does not change, and the slot it takes with its first cluster was
   an empty one of its parent directory.
   */
  ghost predicate SlotStep(g: Geometry, d: Disk, f: Desc, dir: seq<nat>, d': Disk, f': Desc) {
    !f.IsDir() ==>
      && f.size <= f'.size && (f.sector == 0 && f'.sector != 0 ==> f'.size > 0)
      && (f.entrySector == 0 && f'.entrySector == 0 ==> d' == d)
      && (f.entrySector == 0 && f'.entrySector != 0 ==>
        && f'.sector != 0 && VolumeOk(g, d)
        && SlotFound(g, d, dir, f'.entrySector, f'.entryNumber))
  }

  /** An operation that keeps the invariant and the content, and stays within its frame. */
  ghost predicate Kept(g: Geometry, d: Disk, f: Desc, ch: seq<nat>, dir: seq<nat>,
                       d': Disk, f': Desc, ch': seq<nat>, dir': seq<nat>) {
    && Inv(g, d, f, ch, dir) && Inv(g, d', f', ch', dir')
    && Content(g, d', f', ch', dir') == Content(g, d, f, ch, dir)
    && f'.size == f.size && SameFile(f, f') && dir' == dir && ch <= ch' && SlotStep(g, d, f, dir, d', f')
    && Frame(g, d, d', ch, ch', f'.entrySector, f'.entryNumber)
  }

  /** The file can get another cluster behind its last one. */
  ghost predicate CanGrow(g: Geometry, t: seq<nat>, f: Desc, ch: seq<nat>) {
    f.flags.canWrite && !IsRoot(g, ch) && !Full(t)
  }

  /** From d to d' exactly the slot of f has been rewritten, and it now describes f. */
  ghost predicate Saved(g: Geometry, d: Disk, d': Disk, f: Desc, ch: seq<nat>) {
    && VolumeOk(g, d) && VolumeOk(g, d') && |d'| == |d| && Table(g, d') == Table(g, d)
    && HasSlot(g, d, f, ch) && HasSlot(g, d', f, ch) && Synced(g, d', f) && SlotFields(f)
    && (exists reserved: byte :: d' == d[f.entrySector := WithSlot(d[f.entrySector], f, reserved)])
    && Frame(g, d, d', ch, ch, f.entrySector, f.entryNumber)
  }

  /** The 32 bytes of the entry of f have been written to its slot, and nothing else. */
  ghost predicate SlotWritten(d: Disk, d': Disk, f: Desc)
    requires ValidDisk(d)
  {
    && SlotFields(f) && f.entrySector < |d| && f.entryNumber < 16
    && exists reserved: byte :: d' == d[f.entrySector := WithSlot(d[f.entrySector], f, reserved)]
  }

  /** A directory sector with the entry of f stored in its slot. */
  function WithSlot(s: seq<byte>, f: Desc, reserved: byte): (s': seq<byte>)
    requires |s| == 512 && SlotFields(f) && f.entryNumber < 16
    ensures |s'| == 512
  {
    assert |SlotOf(f, reserved)| == 32;
    Patch(s, f.entryNumber * 32, SlotOf(f, reserved))
  }

  /** f with cluster c, and with the buffer its sector on disk would give it. */
  ghost function Parked(d: Disk, f: Desc, c: nat): Desc
    requires f.sector < |d|
  {
    f.(cluster := c, buffer := d[f.sector])
  }

  /** The least free cluster k has been linked behind chain ch. */
  ghost predicate Linked(g: Geometry, d: Disk, d': Disk, ch: seq<nat>, ch': seq<nat>) {
    && HasFat(g, d) && HasFat(g, d') && |ch| > 0 && |ch'| == |ch| + 1 && ch <= ch'
    && LeastFree(Table(g, d), ch'[|ch|]) && ch[|ch| - 1] < g.Entries()
    && Table(g, d') == Table(g, d)[ch'[|ch|] := g.NewEnd()][ch[|ch| - 1] := ch'[|ch|]]
  }

  /** The outcome of following or growing the chain of a parked file at its last cluster. */
  ghost predicate Grown(g: Geometry, d: Disk, f: Desc, ch: seq<nat>, dir: seq<nat>,
                        d': Disk, f': Desc, ch': seq<nat>, c: nat, r: int)
    requires f.sector < |d| == |d'| && f'.sector < |d'|
  {
    && Linked(g, d, d', ch, ch') && r == ch'[|ch|]
    && f' == f.Stored(d'[f.sector])
    && Kept(g, d, Parked(d, f, c), ch, dir, d', Parked(d', f', c), ch', dir)
  }

  /** A file without clusters has been given the least free cluster, and its buffer is on disk. */
  ghost predicate FirstPlaced(g: Geometry, d: Disk, d': Disk, f': Desc, ch': seq<nat>) {
    && HasFat(g, d) && HasFat(g, d')
    && !f'.flags.dirty && 0 < f'.sector < |d'| && f'.buffer == d'[f'.sector]
    && |ch'| == 1 && LeastFree(Table(g, d), ch'[0]) && Table(g, d') == Table(g, d)[ch'[0] := g.NewEnd()]
  }

  /** The cursor has rolled off the end of the chain and the file cannot grow. */
  ghost predicate Stuck(g: Geometry, d: Disk, f: Desc, ch: seq<nat>) {
    Spent(g, f, ch) && HasFat(g, d) && !CanGrow(g, Table(g, d), f, ch)
  }

  /** The buffer of f holds the FAT sector with the entry of its cluster. */
  ghost predicate FatShown(g: Geometry, d: Disk, f: Desc) {
    EntrySector(g, f.cluster) < |d| && f.buffer == d[EntrySector(g, f.cluster)]
  }

  /** The cursor has rolled off and there is no cluster to go on with. */
  ghost predicate Blocked(g: Geometry, d: Disk, f: Desc, ch: seq<nat>) {
    if f.flags.dirty then NoRoom(g, d, f) else f.sector != 0 && Stuck(g, d, f, ch)
  }

  /** A clean rolled-off file asked for its next sector: it fails only at the end of a chain that cannot grow,
      and only there does it touch the disk. */
  ghost predicate Crossed(g: Geometry, d: Disk, f: Desc, ch: seq<nat>, d': Disk, ch': seq<nat>, err: bool) {
    && (err <==> Stuck(g, d, f, ch))
    && (err || f.fileSector + 1 < Sectors(g, ch) ==> d' == d && ch' == ch)
  }

  /** Unsaved data has no cluster to go to. */
  ghost predicate NoRoom(g: Geometry, d: Disk, f: Desc) {
    f.flags.dirty && f.sector == 0 && HasFat(g, d) && Full(Table(g, d))
  }

  /** A chain grown from ch0 ends in a cluster the file has already reached: nothing is allocated ahead. */
  ghost predicate Needed(g: Geometry, ch0: seq<nat>, fileSector: nat, ch: seq<nat>) {
    ch == ch0 || (|ch| > 0 && (|ch| - 1) * g.spc <= fileSector)
  }
}
