/** Where ext2 keeps its inodes, and the storing and loading of one of them. */
module Ext2Inode {
  import opened Bytes
  import opened Division
  import opened Layout
  import opened Block

  /** sizeof(struct inode) */
  const INODE_BYTES := 128

  /** The part of struct ext2context that addresses inodes; groups is the number of block groups. */
  datatype Volume = Volume(
    partStart: nat,
    superblockBlock: nat,
    logBlockSize: nat,
    inodesPerGroup: nat,
    inodeSize: nat,
    groups: nat)
  {
    /** Sectors per block. */
    function Spb(): nat {
      Power(2, logBlockSize + 1)
    }

    predicate Shape() {
      inodesPerGroup > 0 && logBlockSize < 31 && (inodeSize == 128 || inodeSize == 256 || inodeSize == 512)
    }

    /** Inodes per sector. */
    function PerSector(): (n: nat)
      requires Shape()
      ensures n > 0
    {
      512 / inodeSize
    }

    /** Block b shifted left by s_log_block_size + 1: its sector relative to the partition. */
    function Shifted(b: nat): nat {
      b * Spb()
    }

    /** The sector of an inode table entry i lies in, and its offset there, as the program computes them. */
    function TableSector(i: nat): nat
      requires Shape()
    {
      i / PerSector()
    }

    function TableOffset(i: nat): nat
      requires Shape()
    {
      i % PerSector() * inodeSize
    }

    function Group(n: nat): nat
      requires n > 0 && inodesPerGroup > 0
    {
      (n - 1) / inodesPerGroup
    }

    function Index(n: nat): (i: nat)
      requires n > 0 && inodesPerGroup > 0
      ensures i < inodesPerGroup
    {
      (n - 1) % inodesPerGroup
    }

    /** n is the number of an inode of the volume. */
    predicate HasInode(n: nat) {
      n > 0 && inodesPerGroup > 0 && Group(n) < groups
    }

    /** The sector of an inode table that holds entry i, and the entry's offset in it. */
    function Row(i: nat): nat {
      if inodeSize == 128 then i / 4 else if inodeSize == 256 then i / 2 else i
    }

    function Column(i: nat): (o: nat)
      ensures o + INODE_BYTES <= 512
    {
      if inodeSize == 128 then i % 4 * 128 else if inodeSize == 256 then i % 2 * 256 else 0
    }

    /** The first sector of block b. */
    function BlockSector(b: nat): nat {
      Shifted(b) + partStart
    }

    /** Where the descriptor of block group b is in the descriptor table. */
    function DescriptorRow(b: nat): nat {
      b * 32 / 512
    }

    function DescriptorOffset(b: nat): (o: nat)
      ensures o + 32 <= 512
    {
      b * 32 % 512
    }

    /** The sector that holds the descriptor of block group b. */
    function DescriptorSector(b: nat): nat {
      BlockSector(superblockBlock + 1) + DescriptorRow(b)
    }

    ghost predicate HasDescriptor(d: Disk, b: nat) {
      ValidDisk(d) && DescriptorSector(b) < |d|
    }

    /** The first sector of the inode table of group b, as its descriptor says. */
    ghost function TableStart(d: Disk, b: nat): nat
      requires HasDescriptor(d, b)
    {
      BlockSector(Le32(d[DescriptorSector(b)], DescriptorOffset(b) + 8))
    }

    /** Entry i of the inode table of group b lies on the device, and on no descriptor. */
    ghost predicate EntryOk(d: Disk, b: nat, i: nat) {
      && HasDescriptor(d, b) && TableStart(d, b) + Row(i) < |d|
      && forall a :: 0 <= a < groups ==> DescriptorSector(a) != TableStart(d, b) + Row(i)
    }

    /** The inode tables of two groups have no sector in common. */
    ghost predicate TablesApart(d: Disk, a: nat, b: nat) {
      && HasDescriptor(d, a) && HasDescriptor(d, b)
      && forall i, j :: 0 <= i < inodesPerGroup && 0 <= j < inodesPerGroup ==>
           TableStart(d, a) + Row(i) != TableStart(d, b) + Row(j)
    }

    /**
     Descriptors and inode tables lie on the device; the tables overlap neither each other nor
     the descriptors.
     */
    ghost predicate Ok(d: Disk) {
      && ValidDisk(d) && |d| <= 0x1_0000_0000 && Shape()
      && (forall b :: 0 <= b < groups ==> HasDescriptor(d, b))
      && (forall b, i :: 0 <= b < groups && 0 <= i < inodesPerGroup ==> EntryOk(d, b, i))
      && (forall a, b :: 0 <= a < groups && 0 <= b < groups && a != b ==> TablesApart(d, a, b))
    }

    /** Where inode n is stored. */
    ghost function Sector(d: Disk, n: nat): (s: nat)
      requires Ok(d) && HasInode(n)
      ensures s < |d|
    {
      assert EntryOk(d, Group(n), Index(n));
      TableStart(d, Group(n)) + Row(Index(n))
    }

    function Offset(n: nat): (o: nat)
      requires n > 0 && inodesPerGroup > 0
      ensures o + INODE_BYTES <= 512
    {
      Column(Index(n))
    }

    /** The bytes stored for inode n. */
    ghost function Stored(d: Disk, n: nat): (s: seq<byte>)
      requires Ok(d) && HasInode(n)
      ensures |s| == INODE_BYTES
    {
      d[Sector(d, n)][Offset(n)..Offset(n) + INODE_BYTES]
    }

    /** The disk after inode n has been stored. */
    ghost function WithInode(d: Disk, n: nat, s: seq<byte>): (d': Disk)
      requires Ok(d) && HasInode(n) && |s| == INODE_BYTES
      ensures |d'| == |d| && ValidDisk(d')
    {
      d[Sector(d, n) := Patch(d[Sector(d, n)], Offset(n), s)]
    }
  }

  // ---------------------------------------------------------------- addressing

  /** Two entries of one table that share a sector do not share a byte. */
  lemma EntriesApart(v: Volume, i: nat, j: nat)
    requires v.Shape() && i != j && v.Row(i) == v.Row(j)
    ensures v.Column(i) + INODE_BYTES <= v.Column(j) || v.Column(j) + INODE_BYTES <= v.Column(i)
  {
  }

  /** Group and index determine the inode number. */
  lemma SameNumber(v: Volume, n: nat, k: nat)
    requires n > 0 && k > 0 && v.inodesPerGroup > 0 && v.Group(n) == v.Group(k) && v.Index(n) == v.Index(k)
    ensures n == k
  {
    var g := v.inodesPerGroup;
    assert n - 1 == v.Group(n) * g + v.Index(n) && k - 1 == v.Group(k) * g + v.Index(k);
  }

  /** Inodes are numbered from 1, group by group: the number is determined by group and index, and determines them. */
  lemma NumberSplit(v: Volume, n: nat)
    requires n > 0 && v.inodesPerGroup > 0
    ensures n == v.Group(n) * v.inodesPerGroup + v.Index(n) + 1 && v.Index(n) < v.inodesPerGroup
  {
  }

  lemma NumberJoin(v: Volume, b: nat, i: nat)
    requires i < v.inodesPerGroup
    ensures b * v.inodesPerGroup + i + 1 > 0
    ensures v.Group(b * v.inodesPerGroup + i + 1) == b && v.Index(b * v.inodesPerGroup + i + 1) == i
  {
    ProductMonotone(0, b, v.inodesPerGroup);
    QuotRemUnique(b, i, v.inodesPerGroup);
  }

  lemma GroupsApart(v: Volume, d: Disk, n: nat, k: nat)
    requires v.Ok(d) && v.HasInode(n) && v.HasInode(k) && v.Group(n) != v.Group(k)
    ensures v.Sector(d, n) != v.Sector(d, k)
  {
    hide Volume.Group, Volume.Index, Volume.TableStart, Volume.Row;
    assert v.TablesApart(d, v.Group(n), v.Group(k));
  }

  /** Different inodes have different places. */
  lemma PlacesApart(v: Volume, d: Disk, n: nat, k: nat)
    requires v.Ok(d) && v.HasInode(n) && v.HasInode(k) && n != k && v.Sector(d, n) == v.Sector(d, k)
    ensures v.Offset(n) + INODE_BYTES <= v.Offset(k) || v.Offset(k) + INODE_BYTES <= v.Offset(n)
  {
    hide Volume.Group, Volume.Index, Volume.TableStart, Volume.Row, Volume.Column;
    if v.Group(n) != v.Group(k) { GroupsApart(v, d, n, k); }
    if v.Index(n) == v.Index(k) { SameNumber(v, n, k); }
    EntriesApart(v, v.Index(n), v.Index(k));
  }

  /** No descriptor lies in the sector of an inode. */
  lemma DescriptorKept(v: Volume, d: Disk, n: nat, s: seq<byte>, b: nat)
    requires v.Ok(d) && v.HasInode(n) && |s| == INODE_BYTES && b < v.groups
    ensures var d' := v.WithInode(d, n, s); v.HasDescriptor(d', b) && v.TableStart(d', b) == v.TableStart(d, b)
  {
    assert v.EntryOk(d, v.Group(n), v.Index(n)) && v.HasDescriptor(d, b);
    var d' := v.WithInode(d, n, s);
    assert v.Sector(d, n) != v.DescriptorSector(b);
    assert d'[v.DescriptorSector(b)] == d[v.DescriptorSector(b)];
    hide Volume.DescriptorSector, Volume.BlockSector, Volume.WithInode, Volume.Ok;
  }

  /** Storing an inode leaves every descriptor and every address alone. */
  lemma StoreKeepsLayout(v: Volume, d: Disk, n: nat, s: seq<byte>)
    requires v.Ok(d) && v.HasInode(n) && |s| == INODE_BYTES
    ensures v.Ok(v.WithInode(d, n, s))
    ensures forall k :: v.HasInode(k) ==> v.Sector(v.WithInode(d, n, s), k) == v.Sector(d, k)
  {
    var d' := v.WithInode(d, n, s);
    forall b | 0 <= b < v.groups ensures v.HasDescriptor(d', b) && v.TableStart(d', b) == v.TableStart(d, b) {
      DescriptorKept(v, d, n, s, b);
    }
    hide Volume.WithInode, Volume.Group, Volume.Index, Volume.Row, Volume.TableStart, Volume.HasDescriptor;
    forall b, i | 0 <= b < v.groups && 0 <= i < v.inodesPerGroup ensures v.EntryOk(d', b, i) {
      assert v.EntryOk(d, b, i);
    }
    forall a, b | 0 <= a < v.groups && 0 <= b < v.groups && a != b ensures v.TablesApart(d', a, b) {
      assert v.TablesApart(d, a, b);
    }
    hide Volume.EntryOk, Volume.TablesApart, Volume.DescriptorSector;
  }

  /** What has been stored is loaded again, and every other inode loads as before. */
  lemma StoreThenLoad(v: Volume, d: Disk, n: nat, s: seq<byte>)
    requires v.Ok(d) && v.HasInode(n) && |s| == INODE_BYTES
    ensures v.Ok(v.WithInode(d, n, s))
    ensures v.Stored(v.WithInode(d, n, s), n) == s
    ensures forall k :: v.HasInode(k) && k != n ==> v.Stored(v.WithInode(d, n, s), k) == v.Stored(d, k)
  {
    var d' := v.WithInode(d, n, s);
    StoreKeepsLayout(v, d, n, s);
    hide Volume.Ok, Volume.Sector, Volume.Offset;
    forall k | v.HasInode(k) && k != n ensures v.Stored(d', k) == v.Stored(d, k) {
      if v.Sector(d, n) == v.Sector(d, k) { PlacesApart(v, d, n, k); }
    }
  }

  /** Storing what is there changes nothing. */
  lemma LoadThenStore(v: Volume, d: Disk, n: nat)
    requires v.Ok(d) && v.HasInode(n)
    ensures v.WithInode(d, n, v.Stored(d, n)) == d
  {
    assert |d[v.Sector(d, n)]| == 512;
    hide Volume.Ok, Volume.Sector, Volume.Offset;
    PatchSame(d[v.Sector(d, n)], v.Offset(n), INODE_BYTES);
  }

  lemma PatchSame(s: seq<byte>, o: nat, n: nat)
    requires o + n <= |s|
    ensures Patch(s, o, s[o..o + n]) == s
  {
  }

  // ---------------------------------------------------------------- inodes in the bytes of the device

  /** The n bytes of the device from byte p on. */
  function DeviceBytes(d: Disk, p: nat, n: nat): (b: seq<byte>)
    requires ValidDisk(d) && p + n <= 512 * |d|
    ensures |b| == n && forall k :: 0 <= k < n ==> b[k] == d[(p + k) / 512][(p + k) % 512]
  {
    seq(n, k requires 0 <= k < n => d[(p + k) / 512][(p + k) % 512])
  }

  /** The bytes in a block. */
  function BlockBytes(v: Volume): nat {
    1024 * Power(2, v.logBlockSize)
  }

  /** Where block b begins. */
  function BlockStart(v: Volume, b: nat): nat {
    512 * v.partStart + b * BlockBytes(v)
  }

  /** Where the descriptor of group b begins: they stand one after the other in the block behind the superblock's. */
  function DescriptorStart(v: Volume, b: nat): nat {
    BlockStart(v, v.superblockBlock + 1) + 32 * b
  }

  lemma BlockAt(v: Volume, b: nat)
    ensures 512 * v.BlockSector(b) == BlockStart(v, b)
  {
    assert Power(2, v.logBlockSize + 1) == 2 * Power(2, v.logBlockSize);
    assert v.Spb() * 512 == BlockBytes(v);
    var x, y := v.Spb(), BlockBytes(v);
    assert 512 * (b * x) == b * (512 * x);
  }

  lemma SectorBytes(d: Disk, s: nat, o: nat, n: nat)
    requires ValidDisk(d) && s < |d| && o + n <= 512
    ensures 512 * s + o + n <= 512 * |d| && DeviceBytes(d, 512 * s + o, n) == d[s][o..o + n]
  {
    var p := 512 * s + o;
    forall k | 0 <= k < n ensures DeviceBytes(d, p, n)[k] == d[s][o + k] {
      assert (p + k) / 512 == s && (p + k) % 512 == o + k;
    }
  }

  /** The block number of a group's inode table is the third number of the group's descriptor. */
  lemma TableBlock(v: Volume, d: Disk, b: nat, t: nat)
    requires v.Ok(d) && b < v.groups && v.HasDescriptor(d, b)
    requires t == Le32(d[v.DescriptorSector(b)], v.DescriptorOffset(b) + 8)
    ensures v.TableStart(d, b) == v.BlockSector(t) && DescriptorStart(v, b) + 12 <= 512 * |d|
    ensures t == Value(DeviceBytes(d, DescriptorStart(v, b) + 8, 4))
  {
    hide Value, Le32, DeviceBytes, DescriptorStart;
    var s, o := v.DescriptorSector(b), v.DescriptorOffset(b);
    DescriptorAt(v, b);
    assert v.DescriptorSector(b) < |d| && |d[s]| == 512;
    hide Volume.DescriptorSector, Volume.DescriptorOffset;
    SectorBytes(d, s, o + 8, 4);
    Le32Value(d[s], o + 8, 0);
  }

  lemma DescriptorAt(v: Volume, b: nat)
    ensures DescriptorStart(v, b) == 512 * v.DescriptorSector(b) + v.DescriptorOffset(b)
  {
    BlockAt(v, v.superblockBlock + 1);
    hide BlockStart, Volume.BlockSector;
  }

  /** Inode n is entry Index(n) of the table of group Group(n), whose entries are inodeSize bytes apart. */
  lemma InodeBytes(v: Volume, d: Disk, n: nat, t: nat)
    requires v.Ok(d) && v.HasInode(n) && v.HasDescriptor(d, v.Group(n))
    requires v.TableStart(d, v.Group(n)) == v.BlockSector(t)
    ensures var p := BlockStart(v, t) + v.Index(n) * v.inodeSize;
      p + INODE_BYTES <= 512 * |d| && v.Stored(d, n) == DeviceBytes(d, p, INODE_BYTES)
  {
    assert v.EntryOk(d, v.Group(n), v.Index(n));
    BlockAt(v, t);
    RowBytes(v, v.Index(n));
    hide Volume.BlockSector, Volume.Row, Volume.Column, Volume.Group, Volume.Index, Volume.TableStart, BlockStart,
      DeviceBytes;
    SectorBytes(d, v.Sector(d, n), v.Offset(n), INODE_BYTES);
  }

  /** Where inode i of group b is, and the bytes that are there. */
  ghost function InodeOf(v: Volume, d: Disk, b: nat, i: nat): (s: seq<byte>)
    requires v.Ok(d) && b < v.groups && i < v.inodesPerGroup
    ensures |s| == INODE_BYTES
  {
    DescriptorSpan(v, d, b);
    var table := Value(DeviceBytes(d, DescriptorStart(v, b) + 8, 4));
    InodeSpan(v, d, b, i, table);
    DeviceBytes(d, BlockStart(v, table) + i * v.inodeSize, INODE_BYTES)
  }

  lemma DescriptorSpan(v: Volume, d: Disk, b: nat)
    requires v.Ok(d) && b < v.groups
    ensures ValidDisk(d) && v.HasDescriptor(d, b) && DescriptorStart(v, b) + 12 <= 512 * |d|
  {
    assert v.HasDescriptor(d, b);
    TableBlock(v, d, b, Le32(d[v.DescriptorSector(b)], v.DescriptorOffset(b) + 8));
  }

  lemma InodeSpan(v: Volume, d: Disk, b: nat, i: nat, table: nat)
    requires v.Ok(d) && b < v.groups && i < v.inodesPerGroup && DescriptorStart(v, b) + 12 <= 512 * |d|
    requires table == Value(DeviceBytes(d, DescriptorStart(v, b) + 8, 4))
    ensures BlockStart(v, table) + i * v.inodeSize + INODE_BYTES <= 512 * |d|
    ensures var n := b * v.inodesPerGroup + i + 1;
      && n > 0 && v.HasInode(n)
      && v.Stored(d, n) == DeviceBytes(d, BlockStart(v, table) + i * v.inodeSize, INODE_BYTES)
  {
    NumberJoin(v, b, i);
    assert v.HasDescriptor(d, b);
    hide Volume.Ok, Volume.Group, Volume.Index, DeviceBytes, DescriptorStart, BlockStart, Value, Le32,
      Volume.BlockSector, Volume.DescriptorSector, Volume.DescriptorOffset;
    SameBlock(v, d, b);
    TableBlock(v, d, b, Le32(d[v.DescriptorSector(b)], v.DescriptorOffset(b) + 8));
    InodeBytes(v, d, b * v.inodesPerGroup + i + 1, table);
  }

  lemma SameBlock(v: Volume, d: Disk, b: nat)
    requires v.HasDescriptor(d, b)
    ensures v.DescriptorSector(b) < |d| && v.DescriptorOffset(b) + 12 <= |d[v.DescriptorSector(b)]|
  {
  }

  /** The bytes stored for inode n are those of its group and index. */
  lemma StoredOnDevice(v: Volume, d: Disk, n: nat)
    requires v.Ok(d) && v.HasInode(n)
    ensures forall b: nat, i: nat ::
      b < v.groups && i < v.inodesPerGroup && n == b * v.inodesPerGroup + i + 1 ==>
        v.Stored(d, n) == InodeOf(v, d, b, i)
  {
    hide Volume.Ok, Volume.Stored, Volume.HasInode, DeviceBytes, DescriptorStart, BlockStart, Value;
    forall b: nat, i: nat | b < v.groups && i < v.inodesPerGroup && n == b * v.inodesPerGroup + i + 1
      ensures v.Stored(d, n) == InodeOf(v, d, b, i)
    {
      DescriptorSpan(v, d, b);
      InodeSpan(v, d, b, i, Value(DeviceBytes(d, DescriptorStart(v, b) + 8, 4)));
    }
  }

  /** The fields of an inode in front of its block numbers, in their order. */
  function InodeHead(mode: nat, uid: nat, size: nat, atime: nat, ctime: nat, mtime: nat, dtime: nat, gid: nat,
                     links: nat, blocks: nat, flags: nat, osd1: nat): (h: seq<byte>)
    ensures |h| == 40
  {
    Digits(mode, 2) + Digits(uid, 2) + Digits(size, 4) + Digits(atime, 4) + Digits(ctime, 4) + Digits(mtime, 4)
    + Digits(dtime, 4) + Digits(gid, 2) + Digits(links, 2) + Digits(blocks, 4) + Digits(flags, 4) + Digits(osd1, 4)
  }

  /** The first block number of an inode is where the program looks for it. */
  lemma FirstBlock(mode: nat, uid: nat, size: nat, atime: nat, ctime: nat, mtime: nat, dtime: nat, gid: nat,
                   links: nat, blocks: nat, flags: nat, osd1: nat, block0: nat, rest: seq<byte>)
    requires block0 < 0x1_0000_0000
    ensures var head := InodeHead(mode, uid, size, atime, ctime, mtime, dtime, gid, links, blocks, flags, osd1);
      Le32(head + Digits(block0, 4) + rest, 40) == block0
  {
    hide Digits, Le32, InodeHead;
    var head := InodeHead(mode, uid, size, atime, ctime, mtime, dtime, gid, links, blocks, flags, osd1);
    MiddlePart(head, Digits(block0, 4), rest);
    Le32Value(head + Digits(block0, 4) + rest, 40, 0);
    DigitsValue(block0);
  }

  lemma MiddlePart(head: seq<byte>, x: seq<byte>, rest: seq<byte>)
    ensures (head + x + rest)[|head|..|head| + |x|] == x
  {
  }

  lemma RowBytes(v: Volume, i: nat)
    requires v.Shape()
    ensures i * v.inodeSize == 512 * v.Row(i) + v.Column(i)
  {
  }

  // ---------------------------------------------------------------- the 32-bit computation

  /** What the program computes for the sector of a descriptor. */
  lemma DescriptorAddress(v: Volume, d: Disk, b: nat)
    requires v.Ok(d) && b < v.groups
    ensures Wrap32(Wrap32(Wrap32(v.Shifted(Wrap32(v.superblockBlock + 1))) + v.DescriptorRow(b)) + v.partStart)
         == v.DescriptorSector(b)

  {
    assert v.HasDescriptor(d, b);
    Factor(v.superblockBlock + 1, v.Spb());
    Exact(v.Shifted(v.superblockBlock + 1), v.DescriptorRow(b), v.partStart);
    hide Wrap32;
    WrapSmall(v.superblockBlock + 1);
  }

  /** What the program computes for the sector of an inode; t is the first block of its table. */
  lemma InodeAddress(v: Volume, d: Disk, n: nat, t: nat)
    requires v.Ok(d) && v.HasInode(n) && v.HasDescriptor(d, v.Group(n))
    requires t == Le32(d[v.DescriptorSector(v.Group(n))], v.DescriptorOffset(v.Group(n)) + 8)
    ensures Wrap32(Wrap32(Wrap32(v.Shifted(t)) + v.TableSector(v.Index(n))) + v.partStart) == v.Sector(d, n)
    ensures v.TableOffset(v.Index(n)) == v.Offset(n)
  {
    var i := v.Index(n);
    RowColumn(v, i);
    assert v.EntryOk(d, v.Group(n), i);
    hide Volume.Group, Volume.Index, Volume.TableSector, Volume.TableOffset, Volume.Row, Volume.Column, Wrap32, Le32,
      Volume.Shifted, Volume.DescriptorSector, Volume.DescriptorOffset;
    Exact(v.Shifted(t), v.Row(i), v.partStart);
  }

  lemma RowColumn(v: Volume, i: nat)
    requires v.Shape()
    ensures v.TableSector(i) == v.Row(i) && v.TableOffset(i) == v.Column(i)
  {
  }

  lemma Factor(x: nat, p: nat)
    requires p > 0
    ensures x <= x * p
  {
  }

  /** Steps of a sum that stays below 2^32 do not wrap. */
  lemma Exact(x: nat, y: nat, z: nat)
    requires x + y + z < 0x1_0000_0000
    ensures Wrap32(Wrap32(Wrap32(x) + y) + z) == x + y + z
  {
  }

  // ---------------------------------------------------------------- the file entry

  /** The flags of a file_ent. */
  datatype Flags = Flags(read: bool, write: bool, dirty: bool, fsDirty: bool)

  class FileEnt {
    const v: Volume
    const dev: Device
    const sysbuf: array<byte>   // of the context
    const buffer: array<byte>
    var flags: Flags
    var inodeNumber: nat
    var inode: seq<byte>
    var sector: nat
    var fileSector: nat
    var sectorsLeft: nat
    var cursor: nat

    constructor (v: Volume, dev: Device, sysbuf: array<byte>)
      ensures this.v == v && this.dev == dev && this.sysbuf == sysbuf && fresh(buffer) && buffer.Length == 512
    {
      this.v, this.dev, this.sysbuf := v, dev, sysbuf;
      buffer := new byte[512];
      flags := Flags(false, false, false, false);
      inode := [];
      inodeNumber, sector, fileSector, sectorsLeft, cursor := 0, 0, 0, 0, 0;
    }

    ghost predicate Ready()
      reads dev
    {
      sysbuf.Length == 512 && buffer.Length == 512 && sysbuf != buffer && dev.Valid() && v.Ok(dev.disk)
    }

    /** Sector s holds neither descriptors nor inodes. */
    ghost predicate Data(s: nat)
      requires Ready()
      reads dev
    {
      && (forall b :: 0 <= b < v.groups ==> v.DescriptorSector(b) != s)
      && (forall k :: v.HasInode(k) ==> v.Sector(dev.disk, k) != s)
    }

    /** Writes a dirty buffer to its sector. */
    method Flush() returns (err: bool)
      requires dev.Valid() && buffer.Length == 512
      modifies this`flags, dev
      ensures dev.Valid()
      ensures err <==> old(flags.dirty) && sector != 0 && sector >= |old(dev.disk)|
      ensures if old(flags.dirty) && 0 < sector < |old(dev.disk)|
              then flags == old(flags).(dirty := false) && dev.disk == old(dev.disk)[sector := buffer[..]]
              else flags == old(flags) && dev.disk == old(dev.disk)
    {
      err := false;
      if flags.dirty {
        if sector != 0 {
          err := dev.BlockWrite(sector, buffer);
          if err {
            return;
          }
          flags := flags.(dirty := false);
        }
      }
    }

    /** Loads the descriptor of the group of inode n and computes where the inode is. */
    method Locate(n: nat) returns (s: nat, o: nat)
      requires Ready() && v.HasInode(n)
      modifies sysbuf
      ensures s == v.Sector(dev.disk, n) && o == v.Offset(n)
    {
      LocateFacts(v, dev.disk, n);
      var blockGroup := v.Group(n);
      var inodeIndex := v.Index(n);
      hide Wrap32, Le32, Volume.Ok, Volume.Group, Volume.Index, Volume.TableSector, Volume.TableOffset,
        Volume.Shifted, Volume.DescriptorSector, Volume.DescriptorRow, Volume.DescriptorOffset;
      DescriptorAddress(v, dev.disk, blockGroup);
      var bgBlock := Wrap32(v.Shifted(Wrap32(v.superblockBlock + 1)));
      bgBlock := Wrap32(bgBlock + v.DescriptorRow(blockGroup));
      var _ := dev.BlockRead(Wrap32(bgBlock + v.partStart), sysbuf);
      InodeAddress(v, dev.disk, n, Le32(sysbuf[..], v.DescriptorOffset(blockGroup) + 8));
      var inodeBlock := Wrap32(v.Shifted(Le32(sysbuf[..], v.DescriptorOffset(blockGroup) + 8)));
      inodeBlock := Wrap32(inodeBlock + v.TableSector(inodeIndex));
      s := Wrap32(inodeBlock + v.partStart);
      o := v.TableOffset(inodeIndex);
    }

    /** Stores the inode; no other inode changes. */
    method FlushInode()
      requires Ready() && v.HasInode(inodeNumber) && |inode| == INODE_BYTES
      requires flags.dirty && sector != 0 ==> Data(sector)
      modifies this`flags, sysbuf, dev
      ensures Ready() && !flags.fsDirty
      ensures !old(flags.fsDirty) ==> flags == old(flags) && dev.disk == old(dev.disk)
      ensures old(flags.fsDirty) ==> v.Stored(dev.disk, inodeNumber) == inode
      ensures old(flags.fsDirty) ==> forall b: nat, i: nat ::
        b < v.groups && i < v.inodesPerGroup && inodeNumber == b * v.inodesPerGroup + i + 1 ==>
          InodeOf(v, dev.disk, b, i) == inode
      ensures forall k :: v.HasInode(k) && k != inodeNumber ==> v.Stored(dev.disk, k) == old(v.Stored(dev.disk, k))
    {
      hide Volume.Ok, Volume.Sector, Volume.Offset, Volume.Stored, Volume.WithInode, Volume.HasInode,
        Volume.DescriptorSector, InodeOf;
      if flags.fsDirty {
        ghost var d0 := dev.disk;
        var err := Flush();
        ghost var d := dev.disk;
        if d != d0 {
          DataKept(v, d0, sector, buffer[..]);
        }
        var s, o := Locate(inodeNumber);
        var _ := dev.BlockRead(s, sysbuf);
        forall k | 0 <= k < INODE_BYTES {
          sysbuf[o + k] := inode[k];
        }
        StoredInode(v, d, inodeNumber, inode, sysbuf[..]);
        var _ := dev.BlockWrite(s, sysbuf);
        StoreThenLoad(v, d, inodeNumber, inode);
        StoredOnDevice(v, dev.disk, inodeNumber);
        flags := flags.(fsDirty := false);
      }
    }

    /** Opens inode n: it is loaded and the first sector of its first block is buffered. */
    method OpenInode(n: nat)
      requires Ready() && v.HasInode(n)
      modifies this, sysbuf, buffer
      ensures Ready() && dev.disk == old(dev.disk)
      ensures inodeNumber == n && inode == v.Stored(dev.disk, n)
      ensures forall b: nat, i: nat ::
        b < v.groups && i < v.inodesPerGroup && n == b * v.inodesPerGroup + i + 1 ==>
          inode == InodeOf(v, dev.disk, b, i)
      ensures flags == Flags(true, false, false, false) && cursor == 0 && fileSector == 0
      ensures sector == Wrap32(Wrap32(v.Shifted(Le32(inode, 40))) + v.partStart) && sectorsLeft == v.Spb() - 1
      ensures sector < |dev.disk| ==> buffer[..] == dev.disk[sector]
    {
      SpbPositive(v);
      hide Volume.Ok, Volume.Offset, Volume.HasInode, Volume.DescriptorSector, Wrap32, Le32, Volume.Spb,
        Volume.Shifted, InodeOf;
      var s, o := Locate(n);
      var _ := dev.BlockRead(s, sysbuf);
      inode := sysbuf[o..o + INODE_BYTES];
      sector := Wrap32(Wrap32(v.Shifted(Le32(inode, 40))) + v.partStart);
      var _ := dev.BlockRead(sector, buffer);
      inodeNumber := n;
      flags := Flags(true, false, false, false);
      cursor := 0;
      fileSector := 0;
      sectorsLeft := v.Spb() - 1;
      StoredOnDevice(v, dev.disk, n);
    }
  }

  lemma SpbPositive(v: Volume)
    ensures v.Spb() > 0
  {
  }

  lemma LocateFacts(v: Volume, d: Disk, n: nat)
    requires v.Ok(d) && v.HasInode(n)
    ensures v.Shape() && v.Group(n) < v.groups && v.HasDescriptor(d, v.Group(n))
    ensures |d[v.DescriptorSector(v.Group(n))]| == 512
  {
    assert v.HasDescriptor(d, v.Group(n));
  }

  /** The sector buffer with the inode copied over its place. */
  lemma StoredInode(v: Volume, d: Disk, n: nat, s: seq<byte>, b: seq<byte>)
    requires v.Ok(d) && v.HasInode(n) && |s| == INODE_BYTES && |b| == 512
    requires forall k :: 0 <= k < 512 ==>
      b[k] == if v.Offset(n) <= k < v.Offset(n) + INODE_BYTES then s[k - v.Offset(n)] else d[v.Sector(d, n)][k]
    ensures v.WithInode(d, n, s) == d[v.Sector(d, n) := b]
  {
    assert b == Patch(d[v.Sector(d, n)], v.Offset(n), s);
  }

  /** Writing a data sector keeps the layout and every inode. */
  lemma DataKept(v: Volume, d: Disk, s: nat, b: seq<byte>)
    requires v.Ok(d) && s < |d| && |b| == 512
    requires forall a :: 0 <= a < v.groups ==> v.DescriptorSector(a) != s
    requires forall k :: v.HasInode(k) ==> v.Sector(d, k) != s
    ensures v.Ok(d[s := b])
    ensures forall k :: v.HasInode(k) ==> v.Stored(d[s := b], k) == v.Stored(d, k)
  {
    var d' := d[s := b];
    forall a | 0 <= a < v.groups ensures v.HasDescriptor(d', a) && v.TableStart(d', a) == v.TableStart(d, a) {
      assert v.HasDescriptor(d, a);
      assert d'[v.DescriptorSector(a)] == d[v.DescriptorSector(a)];
    }
    hide Volume.Group, Volume.Index, Volume.Row, Volume.TableStart, Volume.HasDescriptor, Volume.DescriptorSector;
    forall a, i | 0 <= a < v.groups && 0 <= i < v.inodesPerGroup ensures v.EntryOk(d', a, i) {
      assert v.EntryOk(d, a, i);
    }
    forall a, c | 0 <= a < v.groups && 0 <= c < v.groups && a != c ensures v.TablesApart(d', a, c) {
      assert v.TablesApart(d, a, c);
    }
    hide Volume.EntryOk, Volume.TablesApart;
  }
}
