/** Mounting: the boot sector fields the driver checks and the geometry it computes from them. */
module Mount {
  import opened Bytes
  import opened Division
  import opened Layout
  import opened Block

  /** The fields of a boot sector that a mount looks at. */
  datatype Boot = Boot(
    sectorSize: nat, clusterSize: nat, reserved: nat, numFats: nat, rootEntries: nat,
    shortTotal: nat, bigTotal: nat, spf: nat, rootCluster: nat)
  {
    function Total(): nat {
      if shortTotal == 0 then bigTotal else shortTotal
    }

    function RootLen(): nat {
      rootEntries * 32 / 512
    }

    function Fats(): nat {
      spf * numFats
    }

    /** The sectors in front of the data region: reserved ones, all FATs and the fixed root directory. */
    function Meta(): nat {
      reserved + Fats() + RootLen()
    }

    /** How many whole clusters the data region holds. */
    function Clusters(): nat
      requires clusterSize > 0
    {
      if Total() > Meta() then Quot(Total() - Meta(), clusterSize) else 0
    }
  }

  function BootOf(fat32: bool, s: seq<byte>): Boot
    requires |s| == 512
  {
    Boot(Le16(s, 0x0B), s[0x0D], Le16(s, 0x0E), s[0x10], Le16(s, 0x11), Le16(s, 0x13), Le32(s, 0x20),
         if fat32 then Le32(s, 0x24) else Le16(s, 0x16), if fat32 then Le32(s, 0x2C) else 1)
  }

  predicate PowerOfTwo(x: nat) {
    x in {1, 2, 4, 8, 16, 32, 64, 128}
  }

  /** What both kinds of mount demand of the fields. */
  predicate Common(b: Boot, volume: nat) {
    && b.sectorSize == 512 && PowerOfTwo(b.clusterSize)
    && 1 <= b.reserved < volume && 1 <= b.numFats < 15 && b.Total() <= volume
  }

  predicate Accepted(fat32: bool, b: Boot, start: nat, volume: nat) {
    && Common(b, volume)
    && (if fat32 then b.rootEntries == 0
        else b.rootEntries != 0 && b.rootEntries % 16 == 0
             && Wrap32(start + b.reserved + b.Fats()) <= Wrap32(start + volume))
  }

  /** The geometry a mount computes, in 32-bit arithmetic. */
  function Computed(fat32: bool, b: Boot, start: nat): Geometry
    requires b.clusterSize > 0
  {
    Geometry(fat32, b.clusterSize, Wrap32(start + b.Meta() - 2 * b.clusterSize), Wrap32(start + b.reserved), b.spf,
             if fat32 then 0 else Wrap32(start + b.reserved + b.Fats()), b.RootLen(), b.rootCluster,
             2 + b.Clusters())
  }

  lemma Powers()
    ensures Power(2, 0) == 1 && Power(2, 1) == 2 && Power(2, 2) == 4 && Power(2, 3) == 8
    ensures Power(2, 4) == 16 && Power(2, 5) == 32 && Power(2, 6) == 64 && Power(2, 7) == 128
  {
    assert Power(2, 4) == 16;
  }

  /** Is the field one of the eight powers of two? */
  method ClusterSizeOk(x: nat) returns (ok: bool)
    ensures ok <==> PowerOfTwo(x)
  {
    Powers();
    var i, p := 0, 1;
    while i < 8
      invariant 0 <= i <= 8 && p == Power(2, i)
      invariant forall k :: 0 <= k < i ==> x != Power(2, k)
    {
      if x == p {
        break;
      }
      i, p := i + 1, 2 * p;
    }
    return i < 8;
  }

  /** Mounts a volume: the boot sector is read, its fields are checked, the geometry is computed. */
  method MountVolume(dev: Device, sysbuf: array<byte>, fat32: bool, start: nat, volume: nat)
    returns (err: bool, g: Geometry)
    requires dev.Valid() && sysbuf.Length == 512 && start < |dev.disk|
    modifies sysbuf
    ensures var b := BootOf(fat32, dev.disk[start]);
      (err <==> !Accepted(fat32, b, start, volume)) && (!err ==> g == Computed(fat32, b, start))
  {
    hide Le16, Le32, Wrap32, PowerOfTwo;
    var _ := dev.BlockRead(start, sysbuf);
    var b := BootOf(fat32, sysbuf[..]);
    g := Geometry(fat32, 0, 0, 0, 0, 0, 0, 0, 0);
    if b.sectorSize != 512 {
      return true, g;
    }
    var ok := ClusterSizeOk(b.clusterSize);
    if !ok {
      return true, g;
    }
    if b.reserved < 1 || b.reserved >= volume {
      return true, g;
    }
    if b.numFats < 1 || b.numFats >= 15 {
      return true, g;
    }
    if fat32 {
      if b.rootEntries != 0 {
        return true, g;
      }
    } else if b.rootEntries == 0 || b.rootEntries % 16 != 0 {
      return true, g;
    }
    if (if b.shortTotal == 0 then b.bigTotal else b.shortTotal) > volume {
      return true, g;
    }
    NonZero(b.clusterSize);
    g := Computed(fat32, b, start);
    if !fat32 && g.rootStart > Wrap32(start + volume) {
      return true, g;
    }
    return false, g;
  }

  lemma NonZero(x: nat)
    requires PowerOfTwo(x)
    ensures 1 <= x <= 128
  {
  }

  // ---------------------------------------------------------------- boot sectors field by field

  /** The fields both kinds of boot sector begin with, in their order; the tail is what follows them. */
  datatype Fields = Fields(
    jump: seq<byte>, name: seq<byte>, sectorSize: nat, clusterSize: byte, reserved: nat, numFats: byte,
    rootEntries: nat, total: nat, media: byte, shortSpf: nat, sectorsPerTrack: nat, heads: nat,
    partitionStart: nat, bigTotal: nat, tail: seq<byte>)
  {
    predicate Fits() {
      && |jump| == 3 && |name| == 8 && |tail| == 476
      && sectorSize < 0x1_0000 && reserved < 0x1_0000 && rootEntries < 0x1_0000 && total < 0x1_0000
      && shortSpf < 0x1_0000 && bigTotal < 0x1_0000_0000
    }

    /** The sector, written field after field. */
    function Written(): (s: seq<byte>)
      requires Fits()
      ensures |s| == 512
    {
      jump + name + Digits(sectorSize, 2) + [clusterSize] + Digits(reserved, 2) + [numFats] + Digits(rootEntries, 2)
      + Digits(total, 2) + [media] + Digits(shortSpf, 2) + Digits(sectorsPerTrack, 2) + Digits(heads, 2)
      + Digits(partitionStart, 4) + Digits(bigTotal, 4) + tail
    }

    function Sectors(): nat {
      if total == 0 then bigTotal else total
    }
  }

  /** What follows on FAT32 as far as the root directory's first cluster. */
  function Tail32(spf: nat, fatFlags: nat, version: nat, root: nat, rest: seq<byte>): seq<byte> {
    Digits(spf, 4) + Digits(fatFlags, 2) + Digits(version, 2) + Digits(root, 4) + rest
  }

  lemma Field16(s: seq<byte>, o: nat, v: nat)
    requires o + 2 <= |s| && v < 0x1_0000 && s[o] == Digits(v, 2)[0] && s[o + 1] == Digits(v, 2)[1]
    ensures Le16(s, o) == v
  {
    assert s[o..o + 2] == Digits(v, 2);
    Le16Value(s, o, 0);
    DigitsValue(v);
  }

  lemma Field32(s: seq<byte>, o: nat, v: nat)
    requires o + 4 <= |s| && v < 0x1_0000_0000 && forall k :: 0 <= k < 4 ==> s[o + k] == Digits(v, 4)[k]
    ensures Le32(s, o) == v
  {
    assert s[o..o + 4] == Digits(v, 4);
    Le32Value(s, o, 0);
    DigitsValue(v);
  }

  /** The fields a mount looks at are the ones that have been written. */
  lemma WrittenFields(b: Fields)
    requires b.Fits()
    ensures var s := b.Written();
      && Le16(s, 0x0B) == b.sectorSize && s[0x0D] == b.clusterSize && Le16(s, 0x0E) == b.reserved
      && s[0x10] == b.numFats && Le16(s, 0x11) == b.rootEntries && Le16(s, 0x13) == b.total
      && Le16(s, 0x16) == b.shortSpf && Le32(s, 0x20) == b.bigTotal && s[0x24..] == b.tail
  {
    hide Le16, Le32, Digits;
    var s := b.Written();
    Field16(s, 0x0B, b.sectorSize);
    Field16(s, 0x0E, b.reserved);
    Field16(s, 0x11, b.rootEntries);
    Field16(s, 0x13, b.total);
    Field16(s, 0x16, b.shortSpf);
    Field32(s, 0x20, b.bigTotal);
  }

  lemma WrittenFields32(b: Fields, spf: nat, fatFlags: nat, version: nat, root: nat, rest: seq<byte>)
    requires b.Fits() && b.tail == Tail32(spf, fatFlags, version, root, rest)
    requires spf < 0x1_0000_0000 && root < 0x1_0000_0000
    ensures var s := b.Written(); Le32(s, 0x24) == spf && Le32(s, 0x2C) == root
  {
    hide Le16, Le32, Digits;
    WrittenFields(b);
    var s := b.Written();
    assert forall k :: 0 <= k < 476 ==> s[0x24 + k] == s[0x24..][k];
    hide Fields.Written;
    Field32(s, 0x24, spf);
    Field32(s, 0x2C, root);
  }

  lemma UnwrapAny(x: nat, k: nat)
    ensures Wrap32(Wrap32(x - k) + k) == Wrap32(x)
  {
    var m := 0x1_0000_0000;
    var q, r := (x - k) / m, x / m;
    assert Wrap32(x - k) + k == m * (r - q) + Wrap32(x);
  }

  /** The data region of a volume with meta sectors in front of it and total sectors in all: where it starts, and how
      many whole clusters fit behind that. */
  ghost predicate DataRegion(g: Geometry, start: nat, meta: nat, total: nat) {
    && g.DataStart() == (start + meta) % 0x1_0000_0000 && g.limit >= 2
    && (if total <= meta then g.limit == 2
        else (g.limit - 2) * g.spc <= total - meta < (g.limit - 1) * g.spc)
  }

  lemma RegionOf(fat32: bool, b: Boot, start: nat)
    requires b.clusterSize > 0
    ensures DataRegion(Computed(fat32, b, start), start, b.Meta(), b.Total())
  {
    UnwrapAny(start + b.Meta(), 2 * b.clusterSize);
    hide Wrap32, Quot, Boot.Fats;
    if b.Total() > b.Meta() {
      QuotRem(b.Total() - b.Meta(), b.clusterSize);
      var q := b.Clusters();
      assert (q + 1) * b.clusterSize == q * b.clusterSize + b.clusterSize;
    }
  }

  /** fat_mount_fat16 on a boot sector with the given fields. */
  method MountFat16(dev: Device, sysbuf: array<byte>, start: nat, volume: nat, ghost b: Fields)
    returns (err: bool, g: Geometry)
    requires dev.Valid() && sysbuf.Length == 512 && start < |dev.disk| && b.Fits() && dev.disk[start] == b.Written()
    modifies sysbuf
    ensures err == !(
      && b.sectorSize == 512 && b.clusterSize in {1, 2, 4, 8, 16, 32, 64, 128}
      && 1 <= b.reserved < volume && 1 <= b.numFats < 15 && b.rootEntries != 0 && b.rootEntries % 16 == 0
      && b.Sectors() <= volume
      && (start + b.reserved + b.shortSpf * b.numFats) % 0x1_0000_0000 <= (start + volume) % 0x1_0000_0000)
    ensures !err ==>
      && !g.fat32 && g.spc == b.clusterSize && g.spf == b.shortSpf && g.rootCluster == 1
      && g.fatStart == (start + b.reserved) % 0x1_0000_0000
      && g.rootStart == (start + b.reserved + b.shortSpf * b.numFats) % 0x1_0000_0000
      && g.rootLen == b.rootEntries / 16
      && DataRegion(g, start, b.reserved + b.shortSpf * b.numFats + b.rootEntries / 16, b.Sectors())
  {
    WrittenFields(b);
    hide Le16, Le32, Wrap32, Fields.Written, DataRegion, Boot.Clusters;
    err, g := MountVolume(dev, sysbuf, false, start, volume);
    ghost var boot := BootOf(false, dev.disk[start]);
    assert boot == Boot(b.sectorSize, b.clusterSize, b.reserved, b.numFats, b.rootEntries, b.total, b.bigTotal,
                        b.shortSpf, 1);
    if !err {
      NonZero(boot.clusterSize);
      RegionOf(false, boot, start);
    }
  }

  /** fat_mount_fat32 on a boot sector with the given fields. */
  method MountFat32(dev: Device, sysbuf: array<byte>, start: nat, volume: nat, ghost b: Fields, ghost spf: nat,
                    ghost fatFlags: nat, ghost version: nat, ghost root: nat, ghost rest: seq<byte>)
    returns (err: bool, g: Geometry)
    requires dev.Valid() && sysbuf.Length == 512 && start < |dev.disk| && b.Fits() && dev.disk[start] == b.Written()
    requires b.tail == Tail32(spf, fatFlags, version, root, rest) && spf < 0x1_0000_0000 && root < 0x1_0000_0000
    modifies sysbuf
    ensures err == !(
      && b.sectorSize == 512 && b.clusterSize in {1, 2, 4, 8, 16, 32, 64, 128}
      && 1 <= b.reserved < volume && 1 <= b.numFats < 15 && b.rootEntries == 0 && b.Sectors() <= volume)
    ensures !err ==>
      && g.fat32 && g.spc == b.clusterSize && g.spf == spf && g.rootCluster == root
      && g.fatStart == (start + b.reserved) % 0x1_0000_0000
      && DataRegion(g, start, b.reserved + spf * b.numFats, b.Sectors())
  {
    WrittenFields(b);
    WrittenFields32(b, spf, fatFlags, version, root, rest);
    hide Le16, Le32, Wrap32, Fields.Written, Tail32, DataRegion, Boot.Clusters;
    err, g := MountVolume(dev, sysbuf, true, start, volume);
    ghost var boot := BootOf(true, dev.disk[start]);
    assert boot == Boot(b.sectorSize, b.clusterSize, b.reserved, b.numFats, b.rootEntries, b.total, b.bigTotal,
                        spf, root);
    if !err {
      NonZero(boot.clusterSize);
      RegionOf(true, boot, start);
    }
  }

  /** What a mount leaves to the volume: at least one cluster, no more than the FAT has entries for, and a root that
      fits. */
  predicate Sound(fat32: bool, b: Boot)
    requires b.clusterSize > 0
  {
    var limit, entries := 2 + b.Clusters(), if fat32 then b.spf * 128 else b.spf * 256;
    && 2 < limit <= entries && limit <= (if fat32 then 0xFFF_FFF0 else 0xFFF0)
    && (if fat32 then 2 <= b.rootCluster < limit else b.RootLen() < 256)
  }

  /**
   The geometry of an accepted volume is well formed exactly when the volume is sound; nothing
   else about it is needed, in particular not that cluster0 is above zero.
   */
  lemma MountExact(fat32: bool, b: Boot, start: nat, volume: nat, n: nat)
    requires Accepted(fat32, b, start, volume) && b.clusterSize > 0 && start + volume <= n <= 0x1_0000_0000
    requires !fat32 ==> b.rootCluster == 1
    ensures Computed(fat32, b, start).Valid(n) <==> Sound(fat32, b)
  {
    NonZero(b.clusterSize);
    if Sound(fat32, b) {
      SoundValid(fat32, b, start, volume, n);
    }
  }

  lemma SoundValid(fat32: bool, b: Boot, start: nat, volume: nat, n: nat)
    requires Accepted(fat32, b, start, volume) && 0 < b.clusterSize <= 128 && start + volume <= n <= 0x1_0000_0000
    requires Sound(fat32, b) && (!fat32 ==> b.rootCluster == 1)
    ensures Computed(fat32, b, start).Valid(n)
  {
    hide Quot, Wrap32, PowerOfTwo, Geometry.Base;
    var g := Computed(fat32, b, start);
    WrapRange(start + b.Meta() - 2 * b.clusterSize);
    DataExact(fat32, b, start, volume, n);
    LastCluster(fat32, b, start, volume, n);
    ProductMonotone(1, b.numFats, b.spf);
  }

  /** The last cluster ends on the volume. */
  lemma LastCluster(fat32: bool, b: Boot, start: nat, volume: nat, n: nat)
    requires Accepted(fat32, b, start, volume) && 0 < b.clusterSize <= 128 && start + volume <= n <= 0x1_0000_0000
    requires b.Clusters() > 0
    ensures var g := Computed(fat32, b, start); g.Base(g.limit) <= n
  {
    hide Quot, Wrap32, PowerOfTwo, Boot.Fats;
    DataExact(fat32, b, start, volume, n);
    QuotRem(b.Total() - b.Meta(), b.clusterSize);
  }

  lemma WrapRange(x: int)
    ensures Wrap32(x) < 0x1_0000_0000
  {
  }

  /** The data region starts where the other regions end, whether or not cluster0 has wrapped below zero. */
  lemma DataExact(fat32: bool, b: Boot, start: nat, volume: nat, n: nat)
    requires Accepted(fat32, b, start, volume) && 0 < b.clusterSize <= 128 && start + volume <= n <= 0x1_0000_0000
    requires b.Clusters() > 0
    ensures b.Meta() < b.Total() <= volume
    ensures var g := Computed(fat32, b, start);
      && g.DataStart() == start + b.Meta() && g.fatStart == start + b.reserved
      && (!fat32 ==> g.rootStart == start + b.reserved + b.Fats())
  {
    hide Wrap32, Quot, PowerOfTwo;
    ProductMonotone(0, b.numFats, b.spf);
    var x := start + b.Meta();
    UnwrapSum(x, 2 * b.clusterSize);
    WrapSmall(start + b.reserved);
    WrapSmall(start + b.reserved + b.Fats());
  }

  /** Taking k away modulo 2^32 and adding it again gives x back. */
  lemma UnwrapSum(x: nat, k: nat)
    requires x < 0x1_0000_0000 && k <= 256
    ensures Wrap32(Wrap32(x - k) + k) == x
  {
  }

  /** On a mounted sound volume every cluster lies behind all copies of the FAT and the root directory, on the
      volume. */
  lemma ClustersPlaced(fat32: bool, b: Boot, start: nat, volume: nat, n: nat, c: nat)
    requires Accepted(fat32, b, start, volume) && 0 < b.clusterSize <= 128 && start + volume <= n <= 0x1_0000_0000
    requires Sound(fat32, b) && (!fat32 ==> b.rootCluster == 1) && 2 <= c < 2 + b.Clusters()
    ensures var g := Computed(fat32, b, start);
      && start + b.reserved + b.Fats() + b.RootLen() <= g.Base(c)
      && g.Base(c) + b.clusterSize <= start + volume
      && Wrap32(Wrap32(c * b.clusterSize) + g.cluster0) == g.Base(c)
  {
    var g := Computed(fat32, b, start);
    SoundValid(fat32, b, start, volume, n);
    DataExact(fat32, b, start, volume, n);
    ClusterToSector(g, n, c);
    QuotRem(b.Total() - b.Meta(), b.clusterSize);
    assert g.Base(g.limit) <= start + b.Total();
  }

  /** With large clusters near the start of the device cluster0 does wrap. */
  lemma Cluster0Wraps()
    ensures exists b: Boot :: Accepted(true, b, 0, 1000) && b.clusterSize > 0 && Sound(true, b)
              && Computed(true, b, 0).cluster0 > 0x8000_0000 && Computed(true, b, 0).Valid(1000)
  {
    var b := Boot(512, 128, 32, 1, 0, 1000, 0, 10, 2);
    QuotRemUnique(7, 62, 128);
    assert b.Clusters() == 7;
    MountExact(true, b, 0, 1000, 1000);
  }
}
