/**
 Where things are on the volume: FAT entries inside 512-byte sectors, clusters inside the
 data region. The disk is a sequence of sectors.
 */
module Layout {
  import opened Bytes
  import opened Division

  type Disk = seq<seq<byte>>

  ghost predicate ValidDisk(d: Disk) {
    forall i :: 0 <= i < |d| ==> |d[i]| == 512
  }

  /**
   The mount-time parameters of struct fat_info. The driver does not store limit: it is one
   past the largest cluster number whose sectors all lie on the device.
   */
  datatype Geometry = Geometry(
    fat32: bool,
    spc: nat,
    cluster0: nat,
    fatStart: nat,
    spf: nat,
    rootStart: nat,
    rootLen: nat,
    rootCluster: nat,
    limit: nat)
  {
    function EndMarker(): nat {
      if fat32 then 0xFFF_FFF0 else 0xFFF0
    }

    /** The value stored in a freshly allocated entry. */
    function NewEnd(): nat {
      if fat32 then 0xFFF_FFF8 else 0xFFF8
    }

    function PerSector(): nat {
      if fat32 then 128 else 256
    }

    /** The number of entry j of FAT sector i: i * (512 / entry length) + j. */
    function Number(i: nat, j: nat): nat {
      if fat32 then i * 128 + j else i * 256 + j
    }

    /** The offset of the j-th entry of a sector: j * entry length. */
    function Offset(j: nat): nat {
      if fat32 then j * 4 else j * 2
    }

    function EntryLen(): nat {
      if fat32 then 4 else 2
    }

    /** The number of entries the scan of the whole FAT looks at. */
    function Entries(): nat {
      if fat32 then spf * 128 else spf * 256
    }

    function EntryMax(): nat {
      if fat32 then 0x1_0000_0000 else 0x1_0000
    }

    function FatEnd(): nat {
      fatStart + spf
    }

    /** The first sector of cluster 2. */
    function DataStart(): nat {
      Wrap32(cluster0 + 2 * spc)
    }

    /** The first sector of cluster c. */
    function Base(c: nat): int {
      DataStart() + (c - 2) * spc
    }

    ghost predicate Owns(c: nat, s: nat) {
      Base(c) <= s < Base(c) + spc
    }

    predicate InFat(s: nat) {
      fatStart <= s < FatEnd()
    }

    /** The geometry describes a volume on a device of n sectors. */
    ghost predicate Valid(n: nat) {
      && 1 <= spc <= 128 && cluster0 < 0x1_0000_0000 && n <= 0x1_0000_0000
      && 0 < fatStart && FatEnd() <= DataStart()
      && 2 < limit <= Entries() && limit <= EndMarker()
      && Base(limit) <= n
      && (if fat32 then 2 <= rootCluster < limit
          else rootCluster == 1 && FatEnd() <= rootStart && 0 < rootLen < 256 && rootStart + rootLen <= DataStart())
    }
  }

  // ---------------------------------------------------------------- clusters

  /** What the driver computes in 32-bit arithmetic is the first sector of the cluster, even
      when cluster0 has wrapped below zero. */
  lemma ClusterToSector(g: Geometry, n: nat, c: nat)
    requires g.Valid(n) && 2 <= c < g.limit
    ensures Wrap32(Wrap32(c * g.spc) + g.cluster0) == g.Base(c)
    ensures g.DataStart() <= g.Base(c) && g.Base(c) + g.spc <= g.Base(g.limit) <= n
  {
    var x := (c - 2) * g.spc;
    ProductMonotone(0, c - 2, g.spc);
    BaseOrder(g, c, g.limit);
    assert c * g.spc == x + 2 * g.spc;
    hide Wrap32;
    WrapSum(c * g.spc, g.cluster0);
    WrapSum(g.cluster0 + 2 * g.spc, x);
    WrapSmall(g.Base(c));
  }

  lemma WrapSmall(x: nat)
    requires x < 0x1_0000_0000
    ensures Wrap32(x) == x
  {
  }

  /** Wrapping an operand first does not change a wrapped sum. */
  lemma WrapSum(x: nat, y: nat)
    ensures Wrap32(Wrap32(x) + y) == Wrap32(x + y)
  {
    var m := 0x1_0000_0000;
    var q, k := x / m, (x + y) / m;
    assert Wrap32(x) + y == m * (k - q) + Wrap32(x + y);
  }

  lemma BaseOrder(g: Geometry, c: nat, c': nat)
    requires c < c'
    ensures g.Base(c) + g.spc <= g.Base(c')
  {
    ProductMonotone(c - 1, c' - 2, g.spc);
    assert (c - 1) * g.spc == (c - 2) * g.spc + g.spc;
  }

  /** Distinct clusters have disjoint sectors. */
  lemma ClustersDisjoint(g: Geometry, c: nat, c': nat, s: nat)
    requires g.Owns(c, s) && g.Owns(c', s)
    ensures c == c'
  {
    if c < c' { BaseOrder(g, c, c'); }
    if c' < c { BaseOrder(g, c', c); }
  }

  /** Clusters lie on the device, behind the FAT and the fixed root directory. */
  lemma ClusterInData(g: Geometry, n: nat, c: nat, s: nat)
    requires g.Valid(n) && 2 <= c < g.limit && g.Owns(c, s)
    ensures g.DataStart() <= s < n && !g.InFat(s)
    ensures !g.fat32 ==> !(g.rootStart <= s < g.rootStart + g.rootLen)
  {
    ClusterToSector(g, n, c);
  }

  // ---------------------------------------------------------------- FAT entries

  /** The sector of entry c and the offset of its first byte in that sector. */
  function EntrySector(g: Geometry, c: nat): nat {
    if g.fat32 then g.fatStart + c * 4 / 512 else g.fatStart + c * 2 / 512
  }

  function EntryOffset(g: Geometry, c: nat): (o: nat)
    ensures o + g.EntryLen() <= 512
  {
    if g.fat32 then c * 4 % 512 else c * 2 % 512
  }

  /** The FAT is on the disk. */
  ghost predicate HasFat(g: Geometry, d: Disk) {
    ValidDisk(d) && g.FatEnd() <= |d| && 0 < g.fatStart
  }

  function Decode(g: Geometry, s: seq<byte>, o: nat): (v: nat)
    requires o + g.EntryLen() <= |s|
    ensures v < g.EntryMax()
  {
    if g.fat32 then Le32(s, o) else Le16(s, o)
  }

  function Encode(g: Geometry, v: nat): (b: seq<byte>)
    ensures |b| == g.EntryLen()
  {
    if g.fat32 then Bytes32(v) else Bytes16(v)
  }

  function Entry(g: Geometry, d: Disk, c: nat): (v: nat)
    requires HasFat(g, d) && c < g.Entries()
    ensures v < g.EntryMax()
  {
    Decode(g, d[EntrySector(g, c)], EntryOffset(g, c))
  }

  /** The disk after storing v in entry c. */
  function WithEntry(g: Geometry, d: Disk, c: nat, v: nat): (d': Disk)
    requires HasFat(g, d) && c < g.Entries()
    ensures |d'| == |d| && HasFat(g, d')
    ensures forall s :: 0 <= s < |d| && s != EntrySector(g, c) ==> d'[s] == d[s]
  {
    var s := EntrySector(g, c);
    d[s := Patch(d[s], EntryOffset(g, c), Encode(g, v))]
  }

  /** The first n entries of the FAT. */
  function FirstEntries(g: Geometry, d: Disk, n: nat): (t: seq<nat>)
    requires HasFat(g, d) && n <= g.Entries()
    ensures |t| == n
    ensures forall c :: 0 <= c < n ==> t[c] == Entry(g, d, c)
  {
    if n == 0 then [] else FirstEntries(g, d, n - 1) + [Entry(g, d, n - 1)]
  }

  /** The FAT as a table of numbers. */
  function Table(g: Geometry, d: Disk): (t: seq<nat>)
    requires HasFat(g, d)
    ensures |t| == g.Entries()
    ensures forall c :: 0 <= c < |t| ==> t[c] == Entry(g, d, c)
  {
    FirstEntries(g, d, g.Entries())
  }

  lemma EntryOwn(g: Geometry, d: Disk, c: nat, v: nat)
    requires HasFat(g, d) && c < g.Entries() && v < g.EntryMax()
    ensures Entry(g, WithEntry(g, d, c, v), c) == v
  {
    if g.fat32 {
      Le32OfBytes32(d[EntrySector(g, c)], EntryOffset(g, c), v);
    } else {
      Le16OfBytes16(d[EntrySector(g, c)], EntryOffset(g, c), v);
    }
  }

  lemma EntryOther(g: Geometry, d: Disk, c: nat, v: nat, x: nat)
    requires HasFat(g, d) && c < g.Entries() && x < g.Entries() && x != c
    ensures Entry(g, WithEntry(g, d, c, v), x) == Entry(g, d, x)
  {
    if EntrySector(g, x) == EntrySector(g, c) {
      var oc, ox := EntryOffset(g, c), EntryOffset(g, x);
      assert ox + g.EntryLen() <= oc || oc + g.EntryLen() <= ox;
    }
  }

  /** Storing an entry on disk updates the table at one place: entries do not overlap. */
  lemma TableWithEntry(g: Geometry, d: Disk, c: nat, v: nat)
    requires HasFat(g, d) && c < g.Entries() && v < g.EntryMax()
    ensures Table(g, WithEntry(g, d, c, v)) == Table(g, d)[c := v]
  {
    var t, t' := Table(g, d)[c := v], Table(g, WithEntry(g, d, c, v));
    forall x | 0 <= x < g.Entries() ensures t'[x] == t[x] {
      if x == c { EntryOwn(g, d, c, v); } else { EntryOther(g, d, c, v, x); }
    }
  }

  /** The table depends on the sectors of the FAT only. */
  lemma TableFrame(g: Geometry, d: Disk, d': Disk)
    requires HasFat(g, d) && HasFat(g, d') && |d| == |d'|
    requires forall s :: 0 <= s < |d| && g.InFat(s) ==> d'[s] == d[s]
    ensures Table(g, d') == Table(g, d)
  {
    forall x | 0 <= x < g.Entries() ensures Entry(g, d', x) == Entry(g, d, x) {
      assert g.InFat(EntrySector(g, x));
    }
  }
}
