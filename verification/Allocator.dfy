/** The mounted volume: the cluster allocator and the chain freer, which share one sector buffer. */
module Allocator {
  import opened Bytes
  import opened Chains
  import opened Layout
  import opened RawFat
  import opened Block

  /** Entry number c is the j-th entry of the i-th FAT sector. */
  lemma EntryPlace(g: Geometry, i: nat, j: nat)
    requires j < g.PerSector()
    ensures EntrySector(g, g.Number(i, j)) == g.fatStart + i
    ensures EntryOffset(g, g.Number(i, j)) == g.Offset(j)
  {
  }

  ghost predicate FreeAt(g: Geometry, s: seq<byte>, j: nat)
    requires |s| == 512
  {
    j < g.PerSector() && Decode(g, s, g.Offset(j)) == 0
  }

  /**
   The outcome r of an allocation on disk d: the lowest-numbered free entry, which alone has
   changed and now holds an end mark; or 0 and no change when no entry is free.
   */
  ghost predicate Allocated(g: Geometry, d: Disk, d': Disk, r: nat)
    requires HasFat(g, d)
  {
    if Full(Table(g, d)) then r == 0 && d' == d
    else LeastFree(Table(g, d), r) && d' == WithEntry(g, d, r, g.NewEnd())
  }

  /** The same in bytes. */
  lemma AllocatedBytes(g: Geometry, d: Disk, d': Disk, r: int)
    requires HasFat(g, d) && r >= 0 && Allocated(g, d, d', r)
    ensures HasFat(g, d') && TakenRaw(g.fat32, FatRaw(g, d), FatRaw(g, d'), r)
    ensures |d'| == |d| && forall s :: 0 <= s < |d| && !g.InFat(s) ==> d'[s] == d[s]
  {
    FatAsBytes(g, d);
    hide Table, FatRaw, Numbers, WithEntry, TakenRaw, Patch, LeastFree, Full;
    if !Full(Table(g, d)) {
      LeastInTable(Table(g, d), r);
      StoredBytes(g, d, r, g.NewEnd());
      EndMarkDigits(g);
    }
    TakenNumbers(g.fat32, FatRaw(g, d), FatRaw(g, d'), r);
  }

  lemma LeastInTable(t: seq<nat>, r: nat)
    requires LeastFree(t, r)
    ensures r < |t|
  {
  }

  /** A successful allocation takes one entry, and freeing the cluster at once restores the table. */
  lemma AllocateThenFree(g: Geometry, d: Disk, d': Disk, r: nat)
    requires HasFat(g, d) && HasFat(g, d') && Allocated(g, d, d', r) && !Full(Table(g, d))
    requires Walkable(Table(g, d'), g.EndMarker())
    ensures r < |Table(g, d')| && InUse(Table(g, d')) == InUse(Table(g, d)) + 1
    ensures FreeWalk(Table(g, d'), g.EndMarker(), r) == Table(g, d)
  {
    TableWithEntry(g, d, r, g.NewEnd());
    InUseUpdate(Table(g, d), r, g.NewEnd());
    assert Table(g, d') == Table(g, d)[r := g.NewEnd()];
    hide Table, WithEntry;
  }

  /** No entry of the first i FAT sectors is free. */
  ghost predicate NoFreeBefore(g: Geometry, d: Disk, i: nat)
    requires HasFat(g, d) && i <= g.spf
  {
    forall c :: 0 <= c < g.Number(i, 0) ==> Table(g, d)[c] != 0
  }

  lemma NothingScanned(g: Geometry, d: Disk)
    requires HasFat(g, d)
    ensures NoFreeBefore(g, d, 0)
  {
  }

  lemma AllScanned(g: Geometry, d: Disk)
    requires HasFat(g, d) && NoFreeBefore(g, d, g.spf)
    ensures Allocated(g, d, d, 0)
  {
  }

  lemma EntryInUse(g: Geometry, d: Disk, i: nat, s: seq<byte>, j: nat)
    requires HasFat(g, d) && g.InFat(i) && s == d[i] && j < g.PerSector()
    ensures g.Number(i - g.fatStart, j) < g.Entries()
    ensures Table(g, d)[g.Number(i - g.fatStart, j)] == 0 <==> FreeAt(g, s, j)
  {
    EntryPlace(g, i - g.fatStart, j);
  }

  /** What scanning sector i of the FAT up to its first free entry j says about the table. */
  lemma ScannedSector(g: Geometry, d: Disk, i: nat, s: seq<byte>, j: nat)
    requires HasFat(g, d) && g.InFat(i) && NoFreeBefore(g, d, i - g.fatStart) && s == d[i]
    requires j <= g.PerSector() && forall x :: 0 <= x < j ==> !FreeAt(g, s, x)
    requires j < g.PerSector() ==> FreeAt(g, s, j)
    ensures j == g.PerSector() ==> NoFreeBefore(g, d, i - g.fatStart + 1)
    ensures j < g.PerSector() ==>
      Allocated(g, d, d[i := Patch(s, g.Offset(j), Encode(g, g.NewEnd()))], g.Number(i - g.fatStart, j))
  {
    hide Patch, Decode, Encode, Table, FreeAt;
    var n := g.Number(i - g.fatStart, 0);
    forall c | n <= c < n + j ensures Table(g, d)[c] != 0 {
      EntryInUse(g, d, i, s, c - n);
    }
    if j < g.PerSector() {
      EntryInUse(g, d, i, s, j);
      EntryPlace(g, i - g.fatStart, j);
    }
  }

  /** Zeroing entry c of disk v is one step of the walk that frees a chain. */
  lemma FreeStep(g: Geometry, v: Disk, c: nat)
    requires HasFat(g, v) && c < g.Entries() && Walkable(Table(g, v), g.EndMarker())
    ensures var m, t, t' := g.EndMarker(), Table(g, v), Table(g, WithEntry(g, v, c, 0));
      if t[c] >= m then FreeWalk(t, m, c) == t'
      else
        && t[c] < |t'| && Walkable(t', m) && FreeWalk(t', m, t[c]) == FreeWalk(t, m, c)
        && (InUse(t') < InUse(t) || (InUse(t') == InUse(t) && t[c] == 0 && t'[t[c]] != 0))
  {
    hide Table, WithEntry, InUse;
    TableWithEntry(g, v, c, 0);
    InUseUpdate(Table(g, v), c, 0);
  }

  /** The little-endian FAT entry at offset o of a sector buffer. */
  method LoadEntry(g: Geometry, buf: array<byte>, o: nat) returns (e: nat)
    requires o + g.EntryLen() <= buf.Length
    ensures e == Decode(g, buf[..], o)
  {
    var b0: int, b1: int := buf[o], buf[o + 1];
    e := b0 + 0x100 * b1;
    if g.fat32 {
      var b2: int, b3: int := buf[o + 2], buf[o + 3];
      e := e + 0x1_0000 * b2 + 0x100_0000 * b3;
    }
  }

  /** Stores a FAT entry at offset o of a sector buffer. */
  method StoreEntry(g: Geometry, buf: array<byte>, o: nat, v: nat)
    requires o + g.EntryLen() <= buf.Length
    modifies buf
    ensures buf[..] == Patch(old(buf[..]), o, Encode(g, v))
  {
    buf[o] := v % 0x100;
    buf[o + 1] := v / 0x100 % 0x100;
    if g.fat32 {
      buf[o + 2] := v / 0x1_0000 % 0x100;
      buf[o + 3] := v / 0x100_0000 % 0x100;
    }
  }

  class FatInfo {
    const dev: Device
    const sysbuf: array<byte>
    const g: Geometry

    constructor (dev: Device, g: Geometry)
      ensures this.dev == dev && this.g == g && fresh(sysbuf) && sysbuf.Length == 512
    {
      this.dev, this.g := dev, g;
      sysbuf := new byte[512];
    }

    ghost predicate Ready()
      reads this, dev
    {
      && dev.Valid() && sysbuf.Length == 512
      && HasFat(g, dev.disk) && g.FatEnd() < 0x1_0000_0000
    }

    /** The index of the first free entry in the sector buffer, or the number of entries. */
    method ScanSector() returns (j: nat)
      requires sysbuf.Length == 512
      ensures j <= g.PerSector()
      ensures forall x :: 0 <= x < j ==> !FreeAt(g, sysbuf[..], x)
      ensures j < g.PerSector() ==> FreeAt(g, sysbuf[..], j)
    {
      j := 0;
      while j < 512 / g.EntryLen()
        invariant j <= g.PerSector()
        invariant forall x :: 0 <= x < j ==> !FreeAt(g, sysbuf[..], x)
      {
        var e := LoadEntry(g, sysbuf, g.Offset(j));
        if e == 0 {
          return;
        }
        j := j + 1;
      }
    }

    /** Takes the lowest-numbered free cluster and marks it as an end of chain; 0 when the FAT is full. */
    method GetFreeCluster() returns (r: int)
      requires Ready()
      modifies sysbuf, dev
      ensures dev.Valid()
      ensures r >= 0 && Allocated(g, old(dev.disk), dev.disk, r)
      ensures HasFat(g, dev.disk) && TakenRaw(g.fat32, FatRaw(g, old(dev.disk)), FatRaw(g, dev.disk), r)
      ensures |dev.disk| == |old(dev.disk)|
      ensures forall s :: 0 <= s < |dev.disk| && !g.InFat(s) ==> dev.disk[s] == old(dev.disk[s])
    {
      hide Patch, Decode, Encode, Allocated, NoFreeBefore, FreeAt, TakenRaw;
      ghost var d := dev.disk;
      NothingScanned(g, d);
      var i := g.fatStart;
      while i < g.fatStart + g.spf
        invariant g.fatStart <= i <= g.FatEnd()
        invariant dev.disk == d
        invariant NoFreeBefore(g, d, i - g.fatStart)
      {
        var err := dev.BlockRead(i, sysbuf);
        if err {
          return 0xFFFF_FFFF;
        }
        var j := ScanSector();
        ScannedSector(g, d, i, sysbuf[..], j);
        if j < g.PerSector() {
          StoreEntry(g, sysbuf, g.Offset(j), g.NewEnd());
          var werr := dev.BlockWrite(i, sysbuf);
          if werr {
            return 0xFFFF_FFFF;
          }
          AllocatedBytes(g, d, dev.disk, g.Number(i - g.fatStart, j));
          return g.Number(i - g.fatStart, j);
        }
        i := i + 1;
      }
      AllScanned(g, d);
      AllocatedBytes(g, d, d, 0);
      return 0;
    }

    /** Reads the entry at offset o of the sector buffer and zeroes it. */
    method TakeEntry(o: nat) returns (e: nat)
      requires sysbuf.Length == 512 && o + g.EntryLen() <= 512
      modifies sysbuf
      ensures e == Decode(g, old(sysbuf[..]), o)
      ensures sysbuf[..] == Patch(old(sysbuf[..]), o, Encode(g, 0))
    {
      var b0: int := sysbuf[o];
      sysbuf[o] := 0;
      var b1: int := sysbuf[o + 1];
      sysbuf[o + 1] := 0;
      e := b0 + 0x100 * b1;
      if g.fat32 {
        var b2: int := sysbuf[o + 2];
        sysbuf[o + 2] := 0;
        var b3: int := sysbuf[o + 3];
        sysbuf[o + 3] := 0;
        e := e + 0x1_0000 * b2 + 0x100_0000 * b3;
      }
    }

    /**
     Frees the chain that starts at start, holding one FAT sector in the buffer and writing it
     back only when the chain leaves it. The disk ends up as if the entries had been zeroed
     one at a time.
     */
    method FreeClusters(start: nat) returns (err: bool)
      requires Ready() && start < g.Entries()
      requires Walkable(Table(g, dev.disk), g.EndMarker())
      modifies sysbuf, dev
      ensures Ready() && !err
      ensures |dev.disk| == |old(dev.disk)|
      ensures Table(g, dev.disk) == FreeWalk(old(Table(g, dev.disk)), g.EndMarker(), start)
      ensures var t, t' := old(Numbers(g.fat32, FatRaw(g, dev.disk))), Numbers(g.fat32, FatRaw(g, dev.disk));
        var end := if g.fat32 then 0xFFF_FFF0 else 0xFFF0;
        Walkable(t, end) && start < |t| && t' == FreeWalk(t, end, start)
      ensures forall s :: 0 <= s < |dev.disk| && !g.InFat(s) ==> dev.disk[s] == old(dev.disk[s])
    {
      hide Patch, Decode, Encode, Table, FreeWalk, Walkable, InUse, ValidDisk, FatRaw, Numbers;
      var cluster: nat := start;
      var current: nat := 0xFFFF_FFFF;
      ghost var d0 := dev.disk;
      ghost var goal := FreeWalk(Table(g, d0), g.EndMarker(), start);
      ghost var v := d0;   // the disk with the buffered sector laid over it
      while true
        invariant dev.Valid() && |dev.disk| == |d0| == |v| && HasFat(g, v)
        invariant Window(current, v)
        invariant forall s :: 0 <= s < |d0| && !g.InFat(s) ==> v[s] == d0[s]
        invariant cluster < g.Entries() && Walkable(Table(g, v), g.EndMarker())
        invariant FreeWalk(Table(g, v), g.EndMarker(), cluster) == goal
        decreases InUse(Table(g, v)), if Table(g, v)[cluster] == 0 then 1 else 0
      {
        err := MoveWindow(current, EntrySector(g, cluster), v);
        if err {
          return true;
        }
        current := EntrySector(g, cluster);
        var next := TakeEntry(EntryOffset(g, cluster));
        FreeStep(g, v, cluster);
        v := WithEntry(g, v, cluster, 0);
        if next >= g.EndMarker() {
          break;
        }
        cluster := next;
      }
      var _ := dev.BlockWrite(current, sysbuf);
      FatAsBytes(g, d0);
      FatAsBytes(g, dev.disk);
      return false;
    }

    /** The disk with the sector buffer laid over sector current is v; 0xFFFFFFFF means no sector. */
    ghost predicate Window(current: nat, v: Disk)
      reads dev, sysbuf
    {
      if current == 0xFFFF_FFFF then v == dev.disk
      else g.InFat(current) && current < |dev.disk| && v == dev.disk[current := sysbuf[..]]
    }

    /** Writes the buffered sector back and loads another one, unless it is already there. */
    method MoveWindow(current: nat, want: nat, ghost v: Disk) returns (err: bool)
      requires Ready() && Window(current, v) && g.InFat(want)
      modifies sysbuf, dev
      ensures dev.Valid() && |dev.disk| == |old(dev.disk)|
      ensures !err && Window(want, v)
    {
      if want != current {
        if current != 0xFFFF_FFFF {
          var _ := dev.BlockWrite(current, sysbuf);
        }
        err := dev.BlockRead(want, sysbuf);
        if err {
          return;
        }
      }
      err := false;
    }
  }
}
