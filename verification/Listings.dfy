/**
 Listings against deletion and creation: a deleted entry is no longer listed and all others are, a new file is
 listed under its name behind the entries that were there. Told in the bytes of the directory.
 */
module Listings {
  import opened Bytes
  import opened Chains
  import opened Layout
  import opened Tracks
  import opened FileSpec
  import opened FileSteps
  import opened FileStore
  import opened File
  import opened Dirents

  // ---------------------------------------------------------------- which entries are listed

  /** The volume-label bit of the attributes, which long-name parts have as well. */
  predicate LabelBit(attributes: byte) {
    (attributes as bv8) & 0x08 != 0
  }

  /** Entry i is neither deleted nor a label nor a part of a long name, and no entry from k to i is unused. */
  ghost predicate Visible(c: seq<byte>, k: nat, i: nat) {
    && k <= i && 32 * i + 32 <= |c| && (forall x :: k <= x <= i ==> c[32 * x] != 0)
    && c[32 * i] != 0xE5 && !LabelBit(c[32 * i + 11])
  }

  lemma ShownBits(e: seq<byte>)
    requires |e| == 32
    ensures Shown(e) <==> e[0] != 0xE5 && !LabelBit(e[11])
  {
    LabelIsBit3(e[11]);
  }

  lemma LabelIsBit3(a: byte)
    ensures LabelBit(a) <==> a / 8 % 2 == 1
    ensures a == 0x0F ==> LabelBit(a)
  {
  }

  lemma WantedVisible(c: seq<byte>, k: nat, i: nat)
    requires 32 * k <= |c|
    ensures Wanted(c, k, i) <==> Visible(c, k, i)
  {
    hide Shown, LabelBit;
    if 32 * i + 32 <= |c| {
      ShownBits(EntryAt(c, i));
      assert forall x :: k <= x <= i ==> EntryAt(c, x)[0] == c[32 * x];
    }
  }

  /** The listing is the visible entries, each once and in their order. */
  lemma ListedExactly(c: seq<byte>, k: nat) returns (s: seq<nat>)
    requires 32 * k <= |c|
    ensures |s| == |Listing(c, k)|
    ensures forall x :: 0 <= x < |s| ==> 32 * s[x] + 32 <= |c| && Listing(c, k)[x] == c[32 * s[x]..32 * s[x] + 32]
    ensures forall x, y :: 0 <= x < y < |s| ==> s[x] < s[y]
    ensures forall i :: i in s <==> Visible(c, k, i)
  {
    hide Listing, Wanted, Visible;
    s := ListingExact(c, k);
    forall i: nat ensures i in s <==> Visible(c, k, i) {
      WantedVisible(c, k, i);
    }
  }

  // ---------------------------------------------------------------- changing one entry

  /** The entries behind a point are listed as before when nothing behind it has changed. */
  lemma {:induction false} SameTail(c: seq<byte>, c': seq<byte>, k: nat)
    requires |c'| == |c| && 32 * k <= |c| && c'[32 * k..] == c[32 * k..]
    ensures Listing(c', k) == Listing(c, k)
    decreases |c| - 32 * k
  {
    hide Listing, Shown;
    if 32 * k + 32 > |c| {
      ListingStep(c, k);
      ListingStep(c', k);
    } else {
      SameEntry(c, c', k);
      ListingHere(c, k);
      ListingHere(c', k);
      SameTail(c, c', k + 1);
    }
  }

  lemma SameEntry(c: seq<byte>, c': seq<byte>, k: nat)
    requires |c'| == |c| && 32 * k + 32 <= |c| && c'[32 * k..] == c[32 * k..]
    ensures EntryAt(c', k) == EntryAt(c, k) && c'[32 * (k + 1)..] == c[32 * (k + 1)..]
  {
    assert c[32 * k..][..32] == EntryAt(c, k) && c'[32 * k..][..32] == EntryAt(c', k);
    assert c[32 * k..][32..] == c[32 * (k + 1)..] && c'[32 * k..][32..] == c'[32 * (k + 1)..];
  }

  /** One of the first k entries is unused. */
  ghost predicate Closed(c: seq<byte>, k: nat)
    requires 32 * k <= |c|
  {
    exists x :: 0 <= x < k && c[32 * x] == 0
  }

  /** A listing is that of the first k entries, with the rest behind it when these are all used. */
  lemma ListedUpTo(c: seq<byte>, k: nat)
    requires 32 * k <= |c|
    ensures Listing(c, 0) == Listing(c[..32 * k], 0) + if Closed(c, k) then [] else Listing(c, k)
  {
    hide Listing;
    CutListing(c, 32 * k, 0);
    if Closed(c, k) {
      var x :| 0 <= x < k && c[32 * x] == 0;
      assert EntryAt(c, x)[0] == 0;
    }
  }

  lemma ClosedAlike(c: seq<byte>, c': seq<byte>, k: nat)
    requires |c'| == |c| && 32 * k <= |c| && c'[..32 * k] == c[..32 * k]
    ensures Closed(c', k) == Closed(c, k)
  {
    forall x | 0 <= x < k ensures c'[32 * x] == c[32 * x] {
      assert c'[..32 * k][32 * x] == c[..32 * k][32 * x];
    }
  }

  /** What two byte sequences that differ in entry k list. */
  lemma OneEntry(c: seq<byte>, c': seq<byte>, k: nat)
    requires |c'| == |c| && 32 * k + 32 <= |c|
    requires c'[..32 * k] == c[..32 * k] && c'[32 * (k + 1)..] == c[32 * (k + 1)..]
    ensures Closed(c', k) == Closed(c, k) && Listing(c', k + 1) == Listing(c, k + 1)
    ensures Listing(c', 0) == Listing(c[..32 * k], 0) + if Closed(c, k) then [] else Listing(c', k)
  {
    hide Listing, Closed;
    ListedUpTo(c', k);
    ClosedAlike(c, c', k);
    SameTail(c, c', k + 1);
  }

  /** A listing from a used entry on. */
  lemma FromUsed(c: seq<byte>, k: nat)
    requires 32 * k + 32 <= |c| && c[32 * k] != 0
    ensures Listing(c, k)
         == (if c[32 * k] == 0xE5 || LabelBit(c[32 * k + 11]) then [] else [c[32 * k..32 * k + 32]]) + Listing(c, k + 1)
  {
    hide Listing, Shown, LabelBit;
    ListingHere(c, k);
    ShownBits(EntryAt(c, k));
  }

  lemma MarkedParts(c: seq<byte>, k: nat)
    requires 32 * k + 32 <= |c|
    ensures var c' := c[32 * k := 0xE5]; c'[..32 * k] == c[..32 * k] && c'[32 * (k + 1)..] == c[32 * (k + 1)..]
  {
  }

  lemma VisibleHere(c: seq<byte>, k: nat)
    requires 32 * k + 32 <= |c| && c[32 * k] != 0
    ensures Visible(c, 0, k) <==> !Closed(c, k) && c[32 * k] != 0xE5 && !LabelBit(c[32 * k + 11])
  {
    hide LabelBit;
  }

  /** Marking entry k as deleted takes it out of the listing and leaves all other entries in. */
  lemma MarkDeleted(c: seq<byte>, k: nat) returns (before: seq<seq<byte>>, after: seq<seq<byte>>)
    requires 32 * k + 32 <= |c| && c[32 * k] != 0
    ensures before == Listing(c[..32 * k], 0)
    ensures Listing(c, 0) == before + (if Visible(c, 0, k) then [c[32 * k..32 * k + 32]] else []) + after
    ensures Listing(c[32 * k := 0xE5], 0) == before + after
  {
    hide Listing, Closed, LabelBit, Visible;
    var c' := c[32 * k := 0xE5];
    MarkedParts(c, k);
    VisibleHere(c, k);
    ListedUpTo(c, k);
    OneEntry(c, c', k);
    FromUsed(c, k);
    FromUsed(c', k);
    before, after := Listing(c[..32 * k], 0), if Closed(c, k) then [] else Listing(c, k + 1);
  }

  /** Entry e, written over the first unused one, is listed behind what was listed before. */
  lemma EntryAdded(c: seq<byte>, k: nat, e: seq<byte>)
    requires 32 * k + 32 <= |c| && |e| == 32 && !Closed(c, k) && c[32 * k] == 0
    requires e[0] != 0 && e[0] != 0xE5 && !LabelBit(e[11])
    ensures Listing(Patch(c, 32 * k, e), 0) == Listing(c, 0) + [e] + Listing(c, k + 1)
  {
    hide Listing, Closed, LabelBit;
    var c' := Patch(c, 32 * k, e);
    assert c'[..32 * k] == c[..32 * k] && c'[32 * (k + 1)..] == c[32 * (k + 1)..] && c'[32 * k..32 * k + 32] == e;
    ListedUpTo(c, k);
    OneEntry(c, c', k);
    ListingHere(c, k);
    FromUsed(c', k);
  }

  // ---------------------------------------------------------------- directories on disk

  /** A record of a directory that shows what is on disk. */
  ghost predicate ShowsDirectory(g: Geometry, d: Disk, q: Desc, ch: seq<nat>, up: seq<nat>) {
    Inv(g, d, q, ch, up) && q.IsDir() && !q.flags.dirty
  }

  /** What such a record reads. */
  ghost function DirBytes(g: Geometry, d: Disk, q: Desc, ch: seq<nat>, up: seq<nat>): seq<byte>
    requires ShowsDirectory(g, d, q, ch, up)
  {
    Content(g, d, q, ch, up)
  }

  /** The bytes of a directory are those of its sectors, one after the other. */
  lemma DirectoryByte(g: Geometry, d: Disk, q: Desc, ch: seq<nat>, up: seq<nat>, p: nat)
    requires ShowsDirectory(g, d, q, ch, up) && p < |DirBytes(g, d, q, ch, up)|
    ensures |DirBytes(g, d, q, ch, up)| == Sectors(g, ch) * 512 && ValidDisk(d) && g.spc > 0
    ensures 0 < SectorOf(g, ch, p / 512) < |d| && !g.InFat(SectorOf(g, ch, p / 512))
    ensures DirBytes(g, d, q, ch, up)[p] == d[SectorOf(g, ch, p / 512)][p % 512]
  {
    hide Inv, Content, Sectors, SectorOf, Table, VolumeOk, ByteAt;
    DirectoryLength(g, d, q, ch, up);
    DirectoryTrack(g, d, q, ch, up);
    ContentAt(g, d, q, ch, up, p);
    CleanByte(g, d, q, ch, p);
    TrackSector(g, |d|, Table(g, d), ch, p / 512);
  }

  lemma CleanByte(g: Geometry, d: Disk, q: Desc, ch: seq<nat>, p: nat)
    requires Readable(g, d, q, ch) && p < Capacity(g, q, ch) && q.sector != 0 && !q.flags.dirty
    ensures p / 512 < Sectors(g, ch) && 0 <= SectorOf(g, ch, p / 512) < |d| && |d[SectorOf(g, ch, p / 512)]| == 512
    ensures ByteAt(g, d, q, ch, p) == d[SectorOf(g, ch, p / 512)][p % 512]
  {
    hide SectorOf, Sectors;
  }

  lemma DirectoryTrack(g: Geometry, d: Disk, q: Desc, ch: seq<nat>, up: seq<nat>)
    requires ShowsDirectory(g, d, q, ch, up)
    ensures VolumeOk(g, d) && g.Valid(|d|) && HasFat(g, d) && g.spc > 0 && Track(g, Table(g, d), ch) && q.sector != 0
    ensures ValidDisk(d)
  {
    hide Table, SectorOf, Sectors;
  }

  lemma DirectoryEnd(g: Geometry, d: Disk, q: Desc, ch: seq<nat>, up: seq<nat>)
    requires ShowsDirectory(g, d, q, ch, up)
    ensures |DirBytes(g, d, q, ch, up)| == Sectors(g, ch) * 512
  {
    DirectoryLength(g, d, q, ch, up);
  }

  /** Writing bytes b at offset o of the i-th sector of a directory writes them there in its bytes. */
  lemma DirectoryPatched(g: Geometry, d: Disk, d': Disk, q: Desc, q': Desc, ch: seq<nat>, up: seq<nat>,
                         i: nat, o: nat, b: seq<byte>)
    requires ShowsDirectory(g, d, q, ch, up) && ShowsDirectory(g, d', q', ch, up) && |d'| == |d|
    requires g.spc > 0 && i < Sectors(g, ch) && 0 <= SectorOf(g, ch, i) < |d| && ValidDisk(d) && o + |b| <= 512
    requires d'[SectorOf(g, ch, i)] == Patch(d[SectorOf(g, ch, i)], o, b)
    requires forall s :: 0 <= s < |d| && !g.InFat(s) && s != SectorOf(g, ch, i) ==> d'[s] == d[s]
    ensures var c := DirBytes(g, d, q, ch, up);
      512 * i + o + |b| <= |c| && DirBytes(g, d', q', ch, up) == Patch(c, 512 * i + o, b)
  {
    var c, c' := DirBytes(g, d, q, ch, up), DirBytes(g, d', q', ch, up);
    DirectoryEnd(g, d, q, ch, up);
    DirectoryEnd(g, d', q', ch, up);
    DirectoryTrack(g, d, q, ch, up);
    hide DirBytes, SectorOf, Table, Sectors, ShowsDirectory, Track, Geometry.Valid, VolumeOk, Patch;
    assert 512 * i + o + |b| <= |c|;
    forall p | 0 <= p < |c| ensures c'[p] == Patch(c, 512 * i + o, b)[p] {
      DirectoryByte(g, d, q, ch, up, p);
      DirectoryByte(g, d', q', ch, up, p);
      if p / 512 == i {
        PatchInSector(c, d[SectorOf(g, ch, i)], i, o, b, p);
      } else {
        PatchElsewhere(c, i, o, b, p);
        if SectorOf(g, ch, p / 512) == SectorOf(g, ch, i) { SectorsDistinct(g, |d|, Table(g, d), ch, p / 512, i); }
      }
    }
  }

  lemma PatchInSector(c: seq<byte>, s: seq<byte>, i: nat, o: nat, b: seq<byte>, p: nat)
    requires |s| == 512 && o + |b| <= 512 && 512 * i + o + |b| <= |c| && p < |c| && p / 512 == i
    requires c[p] == s[p % 512]
    ensures Patch(c, 512 * i + o, b)[p] == Patch(s, o, b)[p % 512]
  {
    assert p == 512 * i + p % 512;
  }

  lemma PatchElsewhere(c: seq<byte>, i: nat, o: nat, b: seq<byte>, p: nat)
    requires o + |b| <= 512 && 512 * i + o + |b| <= |c| && p < |c| && p / 512 != i
    ensures Patch(c, 512 * i + o, b)[p] == c[p]
  {
    assert p == 512 * (p / 512) + p % 512;
  }

  // ---------------------------------------------------------------- deleting and creating

  /** On disk: the slot is marked as deleted, and the entry is gone from the listing, whoever reads it. */
  lemma SlotDeleted(g: Geometry, d: Disk, d': Disk, q: Desc, ch: seq<nat>, up: seq<nat>, i: nat, n: nat)
    returns (before: seq<seq<byte>>, after: seq<seq<byte>>)
    requires ShowsDirectory(g, d, q, ch, up) && |d'| == |d| && g.spc > 0 && i < Sectors(g, ch) && n < 16
    requires 0 <= SectorOf(g, ch, i) < |d| && ValidDisk(d) && d[SectorOf(g, ch, i)][n * 32] != 0
    requires d'[SectorOf(g, ch, i)] == d[SectorOf(g, ch, i)][n * 32 := 0xE5]
    requires forall s :: 0 <= s < |d| && !g.InFat(s) && s != SectorOf(g, ch, i) ==> d'[s] == d[s]
    ensures var c, k := DirBytes(g, d, q, ch, up), 16 * i + n;
      && 32 * k + 32 <= |c| && before == Listing(c[..32 * k], 0)
      && Listing(c, 0) == before + (if Visible(c, 0, k) then [c[32 * k..32 * k + 32]] else []) + after
    ensures forall q' :: ShowsDirectory(g, d', q', ch, up) ==> Listing(DirBytes(g, d', q', ch, up), 0) == before + after
  {
    hide Listing, Visible, ShowsDirectory, DirBytes, Sectors, SectorOf;
    var c, k, s := DirBytes(g, d, q, ch, up), 16 * i + n, SectorOf(g, ch, i);
    EntryByte(g, d, q, ch, up, i, n);
    before, after := MarkDeleted(c, k);
    assert d[s][n * 32 := 0xE5] == Patch(d[s], n * 32, [0xE5]);
    assert c[32 * k := 0xE5] == Patch(c, 512 * i + n * 32, [0xE5]);
    forall q' | ShowsDirectory(g, d', q', ch, up) ensures Listing(DirBytes(g, d', q', ch, up), 0) == before + after {
      DirectoryPatched(g, d, d', q, q', ch, up, i, n * 32, [0xE5]);
    }
  }

  /** Entry 16 i + n of a directory begins slot n of its i-th sector. */
  lemma EntryByte(g: Geometry, d: Disk, q: Desc, ch: seq<nat>, up: seq<nat>, i: nat, n: nat)
    requires ShowsDirectory(g, d, q, ch, up) && g.spc > 0 && i < Sectors(g, ch) && n < 16
    ensures ValidDisk(d) && 0 < SectorOf(g, ch, i) < |d|
    ensures var c, k := DirBytes(g, d, q, ch, up), 16 * i + n;
      32 * k + 32 <= |c| == 512 * Sectors(g, ch) && c[32 * k] == d[SectorOf(g, ch, i)][n * 32]
  {
    hide ShowsDirectory, DirBytes, Sectors, SectorOf;
    var k := 16 * i + n;
    assert 32 * k / 512 == i && 32 * k % 512 == n * 32;
    DirectoryEnd(g, d, q, ch, up);
    DirectoryByte(g, d, q, ch, up, 32 * k);
  }

  /** Deletes the file in slot n of the i-th sector of a directory: its entry alone is gone from the listing. */
  method DeleteListed(f: FileS, ghost q: Desc, ghost ch: seq<nat>, ghost up: seq<nat>, ghost i: nat)
    returns (ghost before: seq<seq<byte>>, ghost after: seq<seq<byte>>)
    requires f.Ready() && Deletable(f.fs.g, f.Disk(), f.Snap(), f.chain)
    requires Walkable(Table(f.fs.g, f.Disk()), f.fs.g.EndMarker())
    requires ShowsDirectory(f.fs.g, f.Disk(), q, ch, up) && f.fs.g.spc > 0 && i < Sectors(f.fs.g, ch)
    requires f.entrySector == SectorOf(f.fs.g, ch, i) && f.entrySector < |f.Disk()| && f.entryNumber < 16
    requires |f.Disk()[f.entrySector]| == 512 && f.Disk()[f.entrySector][f.entryNumber * 32] != 0
    modifies f, f.buffer, f.fs.sysbuf, f.fs.dev
    ensures var c, k := old(DirBytes(f.fs.g, f.Disk(), q, ch, up)), 16 * i + old(f.entryNumber);
      && 32 * k + 32 <= |c| && before == Listing(c[..32 * k], 0)
      && Listing(c, 0) == before + (if Visible(c, 0, k) then [c[32 * k..32 * k + 32]] else []) + after
    ensures forall q' :: ShowsDirectory(f.fs.g, f.Disk(), q', ch, up) ==>
      Listing(DirBytes(f.fs.g, f.Disk(), q', ch, up), 0) == before + after
  {
    hide Listing, Visible, ShowsDirectory, DirBytes, Sectors, SectorOf, Deletable, Walkable, Table, Inv, VolumeOk,
      Touched, ValidDisk, Zeroed;
    ghost var d := f.Disk();
    f.Delete();
    EntryByte(f.fs.g, d, q, ch, up, i, f.entryNumber);
    before, after := SlotDeleted(f.fs.g, d, f.Disk(), q, ch, up, i, f.entryNumber);
  }

  /** The bytes of a directory entry in the order of their fields: name, attributes, first cluster and size. */
  ghost predicate Describes(e: seq<byte>, f: Desc) {
    && |e| == 32 && e[..11] == f.meta.name && e[11] == f.meta.attributes
    && Value(e[26..28]) + 0x1_0000 * Value(e[20..22]) == f.first && Value(e[28..32]) == f.size
  }

  /** The inode number a listing gives for an entry is its first cluster; FAT16 has 16 bits of it. */
  lemma NumberListed(g: Geometry, e: seq<byte>)
    requires |e| == 32
    ensures FirstAt(g, e, 0) == Value(e[26..28]) + if g.fat32 then 0x1_0000 * Value(e[20..22]) else 0
  {
    Le16Value(e, 26, 0);
    Le16Value(e, 20, 0);
  }

  lemma SlotDescribes(f: Desc, reserved: byte)
    requires SlotFields(f) && f.first < 0x1_0000_0000 && f.size < 0x1_0000_0000
    ensures Describes(SlotOf(f, reserved), f)
  {
    SlotParts(f, reserved);
    hide SlotOf;
    var hi, lo := f.first / 0x1_0000, f.first % 0x1_0000;
    Le16Value([0, 0], 0, hi);
    Le16Value([0, 0], 0, lo);
    Le32Value([0, 0, 0, 0], 0, f.size);
    DigitsValue(hi);
    DigitsValue(lo);
    DigitsValue(f.size);
  }

  /** The first slot a walk over the directory finds empty is the first of its entries that is unused. */
  lemma FirstUnused(g: Geometry, d: Disk, q: Desc, ch: seq<nat>, up: seq<nat>, s: nat, n: nat) returns (i: nat)
    requires ShowsDirectory(g, d, q, ch, up) && VolumeOk(g, d) && SearchEnds(g, d, ch, s, n)
    ensures g.spc > 0 && i < Sectors(g, ch) && n < 16 && SectorOf(g, ch, i) == s
    ensures var c, k := DirBytes(g, d, q, ch, up), 16 * i + n;
      32 * k + 32 <= |c| && !Closed(c, k) && c[32 * k] == 0
  {
    hide ShowsDirectory, DirBytes, Sectors, SectorOf, VolumeOk, Track;
    DirectoryTrack(g, d, q, ch, up);
    i :|
      && EmptyOn(g, d, ch, i, n) && SectorOf(g, ch, i) == s
      && forall x, m :: EmptyOn(g, d, ch, x, m) ==> i < x || (i == x && n <= m);
    EntryByte(g, d, q, ch, up, i, n);
    var c, k := DirBytes(g, d, q, ch, up), 16 * i + n;
    forall j | 0 <= j < k ensures c[32 * j] != 0 {
      var x, m := j / 16, j % 16;
      assert j == 16 * x + m;
      EntryByte(g, d, q, ch, up, x, m);
      assert !EmptyOn(g, d, ch, x, m);
    }
  }

  /** On disk: the slot has been written, and its entry is listed behind those that were. */
  lemma SlotListed(g: Geometry, d: Disk, d': Disk, f: Desc, q: Desc, ch: seq<nat>, up: seq<nat>)
    returns (e: seq<byte>, rest: seq<seq<byte>>)
    requires ShowsDirectory(g, d, q, ch, up) && VolumeOk(g, d) && SlotWritten(d, d', f)
    requires SearchEnds(g, d, ch, f.entrySector, f.entryNumber)
    requires f.first < 0x1_0000_0000 && f.size < 0x1_0000_0000
    requires InUseMark(f.meta.name[0]) && !LabelBit(f.meta.attributes)
    ensures Describes(e, f)
    ensures forall q' :: ShowsDirectory(g, d', q', ch, up) ==>
      Listing(DirBytes(g, d', q', ch, up), 0) == Listing(DirBytes(g, d, q, ch, up), 0) + [e] + rest
  {
    hide Listing, ShowsDirectory, DirBytes, Sectors, SectorOf, VolumeOk, SearchEnds, LabelBit, Closed, Describes;
    var reserved: byte :| d' == d[f.entrySector := WithSlot(d[f.entrySector], f, reserved)];
    var i := FirstUnused(g, d, q, ch, up, f.entrySector, f.entryNumber);
    var c, k := DirBytes(g, d, q, ch, up), 16 * i + f.entryNumber;
    e := SlotOf(f, reserved);
    rest := Listing(c, k + 1);
    SlotDescribes(f, reserved);
    DescribesHead(e, f);
    hide SlotOf;
    EntryByte(g, d, q, ch, up, i, f.entryNumber);
    EntryAdded(c, k, e);
    forall q' | ShowsDirectory(g, d', q', ch, up)
      ensures Listing(DirBytes(g, d', q', ch, up), 0) == Listing(c, 0) + [e] + rest
    {
      DirectoryPatched(g, d, d', q, q', ch, up, i, f.entryNumber * 32, e);
    }
  }

  lemma DescribesHead(e: seq<byte>, f: Desc)
    requires Describes(e, f)
    ensures |e| == 32 && |f.meta.name| == 11 && e[0] == f.meta.name[0] && e[11] == f.meta.attributes
  {
    assert e[..11][0] == e[0];
  }

  /** Saves the entry of a new file: its directory lists it behind the entries it had. */
  method SaveListed(f: FileS, ghost q: Desc, ghost up: seq<nat>)
    returns (ghost e: seq<byte>, ghost rest: seq<seq<byte>>)
    requires f.Ready() && !f.flags.dirty && f.entrySector == 0
    requires f.first != 0 && f.first != f.fs.g.rootCluster && f.first < f.fs.g.EntryMax() && f.size < 0x1_0000_0000
    requires SlotFields(f.Snap()) && f.sector < |f.Disk()| && HasRoom(f.fs.g, f.Disk(), f.Snap(), f.chain, f.dir)
    requires InUseMark(f.meta.name[0]) && !LabelBit(f.meta.attributes)
    requires ShowsDirectory(f.fs.g, f.Disk(), q, f.dir, up)
    modifies f, f.buffer, f.fs.sysbuf, f.fs.dev
    ensures f.Ready() && f.dir == old(f.dir) && f.first == old(f.first) && f.size == old(f.size)
    ensures f.meta == old(f.meta) && Describes(e, f.Snap())
    ensures forall q' :: ShowsDirectory(f.fs.g, f.Disk(), q', f.dir, up) ==>
      Listing(DirBytes(f.fs.g, f.Disk(), q', f.dir, up), 0)
        == old(Listing(DirBytes(f.fs.g, f.Disk(), q, f.dir, up), 0)) + [e] + rest
  {
    hide Listing, ShowsDirectory, DirBytes, HasRoom, RunsOver, Saved, SearchEnds, SlotFound, SlotWritten, Table,
      VolumeOk, LabelBit, Describes;
    ghost var d := f.Disk();
    var _ := f.SaveInfo();
    e, rest := SlotListed(f.fs.g, d, f.Disk(), f.Snap(), q, f.dir, up);
  }
}
