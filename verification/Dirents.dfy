/** Listing a directory: its entries in order, one call of fat_get_next_dirent at a time. */
module Dirents {
  import opened Bytes
  import opened Layout
  import opened Tracks
  import opened FileSpec
  import opened FileSteps
  import opened FileBytes
  import opened File
  import opened Names

  // ---------------------------------------------------------------- the listing of a byte sequence

  /** Entry k of a directory. */
  function EntryAt(c: seq<byte>, k: nat): (e: seq<byte>)
    requires 32 * k + 32 <= |c|
    ensures |e| == 32
  {
    c[32 * k..32 * k + 32]
  }

  /** Not a long-name part, a volume label or a deleted entry. */
  predicate Shown(e: seq<byte>)
    requires |e| == 32
  {
    !(e[11] == 0x0F || e[11] / 8 % 2 == 1 || e[0] == 0xE5)
  }

  /** The first entry from k on that is shown or has no name, or the number of entries. */
  function NextIndex(c: seq<byte>, k: nat): (j: nat)
    requires 32 * k <= |c|
    ensures k <= j && 32 * j <= |c| && (32 * j + 32 <= |c| ==> EntryAt(c, j)[0] == 0 || Shown(EntryAt(c, j)))
    ensures forall i :: k <= i < j ==> EntryAt(c, i)[0] != 0 && !Shown(EntryAt(c, i))
    decreases |c| - 32 * k
  {
    if 32 * k + 32 > |c| || EntryAt(c, k)[0] == 0 || Shown(EntryAt(c, k)) then k else NextIndex(c, k + 1)
  }

  /** Nothing is left from entry j on: the bytes run out or there is an entry without a name. */
  predicate AtEnd(c: seq<byte>, j: nat)
    requires 32 * j <= |c|
  {
    32 * j + 32 > |c| || EntryAt(c, j)[0] == 0
  }

  /** The entries a directory lists from entry k on. */
  function Listing(c: seq<byte>, k: nat): (l: seq<seq<byte>>)
    requires 32 * k <= |c|
    ensures forall x :: 0 <= x < |l| ==> |l[x]| == 32
    decreases |c| - 32 * k
  {
    var j := NextIndex(c, k);
    if AtEnd(c, j) then [] else [EntryAt(c, j)] + Listing(c, j + 1)
  }

  /** Entry i is in front of the first entry without a name. */
  ghost predicate InFront(c: seq<byte>, k: nat, i: nat)
    requires 32 * k <= |c|
  {
    k <= i && 32 * i + 32 <= |c| && forall x :: k <= x <= i ==> EntryAt(c, x)[0] != 0
  }

  /** The entries that a listing from k on has to show, by their indices. */
  ghost predicate Wanted(c: seq<byte>, k: nat, i: nat)
    requires 32 * k <= |c|
  {
    InFront(c, k, i) && Shown(EntryAt(c, i))
  }

  /**
   The listing is the entries at an increasing sequence of indices, which are exactly those of
   the entries in front of the first one without a name that are shown.
   */
  lemma {:induction false} ListingExact(c: seq<byte>, k: nat) returns (s: seq<nat>)
    requires 32 * k <= |c|
    ensures |s| == |Listing(c, k)|
    ensures forall x :: 0 <= x < |s| ==> 32 * s[x] + 32 <= |c| && Listing(c, k)[x] == EntryAt(c, s[x])
    ensures forall x, y :: 0 <= x < y < |s| ==> s[x] < s[y]
    ensures forall i :: i in s <==> Wanted(c, k, i)
    decreases |c| - 32 * k
  {
    hide EntryAt, NextIndex, Wanted;
    var j := NextIndex(c, k);
    if AtEnd(c, j) {
      s := [];
      forall i: nat ensures !Wanted(c, k, i) {
        NothingWanted(c, k, i);
      }
    } else {
      var t := ListingExact(c, j + 1);
      s := [j] + t;
      forall i: nat ensures i in s <==> Wanted(c, k, i) {
        WantedNext(c, k, i);
      }
      forall x, y | 0 <= x < y < |s| ensures s[x] < s[y] {
        assert s[y] in t;
        WantedAfter(c, j + 1, s[y]);
      }
    }
  }

  lemma WantedAfter(c: seq<byte>, k: nat, i: nat)
    requires 32 * k <= |c| && Wanted(c, k, i)
    ensures k <= i
  {
  }

  lemma NothingWanted(c: seq<byte>, k: nat, i: nat)
    requires 32 * k <= |c| && AtEnd(c, NextIndex(c, k))
    ensures !Wanted(c, k, i)
  {
    hide EntryAt, NextIndex, Shown;
    InFrontAt(c, k, i, NextIndex(c, k));
  }

  lemma InFrontAt(c: seq<byte>, k: nat, i: nat, x: nat)
    requires 32 * k <= |c|
    ensures InFront(c, k, i) && k <= x <= i ==> 32 * x + 32 <= |c| && EntryAt(c, x)[0] != 0
  {
  }

  lemma WantedNext(c: seq<byte>, k: nat, i: nat)
    requires 32 * k <= |c| && !AtEnd(c, NextIndex(c, k))
    ensures var j := NextIndex(c, k); Wanted(c, k, i) <==> i == j || Wanted(c, j + 1, i)
  {
    hide EntryAt, NextIndex, Shown;
  }

  /** A step of the search: a skipped entry does not change what comes next. */
  lemma Skipped(c: seq<byte>, k: nat)
    requires 32 * k + 32 <= |c| && EntryAt(c, k)[0] != 0 && !Shown(EntryAt(c, k))
    ensures NextIndex(c, k) == NextIndex(c, k + 1)
  {
  }

  // ---------------------------------------------------------------- the fixed root directory

  /** An entry without a name among the entries from k on in the first n bytes. */
  ghost predicate Ends(c: seq<byte>, n: nat, k: nat)
    requires n <= |c|
  {
    exists i :: k <= i && 32 * i + 32 <= n && EntryAt(c, i)[0] == 0
  }

  /** The listing of the first n bytes, when more follow: it is the whole one, or the rest is listed behind it. */
  lemma {:induction false} CutListing(c: seq<byte>, n: nat, k: nat)
    requires n % 32 == 0 && 32 * k <= n <= |c|
    ensures if Ends(c, n, k) then Listing(c, k) == Listing(c[..n], k)
            else Listing(c, k) == Listing(c[..n], k) + Listing(c, n / 32)
    decreases n - 32 * k
  {
    hide EntryAt, Shown, Listing;
    if 32 * k == n {
      ListingStep(c[..n], k);
      assert !Ends(c, n, k);
    } else {
      assert 32 * k + 32 <= n;
      CutEntry(c, n, k);
      ListingHere(c, k);
      ListingHere(c[..n], k);
      if EntryAt(c, k)[0] == 0 {
        assert Ends(c, n, k);
      } else {
        CutListing(c, n, k + 1);
        EndsNext(c, n, k);
      }
    }
  }

  lemma CutEntry(c: seq<byte>, n: nat, i: nat)
    requires 32 * i + 32 <= n <= |c|
    ensures EntryAt(c[..n], i) == EntryAt(c, i)
  {
  }

  lemma EndsNext(c: seq<byte>, n: nat, k: nat)
    requires n <= |c| && 32 * k + 32 <= n && EntryAt(c, k)[0] != 0
    ensures Ends(c, n, k) <==> Ends(c, n, k + 1)
  {
    hide EntryAt;
  }

  /** The listing from an entry on, one entry at a time. */
  lemma ListingHere(c: seq<byte>, k: nat)
    requires 32 * k + 32 <= |c|
    ensures EntryAt(c, k)[0] == 0 ==> Listing(c, k) == []
    ensures EntryAt(c, k)[0] != 0 ==>
      Listing(c, k) == (if Shown(EntryAt(c, k)) then [EntryAt(c, k)] else []) + Listing(c, k + 1)
  {
    hide EntryAt, Shown;
    if EntryAt(c, k)[0] != 0 && !Shown(EntryAt(c, k)) { Skipped(c, k); }
  }

  /** The bytes of a fixed root directory of len sectors, of which a walk reads one sector more. */
  function Own(c: seq<byte>, len: nat): (r: seq<byte>)
    requires 512 * len <= |c|
    ensures |r| == 512 * len
  {
    c[..512 * len]
  }

  /** The root directory has an unused entry, or nothing is listed of the sector behind it. */
  ghost predicate RootCloses(c: seq<byte>, len: nat)
    requires 512 * len <= |c|
  {
    Ends(c, 512 * len, 0) || Listing(c, 16 * len) == []
  }

  /**
   Listing the fixed root directory gives its entries if and only if one of them is unused or the
   sector behind it lists nothing; otherwise that sector's entries come after them.
   */
  lemma RootListing(g: Geometry, d: Disk, f: Desc, ch: seq<nat>, dir: seq<nat>)
    requires Inv(g, d, f, ch, dir) && f.IsDir() && IsRoot(g, ch)
    ensures var c := Content(g, d, f, ch, dir);
      && |c| == 512 * g.rootLen + 512
      && (Listing(c, 0) == Listing(Own(c, g.rootLen), 0) <==> RootCloses(c, g.rootLen))
      && (!RootCloses(c, g.rootLen) ==> Listing(c, 0) == Listing(Own(c, g.rootLen), 0) + Listing(c, 16 * g.rootLen))
  {
    var c := Content(g, d, f, ch, dir);
    DirectoryLength(g, d, f, ch, dir);
    hide Inv, Content, Listing;
    assert 512 * g.rootLen / 32 == 16 * g.rootLen && 512 * g.rootLen % 32 == 0;
    CutListing(c, 512 * g.rootLen, 0);
  }

  lemma RestListed(c: seq<byte>, len: nat)
    requires 512 * len <= |c| && !RootCloses(c, len)
    ensures Listing(c, 16 * len) != []
  {
    hide Listing;
  }

  /** The bytes that make up the root directory, and those that do not, on the disk. */
  lemma RootBytes(g: Geometry, d: Disk, f: Desc, ch: seq<nat>, dir: seq<nat>, p: nat)
    requires Inv(g, d, f, ch, dir) && f.IsDir() && IsRoot(g, ch) && p < 512 * g.rootLen + 512
    ensures ValidDisk(d) && g.rootStart + p / 512 < |d| && |Content(g, d, f, ch, dir)| == 512 * g.rootLen + 512
    ensures Content(g, d, f, ch, dir)[p] == d[g.rootStart + p / 512][p % 512]
  {
    DirectoryLength(g, d, f, ch, dir);
    ContentAt(g, d, f, ch, dir, p);
    RootClean(g, d, f, ch, dir);
    hide Inv, Content;
    InvReadable(g, d, f, ch, dir);
  }

  lemma RootClean(g: Geometry, d: Disk, f: Desc, ch: seq<nat>, dir: seq<nat>)
    requires Inv(g, d, f, ch, dir) && f.IsDir() && IsRoot(g, ch)
    ensures !f.flags.dirty && f.sector != 0
  {
  }

  // ---------------------------------------------------------------- the calls

  /** What a directory is while it is listed: k is the entry the position is on. */
  ghost predicate Listable(f: FileS, k: nat)
    reads f, f.buffer, f.fs, f.fs.dev
  {
    && f.Ready() && f.Ok() && f.IsDirectory() && f.flags.isOpen && f.flags.canRead && !f.flags.canWrite
    && f.Snap().Pos() == 32 * k
  }

  /** The bytes of a directory are whole sectors. */
  lemma WholeEntries(g: Geometry, d: Disk, f: Desc, ch: seq<nat>, dir: seq<nat>)
    requires Inv(g, d, f, ch, dir) && f.IsDir()
    ensures |Content(g, d, f, ch, dir)| % 32 == 0 && f.Pos() <= |Content(g, d, f, ch, dir)|
  {
    hide Inv, Content, Sectors;
    InvReadable(g, d, f, ch, dir);
    DirectoryLength(g, d, f, ch, dir);
    SixteenASector(Sectors(g, ch));
  }

  lemma SixteenASector(n: nat)
    ensures n * 512 % 32 == 0
  {
    assert n * 512 == 32 * (16 * n);
  }

  lemma DirectoryLength(g: Geometry, d: Disk, f: Desc, ch: seq<nat>, dir: seq<nat>)
    requires Inv(g, d, f, ch, dir) && f.IsDir()
    ensures |Content(g, d, f, ch, dir)| == Sectors(g, ch) * 512
  {
    hide Table, Sectors, VolumeOk;
  }

  /** The bytes and the place of a directory after a read. */
  lemma ReadOn(g: Geometry, d0: Disk, f0: Desc, ch0: seq<nat>, dir: seq<nat>, d: Disk, f: Desc, ch: seq<nat>,
               c: seq<byte>, pos: nat)
    requires Worked(g, d0, f0, ch0, dir, d, f, ch, c, pos) && f0.IsDir()
    ensures Inv(g, d, f, ch, dir) && f.IsDir() && Content(g, d, f, ch, dir) == c && f.Pos() == pos
    ensures f.flags.isOpen == f0.flags.isOpen && f.flags.canRead == f0.flags.canRead
    ensures f.flags.canWrite == f0.flags.canWrite
  {
  }

  /** Reads entry i whole, or nothing at the end of the directory. */
  method ReadEntry(f: FileS, de: array<byte>, today: seq<byte>, ghost c: seq<byte>, ghost i: nat) returns (n: int)
    requires Listable(f, i) && |today| == 2 && de.Length == 32 && de != f.buffer && de != f.fs.sysbuf
    requires c == Content(f.fs.g, f.Disk(), f.Snap(), f.chain, f.dir)
    modifies f, f.buffer, f.fs.sysbuf, f.fs.dev, de
    ensures f.Disk() == old(f.Disk()) && f.chain == old(f.chain) && f.dir == old(f.dir)
    ensures |c| % 32 == 0 && 32 * i <= |c|
    ensures if 32 * i < |c| then n == 32 && 32 * i + 32 <= |c| && de[..] == EntryAt(c, i) && Listable(f, i + 1)
            else n == 0 && Listable(f, i)
    ensures Content(f.fs.g, f.Disk(), f.Snap(), f.chain, f.dir) == c
  {
    hide Inv, Content, VolumeOk, Worked, Filled, Table, ValidDisk;
    ghost var g, d1, f1, ch1, out0 := f.fs.g, f.Disk(), f.Snap(), f.chain, de[..];
    WholeEntries(g, d1, f1, ch1, f.dir);
    n := f.Read(de, 32, today);
    ReadOn(g, d1, f1, ch1, f.dir, f.Disk(), f.Snap(), f.chain, c, 32 * i + n);
    if n == 32 {
      FilledEntry(de[..], c, i, out0);
    }
  }

  /** The next entry that is shown; -1 at the end of the directory. */
  method GetNextDirent(f: FileS, dName: array<byte>, today: seq<byte>, ghost k: nat)
    returns (r: int, ino: nat, ghost e: seq<byte>)
    requires Listable(f, k) && |today| == 2 && dName.Length >= 13 && dName != f.buffer && dName != f.fs.sysbuf
    modifies f, f.buffer, f.fs.sysbuf, f.fs.dev, dName
    ensures f.Disk() == old(f.Disk()) && f.chain == old(f.chain) && f.dir == old(f.dir)
    ensures var c := old(Content(f.fs.g, f.Disk(), f.Snap(), f.chain, f.dir));
      && 32 * k <= |c| && |c| % 32 == 0
      && var j := NextIndex(c, k);
        && (r == -1 <==> AtEnd(c, j)) && (r == -1 || r == 0)
        && (r == 0 ==> e == EntryAt(c, j) && HoldsString(dName[..], ToString(e[..11])) && ino == FirstAt(f.fs.g, e, 0))
        && Listable(f, if 32 * j == |c| then j else j + 1)
        && Content(f.fs.g, f.Disk(), f.Snap(), f.chain, f.dir) == c
  {
    hide Inv, Content, VolumeOk, Worked, Filled, NextIndex, ToString, Table, ValidDisk;
    ghost var g, d0, f0, ch0 := f.fs.g, f.Disk(), f.Snap(), f.chain;
    ghost var c := Content(g, d0, f0, ch0, f.dir);
    WholeEntries(g, d0, f0, ch0, f.dir);
    var de := new byte[32];
    ghost var i := k;
    e, ino := [], 0;
    while true
      invariant k <= i && 32 * i <= |c| && NextIndex(c, i) == NextIndex(c, k)
      invariant Listable(f, i) && f.Disk() == d0 && f.chain == ch0 && f.dir == old(f.dir)
      invariant Content(g, f.Disk(), f.Snap(), f.chain, f.dir) == c
      invariant fresh(de)
      decreases |c| - 32 * i
    {
      NextHere(c, i);
      var n := ReadEntry(f, de, today, c, i);
      if n < 32 {
        return -1, 0, e;
      }
      if de[0] == 0 {
        return -1, 0, e;
      }
      if !(de[11] == 0x0F || de[11] / 8 % 2 == 1 || de[0] == 0xE5) {
        e := de[..];
        FatnameToStr(dName, de[..11]);
        assert de[..11] == e[..11];
        ino := FirstAt(f.fs.g, de[..], 0);
        return 0, ino, e;
      }
      Skipped(c, i);
      i := i + 1;
    }
  }

  lemma NextHere(c: seq<byte>, i: nat)
    requires 32 * i <= |c|
    ensures AtEnd(c, i) || Shown(EntryAt(c, i)) ==> NextIndex(c, i) == i
  {
  }

  lemma FilledEntry(out: seq<byte>, c: seq<byte>, i: nat, out0: seq<byte>)
    requires Filled(out, c, 32 * i, 32, out0) && |out0| == 32
    ensures 32 * i + 32 <= |c| && out == EntryAt(c, i)
  {
  }

  lemma ListingStep(c: seq<byte>, k: nat)
    requires 32 * k <= |c|
    ensures var j := NextIndex(c, k);
      && (AtEnd(c, j) ==> Listing(c, k) == [])
      && (!AtEnd(c, j) ==> Listing(c, k) == [EntryAt(c, j)] + Listing(c, j + 1))
  {
  }

  /** Calls GetNextDirent until it reports the end: the names of exactly the listed entries, in order, as buffers. */
  method List(f: FileS, today: seq<byte>) returns (names: seq<seq<byte>>)
    requires Listable(f, 0) && |today| == 2
    modifies f, f.buffer, f.fs.sysbuf, f.fs.dev
    ensures f.Disk() == old(f.Disk())
    ensures var c := old(Content(f.fs.g, f.Disk(), f.Snap(), f.chain, f.dir));
      && |names| == |Listing(c, 0)|
      && forall x :: 0 <= x < |names| ==> HoldsString(names[x], ToString(Listing(c, 0)[x][..11]))
  {
    hide Inv, Content, VolumeOk, NextIndex, ToString, ValidDisk, EntryAt, HoldsString, Listing;
    ghost var c := Content(f.fs.g, f.Disk(), f.Snap(), f.chain, f.dir);
    WholeEntries(f.fs.g, f.Disk(), f.Snap(), f.chain, f.dir);
    var dName := new byte[13];
    ghost var k: nat := 0;
    names := [];
    while true
      invariant Listable(f, k) && f.Disk() == old(f.Disk()) && 32 * k <= |c| && |c| % 32 == 0
      invariant Content(f.fs.g, f.Disk(), f.Snap(), f.chain, f.dir) == c
      invariant |names| + |Listing(c, k)| == |Listing(c, 0)|
      invariant forall x :: 0 <= x < |names| ==> HoldsString(names[x], ToString(Listing(c, 0)[x][..11]))
      invariant Listing(c, k) == Listing(c, 0)[|names|..]
      invariant fresh(dName)
      decreases |c| - 32 * k
    {
      ghost var e; var r, ino;
      r, ino, e := GetNextDirent(f, dName, today, k);
      if r < 0 {
        ListingStep(c, k);
        return;
      }
      ListingStep(c, k);
      assert Listing(c, k)[0] == e && Listing(c, 0)[|names|] == e;
      names := names + [dName[..]];
      k := NextIndex(c, k) + 1;
    }
  }

  /** Lists the fixed root directory: its own entries, and those of the sector behind it unless it closes. */
  method ListRoot(f: FileS, today: seq<byte>) returns (names: seq<seq<byte>>)
    requires Listable(f, 0) && |today| == 2 && IsRoot(f.fs.g, f.chain)
    modifies f, f.buffer, f.fs.sysbuf, f.fs.dev
    ensures f.Disk() == old(f.Disk())
    ensures var c, len := old(Content(f.fs.g, f.Disk(), f.Snap(), f.chain, f.dir)), f.fs.g.rootLen;
      && |c| == 512 * len + 512
      && (|names| == |Listing(Own(c, len), 0)| <==> RootCloses(c, len))
      && forall x :: 0 <= x < |Listing(Own(c, len), 0)| ==>
           x < |names| && HoldsString(names[x], ToString(Listing(Own(c, len), 0)[x][..11]))
  {
    hide Inv, Content, VolumeOk, ToString, ValidDisk, HoldsString, Listing, RootCloses, IsRoot;
    ghost var c, len := Content(f.fs.g, f.Disk(), f.Snap(), f.chain, f.dir), f.fs.g.rootLen;
    RootListing(f.fs.g, f.Disk(), f.Snap(), f.chain, f.dir);
    if !RootCloses(c, len) { RestListed(c, len); }
    names := List(f, today);
  }
}
