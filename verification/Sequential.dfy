/** Writing a new file from start to end: nothing is allocated ahead of need. */
module Sequential {
  import opened Bytes
  import opened Division
  import opened Chains
  import opened Layout
  import opened Tracks
  import opened FileSpec
  import opened FileBytes
  import opened FileView
  import opened FileSeek
  import opened FileSteps
  import opened FileStore
  import opened File

  /** How many clusters n bytes need. */
  function ClustersFor(g: Geometry, n: nat): nat
    requires g.spc > 0
  {
    Quot(n + 512 * g.spc - 1, 512 * g.spc)
  }

  /** That is the least number of clusters with room for n bytes. */
  lemma LeastClusters(g: Geometry, n: nat, k: nat)
    requires g.spc > 0
    ensures n <= k * (512 * g.spc) <==> ClustersFor(g, n) <= k
  {
    var s, q := 512 * g.spc, ClustersFor(g, n);
    QuotRem(n + s - 1, s);
    if q <= k { ProductMonotone(q, k, s); }
    if k < q {
      ProductMonotone(k + 1, q, s);
      assert (k + 1) * s == k * s + s;
    }
  }

  /** A chain that holds n bytes, the last of them not in front of its last cluster, has just the clusters they need. */
  lemma ExactClusters(g: Geometry, n: nat, ch: seq<nat>, fileSector: nat, cursor: nat)
    requires g.spc > 0 && |ch| > 0 && n == fileSector * 512 + cursor && 0 < cursor
    requires (|ch| - 1) * g.spc <= fileSector && n <= |ch| * g.spc * 512
    ensures |ch| == ClustersFor(g, n)
  {
    var s := 512 * g.spc;
    var r := n - 1 - (|ch| - 1) * s;
    assert (|ch| - 1) * g.spc * 512 == (|ch| - 1) * s && |ch| * g.spc * 512 == |ch| * s;
    assert |ch| * s == (|ch| - 1) * s + s;
    QuotRemUnique(|ch|, r, s);
    assert |ch| * s + r == n + s - 1;
  }

  lemma NoClusters(g: Geometry)
    requires g.spc > 0
    ensures ClustersFor(g, 0) == 0
  {
    QuotRemUnique(0, 512 * g.spc - 1, 512 * g.spc);
  }

  lemma SpliceEnd(c: seq<byte>, data: seq<byte>)
    ensures Splice(c, |c|, data) == c + data
  {
  }

  lemma StartsEmpty(g: Geometry, d: Disk, f: Desc, ch: seq<nat>, dir: seq<nat>)
    requires Inv(g, d, f, ch, dir) && !f.IsDir() && ch == [] && f.size == 0
    ensures Worked(g, d, f, ch, dir, d, f, ch, [], 0) && g.spc > 0
  {
    WorkedNothing(g, d, f, ch, dir);
    assert |Content(g, d, f, ch, dir)| == 0;
  }

  lemma EmptyClean(g: Geometry, d: Disk, f: Desc, ch: seq<nat>, dir: seq<nat>)
    requires Inv(g, d, f, ch, dir) && !f.IsDir()
    ensures ch == [] && f.size == 0 ==> !f.flags.dirty
  {
  }

  /** Work on a file leaves its open mode and its name alone. */
  lemma SameMode(g: Geometry, d0: Disk, f0: Desc, ch0: seq<nat>, dir: seq<nat>, d: Disk, f: Desc, ch: seq<nat>,
      c: seq<byte>, pos: nat)
    requires Worked(g, d0, f0, ch0, dir, d, f, ch, c, pos)
    ensures f.flags == f0.flags.(dirty := f.flags.dirty, fsDirty := f.flags.fsDirty)
    ensures f.meta.name == f0.meta.name
    ensures Frame(g, d0, d, ch0, ch, f.entrySector, f.entryNumber)
  {
  }

  /**
   What writing a new file leaves: the bytes under its name, in a slot that was its own or an empty one
   of its parent directory, and nothing changed outside its frame.
   */
  ghost predicate Written(g: Geometry, d0: Disk, f0: Desc, dir: seq<nat>, d: Disk, f: Desc, ch: seq<nat>,
                          c: seq<byte>) {
    if ch == [] then c == [] && (f0.entrySector == 0 ==> d == d0 && f.entrySector == 0) else
    && OnDisk(g, d, f.entrySector, f.entryNumber, ch, c)
    && SlotName(d[f.entrySector], f.entryNumber) == f0.meta.name
    && Frame(g, d0, d, [], ch, f.entrySector, f.entryNumber)
    && (if f0.entrySector != 0 then f.entrySector == f0.entrySector && f.entryNumber == f0.entryNumber
        else VolumeOk(g, d0) && SlotFound(g, d0, dir, f.entrySector, f.entryNumber))
  }

  /** The outcome of the last write and the close put together. */
  lemma ClosedTight(g: Geometry, d0: Disk, f0: Desc, dir: seq<nat>, d1: Disk, f1: Desc, ch1: seq<nat>,
                    d: Disk, f: Desc, ch: seq<nat>, c: seq<byte>)
    requires Worked(g, d0, f0, [], dir, d1, f1, ch1, c, |c|) && Closed(g, d1, f1, ch1, dir, d, f, ch, c) && g.spc > 0
    requires Needed(g, [], f.fileSector, ch) && |c| == f.Pos() && (|c| > 0 ==> f.cursor > 0) && !f0.IsDir()
    requires |c| == 0 ==> ch == []
    ensures Written(g, d0, f0, dir, d, f, ch, c) && |ch| == ClustersFor(g, |c|)
  {
    hide OnDisk, Frame, Worked, ClustersFor, VolumeOk, SlotFound;
    var f2 := Unclosed(f, f1);
    WorkedMore(g, d0, f0, [], dir, d1, f1, ch1, c, |c|, d, f2, ch, c, f.Pos());
    SameMode(g, d0, f0, [], dir, d, f2, ch, c, f.Pos());
    if f.sector == 0 {
      NoClusters(g);
      NothingWritten(g, d0, f0, dir, d, f2, c);
    } else {
      ChainHolds(g, d, f.entrySector, f.entryNumber, ch, c);
      ExactClusters(g, |c|, ch, f.fileSector, f.cursor);
      SlotTaken(g, d0, f0, dir, d, f2, ch, c);
    }
  }

  /** A file that has got no cluster has got no entry and left the disk alone. */
  lemma NothingWritten(g: Geometry, d0: Disk, f0: Desc, dir: seq<nat>, d: Disk, f: Desc, c: seq<byte>)
    requires Worked(g, d0, f0, [], dir, d, f, [], c, f.Pos()) && !f0.IsDir()
    ensures f0.entrySector == 0 ==> d == d0 && f.entrySector == 0
  {
    hide Frame, Content;
  }

  lemma SlotTaken(g: Geometry, d0: Disk, f0: Desc, dir: seq<nat>, d: Disk, f: Desc, ch: seq<nat>, c: seq<byte>)
    requires Worked(g, d0, f0, [], dir, d, f, ch, c, f.Pos()) && !f0.IsDir() && f.entrySector != 0
    ensures f0.entrySector != 0 ==> f.entrySector == f0.entrySector && f.entryNumber == f0.entryNumber
    ensures f0.entrySector == 0 ==> VolumeOk(g, d0) && SlotFound(g, d0, dir, f.entrySector, f.entryNumber)
    ensures ValidDisk(d) && f.entrySector < |d| && f.entryNumber < 16
    ensures SlotName(d[f.entrySector], f.entryNumber) == f0.meta.name
  {
    hide Frame, Table, Content, Placed, Unplaced, HasSlot, SlotFound;
  }

  lemma ChainHolds(g: Geometry, d: Disk, es: nat, en: nat, ch: seq<nat>, c: seq<byte>)
    requires OnDisk(g, d, es, en, ch, c)
    ensures |c| <= |ch| * g.spc * 512 && es != 0 && ch != []
  {
    assert ch[0] >= 2;
  }

  // ---------------------------------------------------------------- whether the volume has room

  /** The volume has the clusters n bytes need. */
  ghost predicate HasRoomFor(g: Geometry, d: Disk, n: nat) {
    HasFat(g, d) && g.spc > 0 && ClustersFor(g, n) + InUse(Table(g, d)) <= g.Entries()
  }

  /** More bytes than n clusters hold need another one. */
  lemma MoreClusters(g: Geometry, bytes: nat, n: nat)
    requires g.spc > 0 && bytes > n * g.spc * 512
    ensures ClustersFor(g, bytes) > n
  {
    var s, x := 512 * g.spc, bytes + 512 * g.spc - 1;
    assert n * g.spc * 512 == n * s && (n + 1) * s == n * s + s;
    QuotRem(x, s);
    var q := Quot(x, s);
    if q <= n { ProductMonotone(q, n, s); }
  }

  /** A file that has grown from nothing has taken its clusters from the free ones. */
  lemma GrownFromNothing(g: Geometry, d0: Disk, d: Disk, ch: seq<nat>, es: nat, en: nat)
    requires Frame(g, d0, d, [], ch, es, en) && NoneOrChain(Table(g, d), g.EndMarker(), g.limit, ch)
    ensures InUse(Table(g, d)) == InUse(Table(g, d0)) + |ch| && InUse(Table(g, d)) <= g.Entries() && g.spc > 0
  {
    hide Table;
    TakenCount(Table(g, d0), Table(g, d), g.EndMarker(), g.limit, ch);
    FullCount(Table(g, d));
  }

  /** A new file that cannot take another byte, of more bytes than it has, does not fit the volume. */
  lemma NoRoomLeft(g: Geometry, d0: Disk, f0: Desc, dir: seq<nat>, d: Disk, f: Desc, ch: seq<nat>, c: seq<byte>,
                   total: nat)
    requires Worked(g, d0, f0, [], dir, d, f, ch, c, |c|) && !f0.IsDir() && f0.flags.canWrite
    requires if NoRoom(g, d, f) then total > 0 else Blocked(g, d, f, ch) && total > |c|
    ensures !HasRoomFor(g, d0, total)
  {
    hide Content, Frame, ClustersFor, InUse, Table, SlotStep;
    WorkedFacts(g, d0, f0, [], dir, d, f, ch, c, |c|);
    FullCount(Table(g, d));
    LastCluster(g, d, f, ch, dir);
    GrownFromNothing(g, d0, d, ch, f.entrySector, f.entryNumber);
    MoreClusters(g, total, |ch|);
  }

  /** What is known of a file that cannot take another byte. */
  lemma LastCluster(g: Geometry, d: Disk, f: Desc, ch: seq<nat>, dir: seq<nat>)
    requires Inv(g, d, f, ch, dir) && !f.IsDir() && f.flags.canWrite && (NoRoom(g, d, f) || Blocked(g, d, f, ch))
    ensures Full(Table(g, d)) && NoneOrChain(Table(g, d), g.EndMarker(), g.limit, ch) && g.spc > 0
    ensures if NoRoom(g, d, f) then ch == [] else f.Pos() == |ch| * g.spc * 512
  {
    hide Table, IsChain, Synced, Titled, SectorOf, ClusterOf, LeftAt, Quiet;
    if f.sector != 0 { ChainOf(g, d, f, ch, dir); }
  }

  /** A new file on disk has had room. */
  lemma RoomTaken(g: Geometry, d0: Disk, f0: Desc, dir: seq<nat>, d: Disk, f: Desc, ch: seq<nat>, c: seq<byte>)
    requires Worked(g, d0, f0, [], dir, d, f, ch, c, f.Pos()) && !f0.IsDir()
    requires g.spc > 0 && |ch| == ClustersFor(g, |c|)
    ensures HasRoomFor(g, d0, |c|)
  {
    hide Content, Frame, ClustersFor, InUse, Table, SlotStep;
    ChainHere(g, d, f, ch, dir);
    FrameFat(g, d0, d, ch, f.entrySector, f.entryNumber);
    GrownFromNothing(g, d0, d, ch, f.entrySector, f.entryNumber);
  }

  lemma ChainHere(g: Geometry, d: Disk, f: Desc, ch: seq<nat>, dir: seq<nat>)
    requires Inv(g, d, f, ch, dir)
    ensures HasFat(g, d) && (!f.IsDir() ==> NoneOrChain(Table(g, d), g.EndMarker(), g.limit, ch))
  {
    hide Table, IsChain;
  }

  lemma FrameFat(g: Geometry, d: Disk, d': Disk, ch': seq<nat>, es: nat, en: nat)
    requires Frame(g, d, d', [], ch', es, en)
    ensures HasFat(g, d) && HasFat(g, d')
  {
  }

  /**
   A new, empty file is written piece by piece and closed. That succeeds if and only if the volume has the
   clusters its bytes need. Its slot then describes exactly the pieces, and its chain has exactly those
   clusters.
   */
  method WriteNew(f: FileS, pieces: seq<seq<byte>>, now: seq<byte>) returns (r: int)
    requires f.Ready() && f.Ok() && !f.IsDirectory() && |now| == 4 && |Concat(pieces)| < 0x8000_0000
    requires f.flags.isOpen && f.flags.canWrite && !f.flags.append && f.chain == [] && f.size == 0
    modifies f, f.buffer, f.fs.sysbuf, f.fs.dev
    ensures f.Ready() && (r == 0 || r == -1) && f.dir == old(f.dir)
    ensures r == 0 <==> HasRoomFor(f.fs.g, old(f.Disk()), |Concat(pieces)|)
    ensures r == 0 ==>
      && Written(f.fs.g, old(f.Disk()), old(f.Snap()), f.dir, f.Disk(), f.Snap(), f.chain, Concat(pieces))
      && f.fs.g.spc > 0 && |f.chain| == ClustersFor(f.fs.g, |Concat(pieces)|)
  {
    hide VolumeOk, Inv, Content, Worked, Closed, Written, Concat, Splice, NoRoom, Blocked, ValidDisk, ClustersFor,
      HasRoomFor, View, Resting, Roomy, Shows, Synced;
    ghost var g, d0, f0 := f.fs.g, f.Disk(), f.Snap();
    StartsEmpty(g, d0, f0, f.chain, f.dir);
    ConcatNone(pieces);
    ghost var c: seq<byte> := [];
    var i := 0;
    while i < |pieces|
      invariant i <= |pieces| && c == Concat(pieces[..i])
      invariant f.Ready() && f.dir == old(f.dir) && f.flags.isOpen && f.flags.canWrite && !f.flags.append
      invariant Worked(g, d0, f0, [], f.dir, f.Disk(), f.Snap(), f.chain, c, |c|)
      invariant Needed(g, [], f.fileSector, f.chain) && (|c| > 0 ==> f.cursor > 0) && (c == [] ==> f.chain == [])
    {
      ghost var d1, f1, ch1 := f.Disk(), f.Snap(), f.chain;
      WorkedFacts(g, d0, f0, [], f.dir, d1, f1, ch1, c, |c|);
      ConcatStep(pieces, i);
      ConcatPrefix(pieces, i + 1);
      var n; ghost var k;
      n, k := f.Write(pieces[i], now);
      SpliceEnd(c, pieces[i][..k]);
      ghost var c2 := c + pieces[i][..k];
      WorkedMore(g, d0, f0, [], f.dir, d1, f1, ch1, c, |c|, f.Disk(), f.Snap(), f.chain, c2, |c| + k);
      if n < 0 {
        NoRoomLeft(g, d0, f0, f.dir, f.Disk(), f.Snap(), f.chain, c2, |Concat(pieces)|);
        return -1;
      }
      assert pieces[i][..k] == pieces[i];
      SameMode(g, d0, f0, [], f.dir, f.Disk(), f.Snap(), f.chain, c2, |c| + k);
      NeededTrans(g, [], f1.fileSector, ch1, f.fileSector, f.chain);
      c := c2;
      i := i + 1;
    }
    assert pieces[..i] == pieces;
    r := CloseNew(f, d0, f0, c);
  }

  /** The close of a new file that has been written whole. */
  method CloseNew(f: FileS, ghost d0: Disk, ghost f0: Desc, ghost c: seq<byte>) returns (r: int)
    requires f.Ready() && f.flags.isOpen && f.flags.canWrite && !f0.IsDir() && f0.flags.canWrite
    requires Worked(f.fs.g, d0, f0, [], f.dir, f.Disk(), f.Snap(), f.chain, c, |c|) && Roomy(f.fs.g, d0, f0, f.dir)
    requires Needed(f.fs.g, [], f.fileSector, f.chain) && (|c| > 0 ==> f.cursor > 0) && (c == [] ==> f.chain == [])
    modifies f, f.buffer, f.fs.sysbuf, f.fs.dev
    ensures f.Ready() && (r == 0 || r == -1) && f.dir == old(f.dir)
    ensures r == 0 <==> HasRoomFor(f.fs.g, d0, |c|)
    ensures r == 0 ==>
      && Written(f.fs.g, d0, f0, f.dir, f.Disk(), f.Snap(), f.chain, c)
      && f.fs.g.spc > 0 && |f.chain| == ClustersFor(f.fs.g, |c|)
  {
    hide VolumeOk, Inv, Content, Worked, Closed, Written, NoRoom, Blocked, ValidDisk, ClustersFor, HasRoomFor, View,
      Resting, Roomy, Shows, Synced;
    ghost var g, d1, f1, ch1, dir := f.fs.g, f.Disk(), f.Snap(), f.chain, f.dir;
    WorkedFacts(g, d0, f0, [], dir, d1, f1, ch1, c, |c|);
    EmptyClean(g, d1, f1, ch1, dir);
    ViewSame(g, d1, f1, ch1, dir);
    VolumeSpc(g, d1);
    r := f.Close();
    if r == 0 {
      NeededTrans(g, [], f1.fileSector, ch1, f.fileSector, f.chain);
      ClosedTight(g, d0, f0, dir, d1, f1, ch1, f.Disk(), f.Snap(), f.chain, c);
      ClosedRoom(g, d0, f0, dir, d1, f1, ch1, f.Disk(), f.Snap(), f.chain, c);
    } else {
      UnsavedByte(g, d1, f1, ch1, dir);
      NoRoomLeft(g, d0, f0, dir, d1, f1, ch1, c, |c|);
    }
  }

  lemma UnsavedByte(g: Geometry, d: Disk, f: Desc, ch: seq<nat>, dir: seq<nat>)
    requires Inv(g, d, f, ch, dir) && NoRoom(g, d, f)
    ensures f.size > 0
  {
  }

  lemma ClosedRoom(g: Geometry, d0: Disk, f0: Desc, dir: seq<nat>, d1: Disk, f1: Desc, ch1: seq<nat>,
                   d: Disk, f: Desc, ch: seq<nat>, c: seq<byte>)
    requires Worked(g, d0, f0, [], dir, d1, f1, ch1, c, |c|) && Closed(g, d1, f1, ch1, dir, d, f, ch, c) && !f0.IsDir()
    requires g.spc > 0 && |ch| == ClustersFor(g, |c|)
    ensures HasRoomFor(g, d0, |c|)
  {
    hide OnDisk, Frame, Worked, ClustersFor, VolumeOk, HasRoomFor;
    var f2 := Unclosed(f, f1);
    WorkedMore(g, d0, f0, [], dir, d1, f1, ch1, c, |c|, d, f2, ch, c, f.Pos());
    RoomTaken(g, d0, f0, dir, d, f2, ch, c);
  }

  // ---------------------------------------------------------------- filling a new directory

  /** What has been written so far over the single cluster of a new directory. */
  ghost predicate Filling(g: Geometry, d0: Disk, f0: Desc, k: nat, dir: seq<nat>, d: Disk, f: Desc, ch: seq<nat>,
                          c: seq<byte>, written: seq<byte>) {
    && |written| <= |c| == 512 * g.spc && ch == [k] && f.IsDir() && f.flags.canWrite
    && Worked(g, d0, f0, [k], dir, d, f, ch, Splice(c, 0, written), |written|)
  }

  lemma FillingStart(g: Geometry, d: Disk, f: Desc, k: nat, dir: seq<nat>)
    requires Inv(g, d, f, [k], dir) && f.IsDir() && f.flags.canWrite && f.Pos() == 0
    ensures Filling(g, d, f, k, dir, d, f, [k], Content(g, d, f, [k], dir), [])
  {
    WorkedNothing(g, d, f, [k], dir);
    SpliceNothing(Content(g, d, f, [k], dir), 0);
    assert Sectors(g, [k]) == g.spc;
  }

  lemma FillingFacts(g: Geometry, d0: Disk, f0: Desc, k: nat, dir: seq<nat>, d: Disk, f: Desc, ch: seq<nat>,
                     c: seq<byte>, written: seq<byte>)
    requires Filling(g, d0, f0, k, dir, d, f, ch, c, written) && Roomy(g, d0, f0, dir)
    ensures Inv(g, d, f, ch, dir) && Content(g, d, f, ch, dir) == Splice(c, 0, written) && f.Pos() == |written|
    ensures Length(g, f, ch) == |c| == 512 * g.spc && Roomy(g, d, f, dir)
    ensures f.flags == f0.flags.(dirty := f.flags.dirty, fsDirty := f.flags.fsDirty)
  {
    WorkedFacts(g, d0, f0, [k], dir, d, f, ch, Splice(c, 0, written), |written|);
    hide Inv, Content, Frame, Splice, SlotStep;
  }

  /** One piece more; the directory, whose bytes keep their number, keeps its one cluster. */
  lemma FillingStep(g: Geometry, d0: Disk, f0: Desc, k: nat, dir: seq<nat>, d: Disk, f: Desc, ch: seq<nat>,
                    c: seq<byte>, written: seq<byte>, d': Disk, f': Desc, ch': seq<nat>, piece: seq<byte>)
    requires Filling(g, d0, f0, k, dir, d, f, ch, c, written) && |written| + |piece| <= |c|
    requires Worked(g, d, f, ch, dir, d', f', ch', Splice(Splice(c, 0, written), |written|, piece), |written| + |piece|)
    ensures Filling(g, d0, f0, k, dir, d', f', ch', c, written + piece)
  {
    hide Splice, Sectors, Inv, Content, Worked, Length;
    SpliceTwice(c, written, piece);
    var c' := Splice(c, 0, written + piece);
    WorkedMore(g, d0, f0, [k], dir, d, f, ch, Splice(c, 0, written), |written|, d', f', ch', c', |written| + |piece|);
    WorkedFacts(g, d, f, ch, dir, d', f', ch', c', |written| + |piece|);
    KeepsChain(g, d, f, ch, dir, d', f', ch', c', |written| + |piece|);
    OneClusterLong(g, d', f', ch', dir, k);
  }

  lemma SpliceTwice(c: seq<byte>, a: seq<byte>, b: seq<byte>)
    requires |a| + |b| <= |c|
    ensures Splice(Splice(c, 0, a), |a|, b) == Splice(c, 0, a + b) && |Splice(c, 0, a + b)| == |c|
  {
  }

  lemma KeepsChain(g: Geometry, d0: Disk, f0: Desc, ch0: seq<nat>, dir: seq<nat>, d: Disk, f: Desc, ch: seq<nat>,
                   c: seq<byte>, pos: nat)
    requires Worked(g, d0, f0, ch0, dir, d, f, ch, c, pos)
    ensures ch0 <= ch && f.flags.canWrite == f0.flags.canWrite
  {
  }

  lemma OneClusterLong(g: Geometry, d: Disk, f: Desc, ch: seq<nat>, dir: seq<nat>, k: nat)
    requires Inv(g, d, f, ch, dir) && f.IsDir() && f.flags.canWrite && Length(g, f, ch) == 512 * g.spc && [k] <= ch
    ensures ch == [k]
  {
    hide Table;
    if |ch| > 1 {
      ProductMonotone(2, |ch|, g.spc);
    }
  }

  /** A piece that fits a directory is written whole. */
  lemma WholePiece(c: seq<byte>, pos: nat, data: seq<byte>, k: nat)
    requires pos + |data| <= |c| && k <= |data| && (k < |data| ==> pos + k == |Splice(c, pos, data[..k])|)
    ensures k == |data| && data[..k] == data
  {
  }

  /**
   A new directory of one cluster is filled with entries from its start: when they are as many bytes as
   the cluster has, they are its content, and it still has that one cluster.
   */
  method FillDirectory(f: FileS, entries: seq<seq<byte>>, now: seq<byte>, ghost k: nat)
    requires f.Ready() && f.Ok() && f.IsDirectory() && f.chain == [k] && f.Snap().Pos() == 0 && |now| == 4
    requires f.flags.isOpen && f.flags.canWrite && !f.flags.append && |Concat(entries)| == 512 * f.fs.g.spc
    modifies f, f.buffer, f.fs.sysbuf, f.fs.dev
    ensures f.Ready() && f.Ok() && f.IsDirectory() && f.dir == old(f.dir)
    ensures f.chain == [k] && Content(f.fs.g, f.Disk(), f.Snap(), f.chain, f.dir) == Concat(entries)
    ensures Frame(f.fs.g, old(f.Disk()), f.Disk(), [k], [k], f.entrySector, f.entryNumber)
  {
    hide VolumeOk, Inv, Content, Worked, Concat, Splice, Blocked, ValidDisk, Filling, Roomy, Length, Frame, Table;
    ghost var g, d0, f0, c := f.fs.g, f.Disk(), f.Snap(), Content(f.fs.g, f.Disk(), f.Snap(), f.chain, f.dir);
    FillingStart(g, d0, f0, k, f.dir);
    ConcatNone(entries);
    ghost var written: seq<byte> := [];
    var i := 0;
    while i < |entries|
      invariant i <= |entries| && written == Concat(entries[..i])
      invariant f.Ready() && f.dir == old(f.dir)
      invariant Filling(g, d0, f0, k, f.dir, f.Disk(), f.Snap(), f.chain, c, written)
    {
      ghost var d1, f1, ch1 := f.Disk(), f.Snap(), f.chain;
      FillingFacts(g, d0, f0, k, f.dir, d1, f1, ch1, c, written);
      FillingDir(g, d0, f0, k, f.dir, d1, f1, ch1, c, written);
      ConcatStep(entries, i);
      ConcatPrefix(entries, i + 1);
      ghost var n;
      var m;
      m, n := f.Write(entries[i], now);
      WholePiece(Splice(c, 0, written), |written|, entries[i], n);
      FillingStep(g, d0, f0, k, f.dir, d1, f1, ch1, c, written, f.Disk(), f.Snap(), f.chain, entries[i]);
      written := written + entries[i];
      i := i + 1;
    }
    assert entries[..i] == entries;
    FillingFacts(g, d0, f0, k, f.dir, f.Disk(), f.Snap(), f.chain, c, written);
    FillingDir(g, d0, f0, k, f.dir, f.Disk(), f.Snap(), f.chain, c, written);
    assert Splice(c, 0, written) == written by { SpliceAll(c, written); }
  }

  lemma SpliceAll(c: seq<byte>, data: seq<byte>)
    requires |data| == |c|
    ensures Splice(c, 0, data) == data
  {
  }

  lemma FillingDir(g: Geometry, d0: Disk, f0: Desc, k: nat, dir: seq<nat>, d: Disk, f: Desc, ch: seq<nat>,
                   c: seq<byte>, written: seq<byte>)
    requires Filling(g, d0, f0, k, dir, d, f, ch, c, written)
    ensures f.IsDir() && ch == [k] && |written| <= |c| && |Splice(c, 0, written)| == |c|
    ensures Frame(g, d0, d, [k], [k], f.entrySector, f.entryNumber)
  {
    hide Inv, Content, Splice, SlotStep;
  }

  // ---------------------------------------------------------------- truncating and closing

  /**
   A file opened with truncation and closed without a write: its slot is not brought up to date, and
   names a cluster that is free.
   */
  method TruncateAndClose(f: FileS, created: seq<byte>, modified: seq<byte>) returns (r: int)
    requires f.Ready() && f.Ok() && !f.IsDirectory() && f.flags.isOpen && f.flags.canWrite
    requires !f.flags.dirty && !f.flags.fsDirty && f.sector != 0 && f.cursor == 0
    requires |created| == 5 && |modified| == 4 && Walkable(Table(f.fs.g, f.Disk()), f.fs.g.EndMarker())
    modifies f, f.buffer, f.fs.sysbuf, f.fs.dev
    ensures f.Ready() && r == 0 && f.entrySector == old(f.entrySector) && f.entryNumber == old(f.entryNumber)
    ensures f.entrySector < |f.Disk()| && f.entryNumber < 16 && |old(f.chain)| > 0
    ensures !Synced(f.fs.g, f.Disk(), f.Snap())
    ensures var k := SlotFirst(f.fs.g, f.Disk()[f.entrySector], f.entryNumber);
      k == old(f.chain)[0] && k < f.fs.g.Entries() && Table(f.fs.g, f.Disk())[k] == 0
  {
    hide VolumeOk, Inv, Content, Table, Walkable, HasSlot, Synced, SlotFirst, Roomy, Worked, Zeroed, NoRoom, OnDisk,
      View, Resting, Shows, Closed;
    ghost var g, t, ch := f.fs.g, Table(f.fs.g, f.Disk()), f.chain;
    f.Truncate(created, modified);
    ZeroedAt(t, ch, ch[0]);
    ghost var d1, f1 := f.Disk(), f.Snap();
    StaleSlot(g, d1, f1, f.dir);
    ViewSame(g, d1, f1, f.chain, f.dir);
    r := f.Close();
    assert f.Disk() == d1;
  }

  lemma ZeroedAt(t: seq<nat>, ch: seq<nat>, c: nat)
    requires c in ch && c < |t|
    ensures Zeroed(t, ch)[c] == 0
  {
  }

  lemma StaleSlot(g: Geometry, d: Disk, f: Desc, dir: seq<nat>)
    requires Inv(g, d, f, [], dir) && f.sector == 0 && !f.flags.dirty
    ensures !NoRoom(g, d, f)
  {
  }
}
