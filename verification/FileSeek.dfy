/** The arithmetic of moving to a position, and when a move can be made. */
module FileSeek {
  import opened Bytes
  import opened Chains
  import opened Division
  import opened Layout
  import opened Tracks
  import opened FileSpec
  import opened FileSteps
  import opened FileBytes
  import opened FileView

  /** Where a seek by ptr from whence leads: 0 is the start, 1 the position, anything else the end. */
  function Target(pos: nat, size: nat, ptr: int, whence: int): int {
    if whence == 0 then ptr else if whence == 1 then pos + ptr else size + ptr
  }

  /** In 32-bit arithmetic a target outside the file always reads as one behind its end. */
  lemma TargetWraps(pos: nat, size: nat, ptr: int, whence: int)
    requires pos <= size < 0x8000_0000 && -0x8000_0000 <= ptr < 0x8000_0000
    ensures 0 <= Target(pos, size, ptr, whence) <= size <==> Wrap32(Target(pos, size, ptr, whence)) <= size
    ensures 0 <= Target(pos, size, ptr, whence) <= size ==>
      Wrap32(Target(pos, size, ptr, whence)) == Target(pos, size, ptr, whence)
  {
  }

  /** How many clusters a seek has to take: one to place unsaved data, one to stand behind the last cluster. */
  ghost function SeekNeeds(g: Geometry, f: Desc, ch: seq<nat>, target: int): nat {
    (if f.sector == 0 && f.flags.dirty then 1 else 0)
    + (if target == (if f.sector == 0 then g.spc * 512 else Sectors(g, ch) * 512) then 1 else 0)
  }

  /** The volume and the open mode allow the clusters the seek has to take. */
  ghost predicate SeekOk(g: Geometry, d: Disk, f: Desc, ch: seq<nat>, target: int) {
    SeekNeeds(g, f, ch, target) == 0
    || (f.flags.canWrite && HasFat(g, d) && SeekNeeds(g, f, ch, target) + InUse(Table(g, d)) <= g.Entries())
  }

  /**
   A seek arrives if its clusters are there, or if it is that of a reader that can rest behind them. It
   also arrives when unsaved data has no cluster to go to and the target is in the buffered sector,
   unless the cursor has rolled off that sector; and even then by accident, when the sector loaded
   instead of it is equal to it.
   */
  ghost predicate SeekWorks(g: Geometry, d: Disk, f: Desc, ch: seq<nat>, target: int) {
    || SeekOk(g, d, View(g, f, ch), ch, target)
    || RestsAt(g, d, f, ch, target)
    || (NoRoom(g, d, f) && target < 512 && (f.cursor < 512 || Lucky(g, d, f)))
  }

  /** A reader goes behind its last cluster, not from a cursor that has rolled off to there already, and the sector
      it is left on exists. */
  ghost predicate RestsAt(g: Geometry, d: Disk, f: Desc, ch: seq<nat>, target: int) {
    && !f.flags.canWrite && f.first != 0 && target == Sectors(g, ch) * 512 && BogusSector(g) < |d|
    && !(f.cursor == 512 && f.Pos() == target)
  }

  /** Cluster 0 would begin with sector 0, and that sector is equal to the buffer. */
  ghost predicate Lucky(g: Geometry, d: Disk, f: Desc) {
    g.spc == 1 && g.cluster0 == 0 && |d| > 0 && f.buffer == d[0]
  }

  /**
   A file open for reading only can be positioned anywhere, but behind its last cluster only if the cursor
   has not just rolled off there and the sector of cluster number 0xFFFF_FFFF exists.
   */
  lemma ReadOnlySeek(g: Geometry, d: Disk, f: Desc, ch: seq<nat>, dir: seq<nat>, t: nat)
    requires Inv(g, d, f, ch, dir) && !f.IsDir() && !f.flags.canWrite && t <= f.size
    ensures SeekWorks(g, d, f, ch, t) <==>
      f.sector == 0 || t < Sectors(g, ch) * 512 || (BogusSector(g) < |d| && !(f.cursor == 512 && f.Pos() == t))
  {
    hide Inv, Reachable, SeekOk, Table, Sectors, NoRoom, Lucky, BogusSector, View;
    ReadOnlyClean(g, d, f, ch, dir);
    NotFull(g, d, f);
    ViewSame(g, d, f, ch, dir);
    if f.sector == 0 {
      SeekOkEmpty(g, d, f, ch, dir, t);
    } else {
      ChainOf(g, d, f, ch, dir);
      SeekOkPlaced(g, d, f, ch, dir, d, f, t);
      ReadOnlyReach(g, d, f, ch, dir, t);
    }
  }

  lemma NotFull(g: Geometry, d: Disk, f: Desc)
    requires !f.flags.dirty
    ensures !NoRoom(g, d, f)
  {
  }

  lemma ReadOnlyReach(g: Geometry, d: Disk, f: Desc, ch: seq<nat>, dir: seq<nat>, t: nat)
    requires Inv(g, d, f, ch, dir) && !f.IsDir() && !f.flags.canWrite && f.sector != 0 && t <= f.size
    ensures Reachable(g, d, f, ch, t) <==> t < Sectors(g, ch) * 512
    ensures t <= Sectors(g, ch) * 512 && f.first != 0
  {
    hide Table, Sectors, SectorOf, ClusterOf, LeftAt;
  }

  lemma {:induction false} FullCount(t: seq<nat>)
    ensures InUse(t) <= |t| && (Full(t) <==> InUse(t) == |t|)
  {
    if t != [] {
      FullCount(t[1..]);
      assert Full(t) <==> t[0] != 0 && Full(t[1..]) by {
        assert forall c :: 0 < c < |t| ==> t[c] == t[1..][c - 1];
        assert forall c :: 0 <= c < |t[1..]| ==> t[1..][c] == t[c + 1];
      }
    }
  }

  /** The index in the chain of the cluster that holds position p. */
  function ClusterIndex(p: nat, s: nat): nat
    requires s > 0
  {
    Quot(p, s * 512)
  }

  /** The sector inside its cluster that holds position p. */
  function SectorIndex(p: nat, q: nat, s: nat): int {
    (p - q * s * 512) / 512
  }

  /** The cluster index and the sector inside the cluster of a position. */
  lemma SeekMath(p: nat, s: nat)
    requires s > 0
    ensures ClusterIndex(p, s) == Quot(p / 512, s)
    ensures SectorIndex(p, ClusterIndex(p, s), s) == Rem(p / 512, s)
  {
    var x, y := p / 512, p % 512;
    var q, r := Quot(x, s), Rem(x, s);
    QuotRem(x, s);
    assert p == q * (s * 512) + (r * 512 + y) by {
      assert q * (s * 512) == q * s * 512;
    }
    assert r * 512 + y < s * 512;
    QuotRemUnique(q, r * 512 + y, s * 512);
    assert q * s * 512 == q * (s * 512);
  }

  /** The descriptor moved to position p in the cluster with index q. */
  function SeekTo(g: Geometry, f: Desc, p: nat, c: nat, b: seq<byte>): Desc
    requires g.spc > 0
  {
    var newSec := Rem(p / 512, g.spc);
    f.(cluster := c, fileSector := p / 512, cursor := p % 512,
       sector := Wrap32(Wrap32(c * g.spc) + g.cluster0 + newSec), sectorsLeft := g.spc - newSec - 1, buffer := b)
  }

  /** The sector a seek computes from the cluster and the sector inside it, in 32-bit arithmetic. */
  lemma SeekSector(g: Geometry, n: nat, c: nat, r: nat)
    requires g.Valid(n) && 2 <= c < g.limit && r < g.spc
    ensures Wrap32(Wrap32(c * g.spc) + g.cluster0 + r) == g.Base(c) + r
    ensures 0 < g.Base(c) + r < n
  {
    ClusterToSector(g, n, c);
    hide Wrap32;
    WrapSum(Wrap32(c * g.spc) + g.cluster0, r);
    WrapSmall(g.Base(c) + r);
  }

  /** Placing the descriptor by way of the cluster that holds position p. */
  lemma SeekPlaced(g: Geometry, d: Disk, f: Desc, ch: seq<nat>, p: nat)
    requires VolumeOk(g, d) && IsChain(Table(g, d), g.EndMarker(), g.limit, ch) && p < Sectors(g, ch) * 512
    ensures g.spc > 0 && Quot(p / 512, g.spc) < |ch|
    ensures var c := ch[Quot(p / 512, g.spc)];
      var s := Wrap32(Wrap32(c * g.spc) + g.cluster0 + Rem(p / 512, g.spc));
      0 < s < |d| && Moved(g, d, f, SeekTo(g, f, p, c, d[s]), ch)
  {
    assert ch[0] >= 2;
    var x := p / 512;
    QuotBound(x, |ch|, g.spc);
    QuotRem(x, g.spc);
    var q, r := Quot(x, g.spc), Rem(x, g.spc);
    ClusterStart(g, ch, q, r);
    SeekSector(g, |d|, ch[q], r);
    hide Table, VolumeOk, IsChain, Quot, Rem, ClusterOf, SectorOf, LeftAt, Sectors, Wrap32;
  }

  /** Two file sectors in the same cluster are as far apart on disk as in the file. */
  lemma SameCluster(g: Geometry, d: Disk, f: Desc, ch: seq<nat>, y: nat)
    requires VolumeOk(g, d) && IsChain(Table(g, d), g.EndMarker(), g.limit, ch) && At(g, f, ch, f.fileSector)
    requires Quot(y, g.spc) == Quot(f.fileSector, g.spc)
    ensures y < Sectors(g, ch)
    ensures SectorOf(g, ch, y) == f.sector + y - f.fileSector && ClusterOf(g, ch, y) == f.cluster
    ensures LeftAt(g, ch, y) == f.sectorsLeft - y + f.fileSector && 0 <= LeftAt(g, ch, y) < 256
    ensures 0 < SectorOf(g, ch, y) < |d| <= 0x1_0000_0000
  {
    assert ch[0] >= 2;
    var x := f.fileSector;
    QuotBound(x, |ch|, g.spc);
    QuotRem(x, g.spc);
    QuotRem(y, g.spc);
    var q := Quot(x, g.spc);
    ClusterStart(g, ch, q, Rem(x, g.spc));
    ClusterStart(g, ch, q, Rem(y, g.spc));
    TrackSector(g, |d|, Table(g, d), ch, y);
  }

  /** After the flush: the target does not lie behind the last cluster, or the file can grow. */
  ghost predicate Reachable(g: Geometry, d: Disk, f: Desc, ch: seq<nat>, target: nat) {
    HasFat(g, d) && (f.sector != 0 && target == Sectors(g, ch) * 512 ==> CanGrow(g, Table(g, d), f, ch))
  }

  lemma NeedsOne(t: seq<nat>)
    ensures !Full(t) <==> 1 + InUse(t) <= |t|
  {
    FullCount(t);
  }

  /** The clusters a seek needs are there exactly when the flush succeeds and the target can be reached. */
  lemma SeekOkPlaced(g: Geometry, d: Disk, f: Desc, ch: seq<nat>, dir: seq<nat>, d1: Disk, f1: Desc, target: nat)
    requires Inv(g, d, f, ch, dir) && !f.IsDir() && f.sector != 0
    requires HasFat(g, d1) && Table(g, d1) == Table(g, d) && f1.sector == f.sector
    requires f1.flags.canWrite == f.flags.canWrite
    ensures SeekOk(g, d, f, ch, target) <==> Reachable(g, d1, f1, ch, target)
  {
    NeedsOne(Table(g, d));
    assert ch[0] >= 2;
  }

  lemma SeekOkFirst(g: Geometry, d: Disk, f: Desc, ch: seq<nat>, dir: seq<nat>, d1: Disk, f1: Desc, ch1: seq<nat>,
      target: nat)
    requires Inv(g, d, f, ch, dir) && f.sector == 0 && f.flags.dirty
    requires FirstPlaced(g, d, d1, f1, ch1) && f1.flags.canWrite
    ensures SeekOk(g, d, f, ch, target) <==> Reachable(g, d1, f1, ch1, target)
  {
    var t, k := Table(g, d), ch1[0];
    NeedsOne(t);
    NeedsOne(Table(g, d1));
    InUseUpdate(t, k, g.NewEnd());
    assert ch1 == [k];
    assert k != 1;
    assert Sectors(g, ch1) == g.spc;
  }

  lemma SeekOkEmpty(g: Geometry, d: Disk, f: Desc, ch: seq<nat>, dir: seq<nat>, target: nat)
    requires Inv(g, d, f, ch, dir) && f.sector == 0 && !f.flags.dirty && target <= f.size
    ensures SeekOk(g, d, f, ch, target) && Reachable(g, d, f, ch, target)
  {
  }

  lemma SeekNotOk(g: Geometry, d: Disk, f: Desc, ch: seq<nat>, target: nat)
    requires NoRoom(g, d, f)
    ensures !SeekOk(g, d, f, ch, target)
  {
    FullCount(Table(g, d));
  }

  // ---------------------------------------------------------------- the three ways to move

  /** Moving inside the buffered sector. */
  lemma InSector(g: Geometry, d: Disk, f: Desc, ch: seq<nat>, dir: seq<nat>, target: nat)
    requires Inv(g, d, f, ch, dir) && !f.flags.dirty && !f.IsDir() && f.cursor < 512
    requires target <= f.size && target / 512 == f.fileSector
    ensures Inv(g, d, f.(cursor := target % 512), ch, dir)
    ensures Content(g, d, f.(cursor := target % 512), ch, dir) == Content(g, d, f, ch, dir)
  {
    var f' := f.(cursor := target % 512);
    if f.sector == 0 {
      EmptyFile(f, ch, target);
      assert f' == f;
    } else {
      OwnWalk(g, d, f, ch, dir);
      assert f.buffer == d[f.sector];
      MoveKeeps(g, d, f, f', ch, dir);
    }
  }

  lemma NotTheRoot(g: Geometry, d: Disk, f: Desc, ch: seq<nat>, dir: seq<nat>)
    requires Inv(g, d, f, ch, dir) && !f.IsDir()
    ensures f.sector != 0 ==> !IsRoot(g, ch)
  {
    if f.sector != 0 { assert ch[0] >= 2; }
  }

  lemma EmptyFile(f: Desc, ch: seq<nat>, target: nat)
    requires Unplaced(f, ch) && !f.flags.dirty && target <= f.size
    ensures f.cursor == 0 && target == 0
  {
  }

  lemma EmptyStays(g: Geometry, d: Disk, f: Desc, ch: seq<nat>, dir: seq<nat>, target: nat)
    requires Inv(g, d, f, ch, dir) && !f.IsDir() && target <= f.size
    ensures f.sector == 0 && !f.flags.dirty ==> f.Pos() == target
  {
  }

  /** The descriptor moved to another sector of its cluster. */
  function Hopped(f: Desc, target: nat, b: seq<byte>): Desc
    requires 0 <= f.sector + target / 512 - f.fileSector && 0 <= f.sectorsLeft - target / 512 + f.fileSector
  {
    f.(fileSector := target / 512, sector := f.sector + target / 512 - f.fileSector,
       sectorsLeft := f.sectorsLeft - target / 512 + f.fileSector, cursor := target % 512, buffer := b)
  }

  /** Moving to another sector of the same cluster. */
  lemma InCluster(g: Geometry, d: Disk, f: Desc, ch: seq<nat>, dir: seq<nat>, target: nat)
    requires Inv(g, d, f, ch, dir) && !f.flags.dirty && !f.IsDir() && f.sector != 0
    requires target <= f.size && g.spc > 0 && Quot(target / 512, g.spc) == Quot(f.fileSector, g.spc)
    ensures 0 < f.sector + target / 512 - f.fileSector < |d| <= 0x1_0000_0000
    ensures 0 <= f.sectorsLeft - target / 512 + f.fileSector < 256
    ensures var f' := Hopped(f, target, d[f.sector + target / 512 - f.fileSector]);
      Inv(g, d, f', ch, dir) && Content(g, d, f', ch, dir) == Content(g, d, f, ch, dir)
  {
    hide Content, Quot, Table;
    OwnWalk(g, d, f, ch, dir);
    SameCluster(g, d, f, ch, target / 512);
    MoveKeeps(g, d, f, Hopped(f, target, d[f.sector + target / 512 - f.fileSector]), ch, dir);
  }

  /** The end of a chain starts a new cluster, and every place before it is in an earlier one. */
  lemma EndPlace(s: nat, n: nat, target: nat)
    requires s > 0 && target <= n * s * 512
    ensures ClusterIndex(n * s * 512, s) == n && n * s * 512 / 512 == n * s
    ensures target < n * s * 512 ==> ClusterIndex(target, s) < n && target / 512 < n * s
  {
    SeekMath(target, s);
    SeekMath(n * s * 512, s);
    QuotRemUnique(n, 0, s);
    if target < n * s * 512 {
      QuotBound(target / 512, n, s);
    }
  }

  /** A rolled-off descriptor at the end of its chain: every other place in the file is in another cluster. */
  lemma StuckPlace(g: Geometry, d: Disk, f: Desc, ch: seq<nat>, dir: seq<nat>, target: nat)
    requires Inv(g, d, f, ch, dir) && !f.flags.dirty && !f.IsDir() && f.sector != 0
    requires Stuck(g, d, f, ch) && target <= f.size
    ensures g.spc > 0 && f.Pos() == f.size == Sectors(g, ch) * 512
    ensures target / 512 == f.Pos() / 512 <==> target == f.Pos()
    ensures target != f.Pos() ==> ClusterIndex(target, g.spc) != ClusterIndex(f.Pos(), g.spc)
    ensures Reachable(g, d, f, ch, target) <==> target != f.Pos()
  {
    assert ch[0] >= 2;
    EndPlace(g.spc, |ch|, target);
  }

  /**
   The position determines the state: however a clean descriptor has got to a place, it holds the
   same cluster, sector and count of sectors left, and the same buffer.
   */
  lemma SamePlace(g: Geometry, d: Disk, f1: Desc, f2: Desc, ch: seq<nat>, dir1: seq<nat>, dir2: seq<nat>)
    requires Inv(g, d, f1, ch, dir1) && Inv(g, d, f2, ch, dir2) && f1.sector != 0 && f2.sector != 0
    requires !f1.flags.dirty && !f2.flags.dirty && f1.cursor < 512 && f2.cursor < 512 && f1.Pos() == f2.Pos()
    ensures f1.cluster == f2.cluster && f1.sector == f2.sector && f1.sectorsLeft == f2.sectorsLeft
    ensures f1.fileSector == f2.fileSector && f1.cursor == f2.cursor && f1.buffer == f2.buffer
  {
    hide Inv;
    assert f1.fileSector == f2.fileSector && f1.cursor == f2.cursor;
    CleanPlace(g, d, f1, ch, dir1);
    CleanPlace(g, d, f2, ch, dir2);
    hide SectorOf, ClusterOf, LeftAt, Sectors;
  }

  lemma CleanPlace(g: Geometry, d: Disk, f: Desc, ch: seq<nat>, dir: seq<nat>)
    requires Inv(g, d, f, ch, dir) && f.sector != 0 && !f.flags.dirty && f.cursor < 512
    ensures At(g, f, ch, f.fileSector) && f.sector < |d| && f.buffer == d[f.sector]
  {
  }

  // ---------------------------------------------------------------- walking the chain

  /** Where the chain walk to a position starts from, and how far it has to go. */
  lemma WalkStart(g: Geometry, d: Disk, f: Desc, ch: seq<nat>, dir: seq<nat>, target: nat)
    requires Inv(g, d, f, ch, dir) && !f.flags.dirty && !f.IsDir() && f.sector != 0 && target <= f.size
    ensures g.spc > 0 && |ch| > 0 && f.first == ch[0] && 0 < f.sector < |d| && !IsRoot(g, ch)
    ensures Track(g, Table(g, d), ch) && IsChain(Table(g, d), g.EndMarker(), g.limit, ch)
    ensures Inv(g, d, Parked(d, f, f.cluster), ch, dir)
    ensures ClusterIndex(target, g.spc) <= |ch|
    ensures ClusterIndex(target, g.spc) == |ch| <==> target == Sectors(g, ch) * 512
    ensures Reachable(g, d, f, ch, target) <==>
      (ClusterIndex(target, g.spc) == |ch| ==> CanGrow(g, Table(g, d), f, ch))
  {
    OwnWalk(g, d, f, ch, dir);
    assert ch[0] >= 2;
    EndPlace(g.spc, |ch|, target);
  }

  /** One link of the walk inside the chain. */
  ghost predicate Walking(g: Geometry, d: Disk, f: Desc, ch: seq<nat>, d': Disk, f': Desc, ch': seq<nat>, i: nat) {
    && d' == d && ch' == ch && i < |ch|
    && f' == f.(cluster := ch[i], buffer := f'.buffer)
  }

  /** The walk has gone past the old end of the chain into the cluster it has been extended by. */
  ghost predicate Extended(g: Geometry, d: Disk, f: Desc, ch: seq<nat>, dir: seq<nat>, d': Disk, f': Desc,
      ch': seq<nat>)
    requires 0 < f.sector < |d|
  {
    && f'.sector == f.sector && |d'| == |d| && ch' == ch + [f'.cluster] && !f'.flags.dirty
    && Kept(g, d, Parked(d, f, f.cluster), ch, dir, d', Parked(d', f', f.cluster), ch', dir)
  }

  lemma ExtendedBy(g: Geometry, d: Disk, f: Desc, ch: seq<nat>, dir: seq<nat>, f1: Desc, d': Disk, f': Desc,
      ch': seq<nat>, k: nat)
    requires 0 < f.sector < |d| == |d'| && f1 == f.(cluster := f1.cluster, buffer := f1.buffer) && f'.sector < |d'|
    requires Grown(g, d, f1, ch, dir, d', f', ch', f.cluster, k) && !f.flags.dirty
    ensures Extended(g, d, f, ch, dir, d', f'.(cluster := k), ch') && !f'.flags.dirty
  {
    hide Kept;
    GrownParts(g, d, f1, ch, dir, d', f', ch', f.cluster, k);
    assert Parked(d, f1, f.cluster) == Parked(d, f, f.cluster);
    assert Parked(d', f'.(cluster := k), f.cluster) == Parked(d', f', f.cluster);
  }

  lemma Landed(g: Geometry, d: Disk, f: Desc, ch: seq<nat>, dir: seq<nat>, target: nat, k: nat, f': Desc)
    requires Inv(g, d, f, ch, dir) && !f.flags.dirty && !f.IsDir() && f.sector != 0
    requires target <= f.size && target < Sectors(g, ch) * 512
    requires g.spc > 0 && Quot(target / 512, g.spc) < |ch| && k == ch[Quot(target / 512, g.spc)]
    requires f' == SeekTo(g, f, target, k, f'.buffer) && (f'.sector < |d| ==> f'.buffer == d[f'.sector])
    ensures 0 < f'.sector < |d| && Inv(g, d, f', ch, dir)
    ensures Content(g, d, f', ch, dir) == Content(g, d, f, ch, dir)
  {
    hide Content, Wrap32, Quot, Rem, Table;
    SeekPlaced(g, d, f, ch, target);
    MoveKeeps(g, d, f, f', ch, dir);
  }

  /** The walk has reached the cluster of the target: the descriptor is put there. */
  lemma Arrived(g: Geometry, d0: Disk, f0: Desc, ch0: seq<nat>, dir: seq<nat>, d: Disk, f: Desc, ch: seq<nat>,
                c: seq<byte>, pos: nat, d': Disk, p: Desc, ch': seq<nat>, target: nat, k: nat, f': Desc)
    requires Worked(g, d0, f0, ch0, dir, d, f, ch, c, pos) && !f.flags.dirty && !f.IsDir() && 0 < f.sector < |d|
    requires Kept(g, d, Parked(d, f, f.cluster), ch, dir, d', p, ch', dir) && !p.flags.dirty && p.sector != 0
    requires target <= |c| && target < Sectors(g, ch') * 512
    requires g.spc > 0 && Quot(target / 512, g.spc) < |ch'| && k == ch'[Quot(target / 512, g.spc)]
    requires f' == SeekTo(g, p, target, k, f'.buffer) && (f'.sector < |d'| ==> f'.buffer == d'[f'.sector])
    ensures 0 < f'.sector < |d'| && Worked(g, d0, f0, ch0, dir, d', f', ch', c, target)
  {
    var q := Parked(d, f, f.cluster);
    hide Inv, Content, Frame, Wrap32, Quot, Rem, Sectors, Worked, Kept;
    WorkedFacts(g, d0, f0, ch0, dir, d, f, ch, c, pos);
    OwnWalk(g, d, f, ch, dir);
    WorkedKept(g, d0, f0, ch0, dir, d, f, ch, c, pos, d, q, ch);
    WorkedKept(g, d0, f0, ch0, dir, d, q, ch, c, q.Pos(), d', p, ch');
    WorkedFacts(g, d0, f0, ch0, dir, d', p, ch', c, p.Pos());
    Landed(g, d', p, ch', dir, target, k, f');
    WorkedMoved(g, d0, f0, ch0, dir, d', p, ch', c, p.Pos(), f');
  }

  lemma ShortFile(g: Geometry, d: Disk, f: Desc, ch: seq<nat>, dir: seq<nat>)
    requires Inv(g, d, f, ch, dir) && !f.IsDir()
    ensures f.size < 0x8000_0000
  {
  }

  // ---------------------------------------------------------------- the stages of a seek

  /** Whether a seek arrives, told from the state its flush leaves. */
  ghost predicate Arrives(g: Geometry, d: Disk, f: Desc, ch: seq<nat>, t: nat) {
    if f.flags.dirty then t < 512 && (f.cursor < 512 || Lucky(g, d, f))
    else Reachable(g, d, View(g, f, ch), ch, t) || RestsAt(g, d, f, ch, t)
  }

  /** The flush settles which condition counts: reaching the target, or staying in the buffered sector. */
  lemma SeekAfterFlush(g: Geometry, d: Disk, f: Desc, ch: seq<nat>, dir: seq<nat>, d1: Disk, f1: Desc, ch1: seq<nat>,
      t: nat)
    requires Inv(g, d, View(g, f, ch), ch, dir) && Shows(g, d, f, ch) && !f.IsDir() && t <= f.size && HasFat(g, d1)
    requires !f.flags.dirty ==> d1 == d && f1 == f && ch1 == ch
    requires f.flags.dirty && f.sector != 0 ==> Table(g, d1) == Table(g, d) && f1 == f.Clean() && ch1 == ch
    requires f.flags.dirty && f.sector == 0 ==>
      if f1.flags.dirty then Full(Table(g, d)) && d1 == d && f1 == f else FirstPlaced(g, d, d1, f1, ch1)
    requires f1.flags.canWrite == f.flags.canWrite && (f.flags.dirty ==> View(g, f1, ch1) == f1)
    ensures SeekWorks(g, d, f, ch, t) <==> Arrives(g, d1, f1, ch1, t)
    ensures SeekOk(g, d, View(g, f, ch), ch, t) <==> !f1.flags.dirty && Reachable(g, d1, View(g, f1, ch1), ch1, t)
    ensures f1.flags.dirty <==> NoRoom(g, d, f)
  {
    hide Inv, Lucky, Reachable, SeekOk, HasLast, RestsAt, NoRoom, FirstPlaced, Full, Table;
    ViewFlags(g, f, ch);
    if f.flags.dirty {
      DirtySeek(g, d, f, ch, dir, d1, f1, ch1, t);
    } else {
      NotFull(g, d, f);
      var v := View(g, f, ch);
      if v.sector != 0 {
        SeekOkPlaced(g, d, v, ch, dir, d, v, t);
      } else {
        SeekOkEmpty(g, d, v, ch, dir, t);
      }
    }
  }

  /** The same for a file with unsaved data. */
  lemma DirtySeek(g: Geometry, d: Disk, f: Desc, ch: seq<nat>, dir: seq<nat>, d1: Disk, f1: Desc, ch1: seq<nat>, t: nat)
    requires Inv(g, d, f, ch, dir) && f.flags.dirty && !f.IsDir() && t <= f.size && HasFat(g, d1)
    requires f.sector != 0 ==> Table(g, d1) == Table(g, d) && f1 == f.Clean() && ch1 == ch
    requires f.sector == 0 ==>
      if f1.flags.dirty then Full(Table(g, d)) && d1 == d && f1 == f else FirstPlaced(g, d, d1, f1, ch1)
    requires f1.flags.canWrite == f.flags.canWrite
    ensures SeekOk(g, d, f, ch, t) <==> !f1.flags.dirty && Reachable(g, d1, f1, ch1, t)
    ensures (f1.flags.dirty <==> NoRoom(g, d, f)) && !RestsAt(g, d, f, ch, t) && !RestsAt(g, d1, f1, ch1, t)
    ensures f1.flags.dirty ==> f1 == f && d1 == d
  {
    hide Lucky, Reachable, SeekOk;
    assert f.flags.canWrite;
    if f.sector != 0 {
      SeekOkPlaced(g, d, f, ch, dir, d1, f1, t);
    } else if f1.flags.dirty {
      SeekNotOk(g, d, f, ch, t);
    } else {
      SeekOkFirst(g, d, f, ch, dir, d1, f1, ch1, t);
    }
  }

  lemma ViewFlags(g: Geometry, f: Desc, ch: seq<nat>)
    ensures var v := View(g, f, ch);
      v.flags == f.flags && v.meta == f.meta && v.size == f.size && v.first == f.first && v.IsDir() == f.IsDir()
    ensures f.cluster != 0xFFFF_FFFF ==> View(g, f, ch) == f
  {
  }

  /** Rolling off the buffered sector changes neither the position nor what can be reached. */
  lemma RolledReach(g: Geometry, d: Disk, f: Desc, ch: seq<nat>, dir: seq<nat>, d1: Disk, f1: Desc, ch1: seq<nat>,
                    err: bool, t: nat)
    requires Kept(g, d, f, ch, dir, d1, f1, ch1, dir) && !f.IsDir() && !f.flags.dirty && f.cursor == 512 && t <= f.size
    requires Crossed(g, d, f, ch, d1, ch1, err)
    requires if err then f1 == f.(buffer := f1.buffer) else f1.cursor == 0 && f1.fileSector == f.fileSector + 1
    ensures Reachable(g, d, f, ch, t) <==> Reachable(g, d1, f1, ch1, t)
    ensures !Reachable(g, d, f, ch, t) ==> d1 == d && ch1 == ch
    ensures f1.cursor < 512 || Stuck(g, d1, f1, ch1)
    ensures f1.Pos() == f.Pos() && f1.sector != 0
  {
    InvReadable(g, d, f, ch, dir);
    InvReadable(g, d1, f1, ch1, dir);
    assert f.sector != 0;
    assert ch[0] >= 2 && ch1[0] >= 2;
  }

  lemma Rolled(g: Geometry, d0: Disk, f0: Desc, ch0: seq<nat>, dir: seq<nat>, d: Disk, f: Desc, ch: seq<nat>,
               c: seq<byte>, pos: nat, d1: Disk, f1: Desc, ch1: seq<nat>, err: bool, t: nat)
    requires Worked(g, d0, f0, ch0, dir, d, f, ch, c, pos) && !f.IsDir() && f.cursor == 512 && t <= |c|
    requires Kept(g, d, f, ch, dir, d1, f1, ch1, dir)
    requires f.flags.dirty ==> d1 == d && f1 == f && ch1 == ch
    requires !f.flags.dirty ==>
      && Crossed(g, d, f, ch, d1, ch1, err)
      && if err then f1 == f.(buffer := f1.buffer)
         else !f1.flags.dirty && f1.cursor == 0 && f1.fileSector == f.fileSector + 1
    ensures Worked(g, d0, f0, ch0, dir, d1, f1, ch1, c, pos) && f1.flags.dirty == f.flags.dirty
    ensures !f.flags.dirty ==> (f1.cursor < 512 || Stuck(g, d1, f1, ch1)) && f1.sector != 0
    ensures Arrives(g, d, f, ch, t) <==> Arrives(g, d1, f1, ch1, t)
    ensures !Arrives(g, d, f, ch, t) ==> d1 == d && ch1 == ch
    ensures f1.Pos() == f.Pos() && (f1.cursor == 512 ==> f1.fileSector == f.fileSector)
  {
    hide Inv, Content, Kept, Reachable, Worked, Stuck, Crossed, Lucky, View, RestsAt;
    WorkedFacts(g, d0, f0, ch0, dir, d, f, ch, c, pos);
    WorkedKept(g, d0, f0, ch0, dir, d, f, ch, c, pos, d1, f1, ch1);
    if !f.flags.dirty {
      WorkedFacts(g, d0, f0, ch0, dir, d1, f1, ch1, c, f1.Pos());
      ViewSame(g, d, f, ch, dir);
      ViewSame(g, d1, f1, ch1, dir);
      RolledReach(g, d, f, ch, dir, d1, f1, ch1, err, t);
      RolledRest(g, d, f, ch, dir, d1, f1, ch1, err, t);
    }
  }

  /** Rolling off the buffered sector does not change whether a reader can rest. */
  lemma RolledRest(g: Geometry, d: Disk, f: Desc, ch: seq<nat>, dir: seq<nat>, d1: Disk, f1: Desc, ch1: seq<nat>,
                   err: bool, t: nat)
    requires Kept(g, d, f, ch, dir, d1, f1, ch1, dir) && !f.IsDir() && !f.flags.dirty && f.cursor == 512 && t <= f.size
    requires Crossed(g, d, f, ch, d1, ch1, err)
    requires if err then f1 == f.(buffer := f1.buffer) else f1.cursor == 0 && f1.fileSector == f.fileSector + 1
    ensures RestsAt(g, d, f, ch, t) <==> RestsAt(g, d1, f1, ch1, t)
  {
    hide Inv, Content, Frame, Table, SlotStep, BogusSector, IsRoot, Sectors;
    if !f.flags.canWrite {
      ReadOnlyCross(g, d, f, ch, dir, d1, ch1, err);
      RolledIsPlaced(g, d, f, ch, dir);
      ChainOf(g, d, f, ch, dir);
    }
  }

  /** What a seek inside the buffered sector leaves. */
  lemma InSectorDone(g: Geometry, d0: Disk, f0: Desc, ch0: seq<nat>, dir: seq<nat>, d: Disk, f: Desc, ch: seq<nat>,
                     c: seq<byte>, pos: nat, t: nat)
    requires Worked(g, d0, f0, ch0, dir, d, f, ch, c, pos) && !f.IsDir() && t <= |c| && t / 512 == pos / 512
    requires if f.flags.dirty then NoRoom(g, d, f)
             else f.cursor < 512 || (f.sector != 0 && Stuck(g, d, f, ch) && FatShown(g, d, f))
    ensures f.sector < |d|
    ensures var f' := f.(cursor := t % 512);
      if Arrives(g, d, f, ch, t) then Worked(g, d0, f0, ch0, dir, d, f', ch, c, t)
      else !Worked(g, d0, f0, ch0, dir, d, f', ch, c, t) && f.cursor == 512 && pos == t == |c| && t % 512 == 0
           && (f.flags.canWrite ==> Torn(g, d0, f0, ch0, dir, d, f', ch, c))
  {
    hide Worked, Inv, Content, Reachable, Stuck, NoRoom, Torn, Lucky, View, Sectors, BogusSector;
    WorkedFacts(g, d0, f0, ch0, dir, d, f, ch, c, pos);
    OnDevice(g, d, f, ch, dir);
    ViewSame(g, d, f, ch, dir);
    var f' := f.(cursor := t % 512);
    if f.flags.dirty { NoRoomPlace(g, d, f, ch, dir); }
    if f.cursor < 512 {
      if f.flags.dirty { InBuffer(g, d, f, ch, dir, t); } else { InSector(g, d, f, ch, dir, t); }
      WorkedMoved(g, d0, f0, ch0, dir, d, f, ch, c, pos, f');
      NotAtEnd(g, d, f, ch, dir, t);
    } else {
      if !f.flags.dirty { StuckPlace(g, d, f, ch, dir, t); }
      NotWorked(g, d0, f0, ch0, dir, d, f', ch, c, t);
      if f.flags.canWrite && pos == t { TornBack(g, d0, f0, ch0, dir, d, f, ch, c); }
    }
  }

  lemma OnDevice(g: Geometry, d: Disk, f: Desc, ch: seq<nat>, dir: seq<nat>)
    requires Inv(g, d, f, ch, dir)
    ensures f.sector < |d|
  {
    if f.sector != 0 { InvReadable(g, d, f, ch, dir); }
  }

  /** Unsaved data without a cluster is at most one sector. */
  lemma NoRoomPlace(g: Geometry, d: Disk, f: Desc, ch: seq<nat>, dir: seq<nat>)
    requires Inv(g, d, f, ch, dir) && NoRoom(g, d, f)
    ensures ch == [] && f.sector == f.fileSector == f.first == f.cluster == f.sectorsLeft == 0
    ensures f.cursor <= f.size <= 512 && |f.buffer| == 512 && g.spc > 0 && !f.IsDir() && g.cluster0 < 0x1_0000_0000
    ensures |Content(g, d, f, ch, dir)| == f.size
  {
  }

  /** Moving inside the buffer of unsaved data. */
  lemma InBuffer(g: Geometry, d: Disk, f: Desc, ch: seq<nat>, dir: seq<nat>, target: nat)
    requires Inv(g, d, f, ch, dir) && NoRoom(g, d, f) && target <= f.size && target < 512
    ensures Inv(g, d, f.(cursor := target % 512), ch, dir)
    ensures Content(g, d, f.(cursor := target % 512), ch, dir) == Content(g, d, f, ch, dir)
  {
    hide Table, VolumeOk, Full, SlotFirst, SlotSize, Quiet, Track;
    var f' := f.(cursor := target % 512);
    assert Inv(g, d, f', ch, dir);
    InvReadable(g, d, f, ch, dir);
    InvReadable(g, d, f', ch, dir);
    SameContent(g, d, f, ch, dir, d, f', ch, dir);
  }

  // ---------------------------------------------------------------- seeks that do not arrive

  /** The record with its buffer marked as unsaved. */
  function Marked(f: Desc): Desc {
    f.(flags := f.flags.(dirty := true))
  }

  /**
   A seek of a rolled-off file to the end it stands on goes back to the start of the last sector
   instead. The buffer, which holds a sector of the FAT unless it is still unsaved, will take the place
   of that sector with the next byte.
   */
  ghost predicate Torn(g: Geometry, d0: Disk, f0: Desc, ch0: seq<nat>, dir: seq<nat>, d: Disk, f: Desc, ch: seq<nat>,
                       c: seq<byte>) {
    && 512 <= |c| && |f.buffer| == 512 && f.cursor < 512
    && (if f.flags.dirty then f.buffer == c[|c| - 512..] else FatShown(g, d, f))
    && Worked(g, d0, f0, ch0, dir, d, Marked(f), ch, c[..|c| - 512] + f.buffer, |c| - 512)
  }

  lemma TornBack(g: Geometry, d0: Disk, f0: Desc, ch0: seq<nat>, dir: seq<nat>, d: Disk, f: Desc, ch: seq<nat>,
                 c: seq<byte>)
    requires Worked(g, d0, f0, ch0, dir, d, f, ch, c, |c|) && !f.IsDir() && f.flags.canWrite && f.cursor == 512
    requires if f.flags.dirty then NoRoom(g, d, f) else f.sector != 0 && Stuck(g, d, f, ch) && FatShown(g, d, f)
    ensures Torn(g, d0, f0, ch0, dir, d, f.(cursor := 0), ch, c)
  {
    hide Inv, Content, Frame, NoRoom, Stuck, SlotFound;
    assert Inv(g, d, f, ch, dir);
    if f.flags.dirty {
      NoRoomPlace(g, d, f, ch, dir);
      NoRoomDirty(g, d, f);
      BufferContent(g, d, f, ch, dir);
    } else {
      StuckPlace(g, d, f, ch, dir, f.Pos());
    }
    TornInv(g, d, f, ch, dir);
  }

  lemma TornInv(g: Geometry, d: Disk, f: Desc, ch: seq<nat>, dir: seq<nat>)
    requires Inv(g, d, f, ch, dir) && !f.IsDir() && f.flags.canWrite && f.cursor == 512 && f.Pos() == f.size
    requires f.sector == 0 ==> f.flags.dirty
    ensures var f', c := Marked(f.(cursor := 0)), Content(g, d, f, ch, dir);
      && Inv(g, d, f', ch, dir) && 512 <= |c| && |f.buffer| == 512 && f'.Pos() == |c| - 512
      && Content(g, d, f', ch, dir) == c[..|c| - 512] + f.buffer
  {
    hide Table, VolumeOk, Synced, Titled, IsChain, SectorOf, HasSlot, HasHome, At;
    var f' := Marked(f.(cursor := 0));
    TornPlace(g, d, f, ch, dir);
    InvReadable(g, d, f, ch, dir);
    InvReadable(g, d, f', ch, dir);
    var c, c' := Content(g, d, f, ch, dir), Content(g, d, f', ch, dir);
    forall p | 0 <= p < |c| ensures c'[p] == if p < |c| - 512 then c[p] else f.buffer[p - (|c| - 512)] {
      ContentAt(g, d, f, ch, dir, p);
      ContentAt(g, d, f', ch, dir, p);
    }
    assert c' == c[..|c| - 512] + f.buffer;
  }

  lemma TornPlace(g: Geometry, d: Disk, f: Desc, ch: seq<nat>, dir: seq<nat>)
    requires Inv(g, d, f, ch, dir) && !f.IsDir() && f.flags.canWrite && f.cursor == 512 && f.Pos() == f.size
    requires f.sector == 0 ==> f.flags.dirty
    ensures Inv(g, d, Marked(f.(cursor := 0)), ch, dir)
  {
    hide Table, VolumeOk, IsChain, SectorOf, ClusterOf, LeftAt, Quiet, Sectors;
  }

  /** It lies three clusters in front of the data region, when there is as much in front of it. */
  lemma BogusPlace(g: Geometry, n: nat)
    requires g.Valid(n)
    ensures BogusSector(g) == Wrap32(g.DataStart() + 0x1_0000_0000 - 3 * g.spc)
    ensures 3 * g.spc <= g.DataStart() ==> BogusSector(g) == g.DataStart() - 3 * g.spc < n
  {
    hide Wrap32;
    var x := 0xFFFF_FFFF * g.spc;
    assert x + 3 * g.spc == 0x1_0000_0000 * g.spc + 2 * g.spc;
    var r := 0x1_0000_0000 - 3 * g.spc;
    assert x + g.cluster0 == g.cluster0 + 2 * g.spc + r + 0x1_0000_0000 * (g.spc - 1);
    ClusterToSector(g, n, 2);
    WrapSum(x, g.cluster0);
    WrapSum(g.cluster0 + 2 * g.spc, r);
    WrapTurns(g.cluster0 + 2 * g.spc + r, g.spc - 1);
    WrapTurns(g.DataStart() - 3 * g.spc, 1);
  }

  lemma WrapTurns(x: int, k: nat)
    ensures Wrap32(x + 0x1_0000_0000 * k) == Wrap32(x)
    ensures 0 <= x < 0x1_0000_0000 ==> Wrap32(x) == x
  {
  }

  /** The sector a seek that does not arrive leaves the descriptor on; full: its flush failed. */
  function LostSector(g: Geometry, full: bool, t: nat): nat {
    if full && t < 512 then (if g.spc == 1 then g.cluster0 else 0xFFFF_FFFF)
    else if full && g.spc > 1 then 1
    else BogusSector(g)
  }

  /** A record that no file can have. */
  ghost predicate Adrift(f: Desc, ch: seq<nat>) {
    f.cluster == 0xFFFF_FFFF || (ch == [] && f.sector != 0)
  }

  /**
   What a seek of f to t that does not arrive leaves. A file that stood rolled off on t is put back by
   a sector; otherwise the position is t, but on a sector that is not one of the file's.
   */
  ghost predicate Lost(g: Geometry, full: bool, f: Desc, t: nat, f': Desc, ch': seq<nat>) {
    && f'.size == f.size && f'.cursor == t % 512
    && f'.flags.canWrite == f.flags.canWrite && f'.IsDir() == f.IsDir()
    && if f.cursor == 512 && f.Pos() == t then f'.fileSector == f.fileSector
       else f'.sector == LostSector(g, full, t) && f'.fileSector == t / 512
            && (t == f.size ==> t % 512 == 0 && Adrift(f', ch'))
  }

  /** The disk still holds the file, on chain ch, as a record at the position of f0 would show it. */
  ghost predicate Intact(g: Geometry, d0: Disk, f0: Desc, ch0: seq<nat>, dir: seq<nat>, d: Disk, ch: seq<nat>,
                         c: seq<byte>) {
    exists f1 :: Worked(g, d0, f0, ch0, dir, d, f1, ch, c, f0.Pos())
  }

  lemma IntactSize(g: Geometry, d0: Disk, f0: Desc, ch0: seq<nat>, dir: seq<nat>, d: Disk, ch: seq<nat>, c: seq<byte>)
    requires Intact(g, d0, f0, ch0, dir, d, ch, c)
    ensures |d| == |d0|
  {
    hide Inv, Content, SlotStep, Grew, VolumeOk;
    var f1 :| Worked(g, d0, f0, ch0, dir, d, f1, ch, c, f0.Pos());
  }

  /**
   A seek to t that does not arrive: the record no longer stands for the content c at t, while the disk
   is as the flush has left it.
   */
  ghost predicate Missed(g: Geometry, d0: Disk, f0: Desc, ch0: seq<nat>, dir: seq<nat>, d: Disk, f: Desc, ch: seq<nat>,
                         c: seq<byte>, t: nat) {
    && !Stands(g, d0, f0, ch0, dir, d, f, ch, c, t)
    && Intact(g, d0, f0, ch0, dir, d, ch, c)
    && Lost(g, NoRoom(g, d0, f0), f0, t, f, ch)
    && (f0.Pos() == t ==>
      && f0.cursor == 512 && t == |c| && f.sector < |d| && (NoRoom(g, d0, f0) || FatShown(g, d, f))
      && (f0.flags.canWrite ==> Torn(g, d0, f0, ch0, dir, d, f, ch, c)))
  }

  lemma MissedOut(g: Geometry, d0: Disk, f0: Desc, ch0: seq<nat>, dir: seq<nat>, d: Disk, f: Desc, ch: seq<nat>,
                  c: seq<byte>)
    requires Missed(g, d0, f0, ch0, dir, d, f, ch, c, |c|) && |c| == f0.size && f0.Pos() != |c|
    ensures Adrift(f, ch) && f.sector == LostSector(g, NoRoom(g, d0, f0), |c|) && Intact(g, d0, f0, ch0, dir, d, ch, c)
    ensures f.cursor == 0 && f.size == f.fileSector * 512 == |c|
    ensures f.flags.canWrite == f0.flags.canWrite && f.IsDir() == f0.IsDir()
  {
    hide Worked, Stands, Torn, NoRoom, Adrift, LostSector, Intact;
  }

  lemma MissedIn(g: Geometry, d0: Disk, f0: Desc, ch0: seq<nat>, dir: seq<nat>, d: Disk, f: Desc, ch: seq<nat>,
                 c: seq<byte>)
    requires Missed(g, d0, f0, ch0, dir, d, f, ch, c, |c|) && f0.Pos() == |c| && f0.flags.canWrite
    ensures 512 <= |c| && |f.buffer| == 512 && f.cursor < 512
    ensures Worked(g, d0, f0, ch0, dir, d, Shown(Slipped, 0, f), ch, c[..|c| - 512] + f.buffer, |c| - 512)
    ensures f.flags.canWrite == f0.flags.canWrite && f.IsDir() == f0.IsDir()
  {
    hide Worked, Stands, NoRoom, Adrift, LostSector;
  }

  /** What a write to f0 relies on: the file itself, a file put back by a sector, or nothing. */
  datatype Footing = Firm | Slipped | Gone

  /** The record that stands for the file once k bytes have been written. */
  function Shown(how: Footing, k: nat, f: Desc): Desc {
    if how.Slipped? && k == 0 then Marked(f) else f
  }

  /**
   The outcome of appending data to f0 when the seek to the end does not arrive, k bytes of it having
   been taken: they are not behind the content c. Either they overwrite the last sector of the file, in
   which something else has been put before, or they are in the buffer of a sector that is not the file's.
   */
  ghost predicate Misplaced(g: Geometry, d0: Disk, f0: Desc, ch0: seq<nat>, dir: seq<nat>, d: Disk, f: Desc,
                            ch: seq<nat>, c: seq<byte>, data: seq<byte>, k: nat) {
    && 0 < k <= |data|
    && !Worked(g, d0, f0, ch0, dir, d, f, ch, Splice(c, |c|, data[..k]), |c| + k)
    && if f0.Pos() == |c| then
         512 <= |c| && exists b: seq<byte> :: Overlaid(g, d0, f0, ch0, dir, d, f, ch, c, b, data[..k])
       else
         && k == |data| && f.flags.dirty && f.sector == LostSector(g, NoRoom(g, d0, f0), |c|)
         && |f.buffer| == 512 && k <= 512 && f.buffer[..k] == data && f.size == |c| + k
         && Adrift(f, ch) && Intact(g, d0, f0, ch0, dir, d, ch, c)
  }

  /** The last sector of c has been replaced by b with data over its start. */
  ghost predicate Overlaid(g: Geometry, d0: Disk, f0: Desc, ch0: seq<nat>, dir: seq<nat>, d: Disk, f: Desc,
                           ch: seq<nat>, c: seq<byte>, b: seq<byte>, data: seq<byte>)
    requires 512 <= |c|
  {
    && |b| == 512
    && Worked(g, d0, f0, ch0, dir, d, f, ch, Splice(c[..|c| - 512] + b, |c| - 512, data), |c| - 512 + |data|)
  }

  lemma MisplacedIn(g: Geometry, d0: Disk, f0: Desc, ch0: seq<nat>, dir: seq<nat>, d: Disk, f: Desc, ch: seq<nat>,
                    c: seq<byte>, b: seq<byte>, data: seq<byte>, k: nat)
    requires f0.Pos() == |c| && 512 <= |c| && |b| == 512 && 0 < k <= |data|
    requires Worked(g, d0, f0, ch0, dir, d, f, ch, Splice(c[..|c| - 512] + b, |c| - 512, data[..k]), |c| - 512 + k)
    ensures Misplaced(g, d0, f0, ch0, dir, d, f, ch, c, data, k)
  {
    hide Inv, Content, Frame, Splice, SlotStep;
    assert Overlaid(g, d0, f0, ch0, dir, d, f, ch, c, b, data[..k]);
  }

  lemma MisplacedOut(g: Geometry, d0: Disk, f0: Desc, ch0: seq<nat>, dir: seq<nat>, d: Disk, f: Desc, ch: seq<nat>,
                     c: seq<byte>, data: seq<byte>)
    requires f0.Pos() != |c| && 0 < |data| <= 512 && Adrift(f, ch) && Intact(g, d0, f0, ch0, dir, d, ch, c)
    requires f.flags.dirty && f.sector == LostSector(g, NoRoom(g, d0, f0), |c|)
    requires |f.buffer| == 512 && f.buffer[..|data|] == data && f.size == |c| + |data|
    ensures Misplaced(g, d0, f0, ch0, dir, d, f, ch, c, data, |data|)
  {
    hide Worked, Splice, LostSector, NoRoom, Adrift, Intact;
    AdriftNotWorked(g, d0, f0, ch0, dir, d, f, ch, Splice(c, |c|, data[..|data|]), |c| + |data|);
  }

  /** Putting the first byte does not depend on whether the buffer is marked as unsaved. */
  lemma WorkedPutShown(g: Geometry, d0: Disk, f0: Desc, ch0: seq<nat>, dir: seq<nat>, how: Footing, k: nat, d: Disk,
                       f: Desc, ch: seq<nat>, c: seq<byte>, pos: nat, b: byte)
    requires Worked(g, d0, f0, ch0, dir, d, Shown(how, k, f), ch, c, pos) && f.cursor < 512 && f.flags.canWrite
    requires f.IsDir() || (pos + 1 < 0x8000_0000 && |c| + 1 < 0x8000_0000)
    ensures |f.buffer| == 512 && pos <= |c|
    ensures Worked(g, d0, f0, ch0, dir, d, BytePut(f, b), ch, Splice(c, pos, [b]), pos + 1)
  {
    hide Worked, Splice;
    WorkedPut(g, d0, f0, ch0, dir, d, Shown(how, k, f), ch, c, pos, b);
    assert BytePut(Shown(how, k, f), b) == BytePut(f, b);
  }

  lemma MissedWitness(g: Geometry, d0: Disk, f0: Desc, ch0: seq<nat>, dir: seq<nat>, f1: Desc, d: Disk, ch: seq<nat>,
                      c: seq<byte>, pos: nat)
    requires Stands(g, d0, f0, ch0, dir, d, f1, ch, c, pos)
    ensures Worked(g, d0, f0, ch0, dir, d, View(g, f1, ch), ch, c, pos)
  {
  }

  /** The same, told from the record that stood for the file after the flush. */
  lemma MissedSeek(g: Geometry, d0: Disk, f0: Desc, ch0: seq<nat>, dir: seq<nat>, f1: Desc, d: Disk, f: Desc,
                   ch: seq<nat>, c: seq<byte>, t: nat)
    requires View(g, f0, ch0) == f0 && Stands(g, d0, f0, ch0, dir, d, f1, ch, c, f0.Pos())
    requires !Stands(g, d0, f0, ch0, dir, d, f, ch, c, t)
    requires f1.cursor == f0.cursor && f1.fileSector == f0.fileSector && f1.size == f0.size
    requires f1.flags.canWrite == f0.flags.canWrite && f1.IsDir() == f0.IsDir()
    requires Lost(g, NoRoom(g, d0, f0), f1, t, f, ch)
    requires f0.Pos() == t ==>
      && f0.cursor == 512 && t == |c| && f.sector < |d| && (NoRoom(g, d0, f0) || FatShown(g, d, f))
      && (f0.flags.canWrite ==> Torn(g, d0, f0, ch0, dir, d, f, ch, c))
    ensures Missed(g, d0, f0, ch0, dir, d, f, ch, c, t)
  {
    hide Worked, NoRoom, Torn, Adrift, LostSector, Stands;
    MissedWitness(g, d0, f0, ch0, dir, f1, d, ch, c, f0.Pos());
    assert Worked(g, d0, f0, ch0, dir, d, View(g, f1, ch), ch, c, f0.Pos());
  }

  lemma AdriftNotInv(g: Geometry, d: Disk, f: Desc, ch: seq<nat>, dir: seq<nat>)
    requires Adrift(f, ch)
    ensures !Inv(g, d, f, ch, dir)
  {
    if Inv(g, d, f, ch, dir) { BogusCluster(g, d, f, ch, dir); }
  }

  lemma AdriftNotWorked(g: Geometry, d0: Disk, f0: Desc, ch0: seq<nat>, dir: seq<nat>, d: Disk, f: Desc, ch: seq<nat>,
                        c: seq<byte>, t: nat)
    requires Adrift(f, ch)
    ensures !Worked(g, d0, f0, ch0, dir, d, f, ch, c, t)
  {
    AdriftNotInv(g, d, f, ch, dir);
  }

  /** Unsaved data without a cluster, and a target in another sector. */
  lemma NoRoomMoves(g: Geometry, d: Disk, f: Desc, ch: seq<nat>, dir: seq<nat>, t: nat)
    requires Inv(g, d, f, ch, dir) && NoRoom(g, d, f) && t <= f.size && t / 512 != f.Pos() / 512
    ensures if f.cursor == 512 then t < 512 else t == 512
    ensures g.spc > 0 && (ClusterIndex(t, g.spc) == ClusterIndex(f.Pos(), g.spc) <==> g.spc > 1)
    ensures g.spc == 1 ==> ClusterIndex(t, g.spc) == if t < 512 then 0 else 1
  {
    hide Inv, NoRoom, Content, Quot, Rem, ClusterIndex, SectorIndex;
    NoRoomPlace(g, d, f, ch, dir);
    SeekMath(t, g.spc);
    SeekMath(f.Pos(), g.spc);
    if g.spc > 1 {
      QuotRemUnique(0, 0, g.spc);
      QuotRemUnique(0, 1, g.spc);
    } else {
      QuotRemUnique(t / 512, 0, 1);
      QuotRemUnique(f.Pos() / 512, 0, 1);
    }
  }

  /** Hopping with unsaved data that has no cluster: the record is left on sector 1, or on the last number there is. */
  lemma NoRoomHop(g: Geometry, d0: Disk, f0: Desc, ch0: seq<nat>, dir: seq<nat>, d: Disk, f: Desc, ch: seq<nat>,
                  c: seq<byte>, pos: nat, t: nat, f': Desc)
    requires Worked(g, d0, f0, ch0, dir, d, f, ch, c, pos) && NoRoom(g, d, f) && t <= |c| && t / 512 != pos / 512
    requires g.spc > 0 && ClusterIndex(t, g.spc) == ClusterIndex(pos, g.spc)
    requires f'.sector == Wrap32(f.sector + t / 512 - pos / 512) && f'.size == f.size
    requires f'.flags == f.flags && f'.meta == f.meta
    requires f'.fileSector == t / 512 && f'.cursor == t % 512
    ensures !Arrives(g, d, f, ch, t) && !Worked(g, d0, f0, ch0, dir, d, f', ch, c, t)
    ensures Lost(g, true, f, t, f', ch)
  {
    hide Worked, Inv, Content, NoRoom, ClusterIndex;
    WorkedFacts(g, d0, f0, ch0, dir, d, f, ch, c, pos);
    assert f.flags.dirty by { NoRoomDirty(g, d, f); }
    NoRoomPlace(g, d, f, ch, dir);
    NoRoomMoves(g, d, f, ch, dir, t);
    AdriftNotWorked(g, d0, f0, ch0, dir, d, f', ch, c, t);
  }

  lemma NoRoomDirty(g: Geometry, d: Disk, f: Desc)
    requires NoRoom(g, d, f)
    ensures f.flags.dirty && f.sector == 0
  {
  }

  /** Walking the chain with unsaved data that has no cluster. */
  lemma NoRoomWalked(g: Geometry, d0: Disk, f0: Desc, ch0: seq<nat>, dir: seq<nat>, d: Disk, f: Desc, ch: seq<nat>,
                     c: seq<byte>, pos: nat, t: nat, f': Desc)
    requires Worked(g, d0, f0, ch0, dir, d, f, ch, c, pos) && NoRoom(g, d, f) && t <= |c| && t / 512 != pos / 512
    requires g.spc == 1 && f' == SeekTo(g, f, t, if t < 512 then 0 else 0xFFFF_FFFF, f'.buffer)
    requires f'.sector < |d| ==> f'.buffer == d[f'.sector]
    ensures Worked(g, d0, f0, ch0, dir, d, f', ch, c, t) <==> Arrives(g, d, f, ch, t)
    ensures Arrives(g, d, f, ch, t) ==> f'.sector < |d|
    ensures !Arrives(g, d, f, ch, t) ==> Lost(g, true, f, t, f', ch)
  {
    hide Worked, Inv, Content, NoRoom, ClusterIndex, Lucky, Wrap32, Quot, Rem;
    WorkedFacts(g, d0, f0, ch0, dir, d, f, ch, c, pos);
    NoRoomDirty(g, d, f);
    NoRoomPlace(g, d, f, ch, dir);
    NoRoomMoves(g, d, f, ch, dir, t);
    QuotRemUnique(t / 512, 0, 1);
    assert Rem(t / 512, 1) == 0;
    if t == 512 {
      AdriftNotWorked(g, d0, f0, ch0, dir, d, f', ch, c, t);
    } else {
      WrapTurns(g.cluster0, 0);
      assert Wrap32(0 * g.spc) == 0 by { WrapTurns(0, 0); }
      assert f'.sector == g.cluster0;
      if g.cluster0 != 0 {
        AdriftNotWorked(g, d0, f0, ch0, dir, d, f', ch, c, t);
        NotLucky(g, d, f);
      } else {
        OnDevice(g, d, f, ch, dir);
        BackAtStart(g, d0, f0, ch0, dir, d, f, ch, c, pos, t, f');
      }
    }
  }

  lemma NotLucky(g: Geometry, d: Disk, f: Desc)
    ensures Lucky(g, d, f) ==> g.cluster0 == 0
    ensures |d| > 0 && g.spc == 1 && g.cluster0 == 0 ==> (Lucky(g, d, f) <==> f.buffer == d[0])
  {
  }

  /** The record is back on sector 0, with what the device has there in its buffer. */
  lemma BackAtStart(g: Geometry, d0: Disk, f0: Desc, ch0: seq<nat>, dir: seq<nat>, d: Disk, f: Desc, ch: seq<nat>,
                    c: seq<byte>, pos: nat, t: nat, f': Desc)
    requires Worked(g, d0, f0, ch0, dir, d, f, ch, c, pos) && NoRoom(g, d, f) && f.size == 512 && t < 512
    requires g.spc == 1 && g.cluster0 == 0 && |d| > 0
    requires f' == f.(cursor := t, buffer := d[0])
    ensures Worked(g, d0, f0, ch0, dir, d, f', ch, c, t) <==> Lucky(g, d, f)
  {
    hide Inv, Content, Frame, Table, VolumeOk, NoRoom, SlotFound;
    NoRoomDirty(g, d, f);
    assert Inv(g, d, f, ch, dir);
    NoRoomPlace(g, d, f, ch, dir);
    OtherBuffer(g, d, f, ch, dir, t);
    BufferContent(g, d, f, ch, dir);
    BufferContent(g, d, f', ch, dir);
  }

  lemma OtherBuffer(g: Geometry, d: Disk, f: Desc, ch: seq<nat>, dir: seq<nat>, t: nat)
    requires Inv(g, d, f, ch, dir) && f.sector == 0 && |d| > 0 && t <= f.size && t < 512
    ensures Inv(g, d, f.(cursor := t, buffer := d[0]), ch, dir)
  {
    hide Table, SlotFirst, SlotSize, Quiet, Track;
    assert |d[0]| == 512;
  }

  lemma BufferContent(g: Geometry, d: Disk, f: Desc, ch: seq<nat>, dir: seq<nat>)
    requires Inv(g, d, f, ch, dir) && f.sector == 0 && f.size == 512
    ensures |f.buffer| == 512 && Content(g, d, f, ch, dir) == f.buffer
  {
    hide Inv, Content, Sectors, SectorOf;
    UnplacedChain(g, d, f, ch, dir);
    InvReadable(g, d, f, ch, dir);
    var c := Content(g, d, f, ch, dir);
    forall p | 0 <= p < 512 ensures c[p] == f.buffer[p] {
      ContentAt(g, d, f, ch, dir, p);
    }
  }

  /** A walk past the end of the chain leaves the record on the sector of cluster number 0xFFFF_FFFF: there a
      reader can rest. */
  lemma LostWalk(g: Geometry, d0: Disk, f0: Desc, ch0: seq<nat>, dir: seq<nat>, d: Disk, f: Desc, ch: seq<nat>,
                 c: seq<byte>, pos: nat, t: nat, f': Desc)
    requires Worked(g, d0, f0, ch0, dir, d, f, ch, c, pos) && !f.flags.dirty && !f.IsDir() && f.sector != 0
    requires t <= |c| && t != pos && !Reachable(g, d, f, ch, t) && (f'.sector < |d| ==> f'.buffer == d[f'.sector])
    requires g.spc > 0 && f' == SeekTo(g, f, t, 0xFFFF_FFFF, f'.buffer)
    ensures if RestsAt(g, d, f, ch, t) then f'.sector < |d| && Stands(g, d0, f0, ch0, dir, d, f', ch, c, t)
            else !Stands(g, d0, f0, ch0, dir, d, f', ch, c, t) && Lost(g, false, f, t, f', ch)
  {
    hide Worked, Inv, Content, Wrap32, Quot, Rem, ClusterIndex, Sectors, Reachable, RestsAt, Stands;
    WorkedFacts(g, d0, f0, ch0, dir, d, f, ch, c, pos);
    BehindChain(g, d, f, ch, dir, t);
    LostPlace(g, f, t, f');
    if RestsAt(g, d, f, ch, t) {
      RestReached(g, d0, f0, ch0, dir, d, f, ch, c, pos, t, f');
    } else {
      NoRest(g, d0, f0, ch0, dir, d, f, ch, c, pos, t, f');
    }
  }

  /** Where the walk past the end of the chain has led. */
  lemma LostPlace(g: Geometry, f: Desc, t: nat, f': Desc)
    requires g.spc > 0 && t % 512 == 0 && Rem(t / 512, g.spc) == 0
    requires f' == SeekTo(g, f, t, 0xFFFF_FFFF, f'.buffer)
    ensures f'.sector == BogusSector(g) && f'.cursor == 0 && f'.fileSector == t / 512 && f'.cluster == 0xFFFF_FFFF
  {
    hide Wrap32, Rem;
  }

  /** A reader that has gone behind its last cluster rests there. */
  lemma RestReached(g: Geometry, d0: Disk, f0: Desc, ch0: seq<nat>, dir: seq<nat>, d: Disk, f: Desc, ch: seq<nat>,
                    c: seq<byte>, pos: nat, t: nat, f': Desc)
    requires Worked(g, d0, f0, ch0, dir, d, f, ch, c, pos) && !f.flags.dirty && !f.IsDir() && f.sector != 0
    requires t <= |c| && RestsAt(g, d, f, ch, t) && g.spc > 0 && f' == SeekTo(g, f, t, 0xFFFF_FFFF, f'.buffer)
    requires f'.sector == BogusSector(g) && f'.cursor == 0 && f'.fileSector == t / 512
    requires f'.sector < |d| ==> f'.buffer == d[f'.sector]
    ensures f'.sector < |d| && Stands(g, d0, f0, ch0, dir, d, f', ch, c, t)
  {
    hide Worked, Inv, Content, SeekTo, Sectors, BogusSector, SectorOf, ClusterOf, LeftAt, IsRoot, Table;
    WorkedFacts(g, d0, f0, ch0, dir, d, f, ch, c, pos);
    ChainEnds(g, d, f, ch, dir);
    var v := View(g, f', ch);
    var m := v.(buffer := d[v.sector]);
    SeekKeeps(g, f, t, f');
    MoveKeeps(g, d, f, m, ch, dir);
    SpentKeeps(g, d, m, ch, dir, f'.buffer);
    assert m.(buffer := f'.buffer) == v;
    WorkedMoved(g, d0, f0, ch0, dir, d, f, ch, c, pos, v);
  }

  lemma SeekKeeps(g: Geometry, f: Desc, t: nat, f': Desc)
    requires g.spc > 0 && f' == SeekTo(g, f, t, 0xFFFF_FFFF, f'.buffer)
    ensures f' == f.(cluster := 0xFFFF_FFFF, sector := f'.sector, sectorsLeft := f'.sectorsLeft,
                     fileSector := f'.fileSector, cursor := f'.cursor, buffer := f'.buffer)
  {
    hide Wrap32, Rem;
  }

  lemma ChainEnds(g: Geometry, d: Disk, f: Desc, ch: seq<nat>, dir: seq<nat>)
    requires Inv(g, d, f, ch, dir) && f.sector != 0 && !f.IsDir()
    ensures HasLast(g, ch) && VolumeOk(g, d) && 0 < SectorOf(g, ch, Sectors(g, ch) - 1) < |d| && g.spc > 0
    ensures forall s :: 0 <= s < |d| ==> |d[s]| == 512
  {
    assert ch[0] >= 2;
    assert Sectors(g, ch) > 0;
    TrackSector(g, |d|, Table(g, d), ch, Sectors(g, ch) - 1);
  }

  /** A record on cluster number 0xFFFF_FFFF that is no resting reader's stands for no file. */
  lemma NoRest(g: Geometry, d0: Disk, f0: Desc, ch0: seq<nat>, dir: seq<nat>, d: Disk, f: Desc, ch: seq<nat>,
               c: seq<byte>, pos: nat, t: nat, f': Desc)
    requires Worked(g, d0, f0, ch0, dir, d, f, ch, c, pos) && !f.IsDir() && f.sector != 0 && t != pos
    requires !RestsAt(g, d, f, ch, t) && f'.cluster == 0xFFFF_FFFF && f'.fileSector * 512 + f'.cursor == t
    requires f'.flags == f.flags
    ensures !Stands(g, d0, f0, ch0, dir, d, f', ch, c, t)
  {
    hide Content, Frame, Table, SlotStep, BogusSector, SectorOf, ClusterOf, LeftAt, IsRoot, Sectors, Synced, Titled;
    assert Inv(g, d, f, ch, dir);
    PlacedFirst(g, d, f, ch, dir);
  }

  lemma PlacedFirst(g: Geometry, d: Disk, f: Desc, ch: seq<nat>, dir: seq<nat>)
    requires Inv(g, d, f, ch, dir) && f.sector != 0 && !f.IsDir()
    ensures f.first != 0
  {
    assert ch[0] >= 2;
  }

  /** A resting reader can go anywhere in its file. */
  lemma RestPlace(g: Geometry, d: Disk, f: Desc, ch: seq<nat>, dir: seq<nat>, t: nat)
    requires Resting(g, d, f, ch) && Inv(g, d, View(g, f, ch), ch, dir) && t <= f.size
    ensures g.spc > 0 && Arrives(g, d, f, ch, t)
    ensures t / 512 == f.Pos() / 512 <==> t == f.Pos()
    ensures t != f.Pos() ==>
      Reachable(g, d, View(g, f, ch), ch, t) && ClusterIndex(t, g.spc) != ClusterIndex(f.Pos(), g.spc)
    ensures t % 512 == 0 || t != f.Pos()
  {
    hide Inv, Content, Sectors, BogusSector, View, Reachable, Stuck;
    var v := View(g, f, ch);
    RestFacts(g, d, f, ch, dir);
    StuckPlace(g, d, v, ch, dir, t);
    PlacedFirst(g, d, v, ch, dir);
  }

  lemma RestSeeks(g: Geometry, d: Disk, f: Desc, ch: seq<nat>, dir: seq<nat>, t: nat)
    requires Resting(g, d, f, ch) && Inv(g, d, View(g, f, ch), ch, dir) && t <= f.size
    ensures SeekWorks(g, d, f, ch, t)
  {
    hide SeekWorks, Arrives, View, Resting;
    RestPlace(g, d, f, ch, dir, t);
    RestFacts(g, d, f, ch, dir);
    RestFlags(g, d, f, ch);
    SeekAfterFlush(g, d, f, ch, dir, d, f, ch, t);
  }

  /** A resting reader has walked its chain to the cluster of the target. */
  lemma RestWalked(g: Geometry, d0: Disk, v0: Desc, ch0: seq<nat>, dir: seq<nat>, d: Disk, f: Desc, ch: seq<nat>,
                   c: seq<byte>, t: nat, f1: Desc, f2: Desc)
    requires Stands(g, d0, v0, ch0, dir, d, f, ch, c, f.Pos()) && Resting(g, d, f, ch) && t < f.Pos() && t <= |c|
    requires g.spc > 0 && Walking(g, d, f, ch, d, f1, ch, ClusterIndex(t, g.spc))
    requires f2 == SeekTo(g, f1, t, f1.cluster, f2.buffer) && (f2.sector < |d| ==> f2.buffer == d[f2.sector])
    ensures f2.sector < |d| && Worked(g, d0, v0, ch0, dir, d, f2, ch, c, t)
  {
    hide Worked, Inv, Content, Quot, Rem, Wrap32, Sectors, ClusterIndex, View, Resting, Stuck, VolumeOk, Table;
    var v, n := View(g, f, ch), ClusterIndex(t, g.spc);
    WorkedFacts(g, d0, v0, ch0, dir, d, v, ch, c, f.Pos());
    RestFacts(g, d, f, ch, dir);
    SeekMath(t, g.spc);
    Landed(g, d, v, ch, dir, t, ch[n], f2);
    WorkedMoved(g, d0, v0, ch0, dir, d, v, ch, c, f.Pos(), f2);
  }

  /** A target that cannot be reached is the end of the last cluster. */
  lemma BehindChain(g: Geometry, d: Disk, f: Desc, ch: seq<nat>, dir: seq<nat>, t: nat)
    requires Inv(g, d, f, ch, dir) && f.sector != 0 && !f.IsDir() && !Reachable(g, d, f, ch, t)
    ensures g.spc > 0 && t % 512 == 0 && Rem(t / 512, g.spc) == 0
  {
    hide Inv, Quot, Rem, Sectors, CanGrow, Table, VolumeOk, IsChain;
    ChainOf(g, d, f, ch, dir);
    WholeClusters(g, ch);
    QuotRemUnique(|ch|, 0, g.spc);
  }

  lemma WholeClusters(g: Geometry, ch: seq<nat>)
    requires |ch| > 0 && ch[0] >= 2
    ensures Sectors(g, ch) == |ch| * g.spc
  {
  }

  lemma NotAtEnd(g: Geometry, d: Disk, f: Desc, ch: seq<nat>, dir: seq<nat>, t: nat)
    requires Inv(g, d, f, ch, dir) && !f.IsDir() && f.cursor < 512 && t / 512 == f.fileSector
    ensures Reachable(g, d, f, ch, t)
  {
  }

  lemma NotWorked(g: Geometry, d0: Disk, f0: Desc, ch0: seq<nat>, dir: seq<nat>, d: Disk, f: Desc, ch: seq<nat>,
                  c: seq<byte>, t: nat)
    requires f.Pos() != t
    ensures !Worked(g, d0, f0, ch0, dir, d, f, ch, c, t)
  {
  }

  /** What a seek inside the cluster leaves. */
  lemma HopDone(g: Geometry, d0: Disk, f0: Desc, ch0: seq<nat>, dir: seq<nat>, d: Disk, f: Desc, ch: seq<nat>,
                c: seq<byte>, pos: nat, t: nat)
    requires Worked(g, d0, f0, ch0, dir, d, f, ch, c, pos) && !f.IsDir() && t <= |c| && t / 512 != pos / 512
    requires g.spc > 0 && ClusterIndex(t, g.spc) == ClusterIndex(pos, g.spc)
    requires !f.flags.dirty && (f.cursor < 512 || (f.sector != 0 && Stuck(g, d, f, ch)))
    ensures pos / 512 == f.fileSector && Arrives(g, d, f, ch, t)
    ensures 0 < f.sector + t / 512 - f.fileSector < |d| <= 0x1_0000_0000
    ensures 0 <= f.sectorsLeft - t / 512 + f.fileSector < 256
    ensures Worked(g, d0, f0, ch0, dir, d, Hopped(f, t, d[f.sector + t / 512 - f.fileSector]), ch, c, t)
  {
    hide Worked, Inv, Content, Reachable, RestsAt, View, Stuck, Quot, ClusterIndex, Moved;
    WorkedFacts(g, d0, f0, ch0, dir, d, f, ch, c, pos);
    ViewSame(g, d, f, ch, dir);
    if f.cursor == 512 { StuckPlace(g, d, f, ch, dir, t); }
    SeekMath(t, g.spc);
    SeekMath(pos, g.spc);
    HopPlaced(g, d, f, ch, dir, t);
    InCluster(g, d, f, ch, dir, t);
    var f' := Hopped(f, t, d[f.sector + t / 512 - f.fileSector]);
    WorkedMoved(g, d0, f0, ch0, dir, d, f, ch, c, pos, f');
    NotAtEnd(g, d, f', ch, dir, t);
    ReachMoved(g, d, f, f', ch, t);
  }

  lemma HopPlaced(g: Geometry, d: Disk, f: Desc, ch: seq<nat>, dir: seq<nat>, t: nat)
    requires Inv(g, d, f, ch, dir) && !f.flags.dirty && !f.IsDir() && t <= f.size && t / 512 != f.fileSector
    requires f.cursor < 512
    ensures f.sector != 0
  {
  }

  lemma ReachMoved(g: Geometry, d: Disk, f: Desc, f': Desc, ch: seq<nat>, t: nat)
    requires f.sector != 0 && f'.sector != 0 && f'.flags == f.flags && Reachable(g, d, f', ch, t)
    ensures Reachable(g, d, f, ch, t)
  {
  }

  /** The walk has gone n clusters: through the chain, or into the new cluster behind it. */
  lemma WalkDone(g: Geometry, d0: Disk, f0: Desc, ch0: seq<nat>, dir: seq<nat>, d: Disk, f: Desc, ch: seq<nat>,
                 c: seq<byte>, pos: nat, d1: Disk, f1: Desc, ch1: seq<nat>, t: nat, n: nat, f2: Desc)
    requires Worked(g, d0, f0, ch0, dir, d, f, ch, c, pos) && !f.flags.dirty && !f.IsDir() && 0 < f.sector < |d|
    requires t <= |c| && g.spc > 0 && n == ClusterIndex(t, g.spc)
    requires if n < |ch| then Walking(g, d, f, ch, d1, f1, ch1, n)
             else n == |ch| && Extended(g, d, f, ch, dir, d1, f1, ch1)
    requires f2 == SeekTo(g, f1, t, f1.cluster, f2.buffer) && (f2.sector < |d1| ==> f2.buffer == d1[f2.sector])
    ensures f2.sector < |d1| && Worked(g, d0, f0, ch0, dir, d1, f2, ch1, c, t)
  {
    hide Worked, Inv, Content, Kept, Quot, Rem, Wrap32, Reachable, IsChain, Sectors, IsRoot, Frame, SectorOf, At,
      VolumeOk, Table, ClusterIndex;
    WorkedFacts(g, d0, f0, ch0, dir, d, f, ch, c, pos);
    WalkStart(g, d, f, ch, dir, t);
    SeekMath(t, g.spc);
    OwnWalk(g, d, f, ch, dir);
    if n < |ch| {
      BeforeEnd(g, d, f, ch, dir, t);
      KeptRefl(g, d, Parked(d, f, f.cluster), ch, dir);
      Arrived(g, d0, f0, ch0, dir, d, f, ch, c, pos, d, Parked(d, f, f.cluster), ch, t, f1.cluster, f2);
    } else {
      OnTrack(g, f, ch);
      AppendToWalk(g, d, ch, f1.cluster, f.fileSector);
      var p := Parked(d1, f1, f.cluster);
      assert p.sector != 0 && !p.flags.dirty;
      Arrived(g, d0, f0, ch0, dir, d, f, ch, c, pos, d1, p, ch1, t, f1.cluster, f2);
    }
  }

  lemma OnTrack(g: Geometry, f: Desc, ch: seq<nat>)
    requires At(g, f, ch, f.fileSector)
    ensures f.fileSector < Sectors(g, ch)
  {
  }

  lemma BeforeEnd(g: Geometry, d: Disk, f: Desc, ch: seq<nat>, dir: seq<nat>, t: nat)
    requires Inv(g, d, f, ch, dir) && !f.IsDir() && f.sector != 0 && t <= f.size && t != Sectors(g, ch) * 512
    ensures t < Sectors(g, ch) * 512
  {
  }
}
