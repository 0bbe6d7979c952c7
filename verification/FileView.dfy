/**
 A reader behind the last cluster. A seek to the end of a file that ends with its last cluster finds no
 cluster to stand on. A file open for reading only needs none: its record then stands on a sector that is
 not the file's, but no call looks at that sector before it moves on, and the record acts as one whose
 cursor has just rolled off the last sector.
 */
module FileView {
  import opened Bytes
  import opened Chains
  import opened Layout
  import opened Tracks
  import opened FileSpec
  import opened FileBytes

  /** The sector that cluster number 0xFFFF_FFFF stands for in 32-bit arithmetic. */
  function BogusSector(g: Geometry): nat {
    Wrap32(Wrap32(0xFFFF_FFFF * g.spc) + g.cluster0)
  }

  /** The walk over the chain has a last sector. */
  ghost predicate HasLast(g: Geometry, ch: seq<nat>) {
    && g.spc > 0 && !IsRoot(g, ch) && Sectors(g, ch) > 0
    && SectorOf(g, ch, Sectors(g, ch) - 1) >= 0 && LeftAt(g, ch, Sectors(g, ch) - 1) >= 0
  }

  /** A reader on the sector of cluster number 0xFFFF_FFFF, at the end of its last cluster. */
  ghost predicate Resting(g: Geometry, d: Disk, f: Desc, ch: seq<nat>) {
    && !f.IsDir() && !f.flags.canWrite && !f.flags.dirty && f.cluster == 0xFFFF_FFFF && HasLast(g, ch)
    && f.cursor == 0 && f.fileSector == Sectors(g, ch) && f.sector == BogusSector(g) < |d|
  }

  /** The record with the cursor rolled off the last sector of the file. */
  ghost function RolledOff(g: Geometry, f: Desc, ch: seq<nat>): Desc
    requires HasLast(g, ch)
  {
    var i := Sectors(g, ch) - 1;
    f.(cluster := ClusterOf(g, ch, i), sector := SectorOf(g, ch, i), sectorsLeft := LeftAt(g, ch, i),
       fileSector := i, cursor := 512)
  }

  /** What a record acts as. */
  ghost function View(g: Geometry, f: Desc, ch: seq<nat>): Desc {
    if f.cluster == 0xFFFF_FFFF && HasLast(g, ch) then RolledOff(g, f, ch) else f
  }

  /** A record stands for a file: cluster number 0xFFFF_FFFF is for resting readers only. */
  ghost predicate Shows(g: Geometry, d: Disk, f: Desc, ch: seq<nat>) {
    f.cluster == 0xFFFF_FFFF ==> Resting(g, d, f, ch)
  }

  /** The file has been worked on, and its record acts as one with content c and position pos. */
  ghost predicate Stands(g: Geometry, d0: Disk, v0: Desc, ch0: seq<nat>, dir: seq<nat>,
                         d: Disk, f: Desc, ch: seq<nat>, c: seq<byte>, pos: nat) {
    Shows(g, d, f, ch) && Worked(g, d0, v0, ch0, dir, d, View(g, f, ch), ch, c, pos)
  }

  /** No file holds cluster 0xFFFFFFFF. */
  lemma BogusCluster(g: Geometry, d: Disk, f: Desc, ch: seq<nat>, dir: seq<nat>)
    requires Inv(g, d, f, ch, dir)
    ensures f.cluster != 0xFFFF_FFFF
  {
    if f.sector != 0 { TrackSector(g, |d|, Table(g, d), ch, f.fileSector); }
  }

  /** A record that meets the invariant acts as itself. */
  lemma ViewSame(g: Geometry, d: Disk, f: Desc, ch: seq<nat>, dir: seq<nat>)
    requires Inv(g, d, f, ch, dir)
    ensures View(g, f, ch) == f && Shows(g, d, f, ch) && f.cluster != 0xFFFF_FFFF
  {
    BogusCluster(g, d, f, ch, dir);
  }

  lemma RestFlags(g: Geometry, d: Disk, f: Desc, ch: seq<nat>)
    ensures Resting(g, d, f, ch) ==>
      && f.cluster == 0xFFFF_FFFF && f.cursor == 0 && f.sector < |d| && Shows(g, d, f, ch)
      && !f.flags.dirty && !f.flags.canWrite && !f.IsDir()
  {
  }

  lemma StandsPlain(g: Geometry, d0: Disk, v0: Desc, ch0: seq<nat>, dir: seq<nat>, d: Disk, f: Desc, ch: seq<nat>,
                    c: seq<byte>, pos: nat)
    ensures Worked(g, d0, v0, ch0, dir, d, f, ch, c, pos) ==> Stands(g, d0, v0, ch0, dir, d, f, ch, c, pos)
    ensures Stands(g, d0, v0, ch0, dir, d, f, ch, c, pos)
            && (f.flags.dirty || f.flags.canWrite || f.cluster != 0xFFFF_FFFF) ==>
      Worked(g, d0, v0, ch0, dir, d, f, ch, c, pos)
  {
    if Worked(g, d0, v0, ch0, dir, d, f, ch, c, pos) {
      ViewSame(g, d, f, ch, dir);
    }
  }

  lemma SectorOfRolled(g: Geometry, d: Disk, v: Desc, ch: seq<nat>, dir: seq<nat>)
    requires Inv(g, d, v, ch, dir) && HasLast(g, ch)
    ensures v.sector != 0 && VolumeOk(g, d)
  {
  }

  /** A resting reader is at the end of its file. */
  lemma RestFacts(g: Geometry, d: Disk, f: Desc, ch: seq<nat>, dir: seq<nat>)
    requires Resting(g, d, f, ch) && Inv(g, d, View(g, f, ch), ch, dir)
    ensures var v := View(g, f, ch);
      && v.Pos() == f.Pos() == f.size == |Content(g, d, v, ch, dir)| == Sectors(g, ch) * 512
      && !f.IsDir() && v.sector != 0 && !v.IsDir() && !v.flags.dirty && Stuck(g, d, v, ch) && VolumeOk(g, d)
      && v == f.(cluster := v.cluster, sector := v.sector, sectorsLeft := v.sectorsLeft, fileSector := v.fileSector,
                 cursor := 512)
  {
    var v := View(g, f, ch);
    hide Table, IsChain, SectorOf, ClusterOf, LeftAt, Sectors, Synced, Titled, Quiet, SlotFields;
    SectorOfRolled(g, d, v, ch, dir);
  }

  /** A record that meets the invariant, or that of a resting reader, before anything has been done. */
  lemma StandsNothing(g: Geometry, d: Disk, f: Desc, ch: seq<nat>, dir: seq<nat>)
    requires (Inv(g, d, f, ch, dir) && Roomy(g, d, f, dir))
             || (Resting(g, d, f, ch) && Inv(g, d, View(g, f, ch), ch, dir))
    ensures f.flags.dirty || f.flags.canWrite ==> Inv(g, d, f, ch, dir)
    ensures var v := View(g, f, ch);
      && Inv(g, d, v, ch, dir) && Shows(g, d, f, ch) && Roomy(g, d, v, dir)
      && (Inv(g, d, f, ch, dir) ==> v == f && f.cluster != 0xFFFF_FFFF)
      && Stands(g, d, v, ch, dir, d, f, ch, Content(g, d, v, ch, dir), f.Pos())
  {
    hide Inv, Content, Worked, Resting, HasLast, View;
    RestFlags(g, d, f, ch);
    if Inv(g, d, f, ch, dir) {
      ViewSame(g, d, f, ch, dir);
      WorkedNothing(g, d, f, ch, dir);
    } else {
      RestFacts(g, d, f, ch, dir);
      WorkedNothing(g, d, View(g, f, ch), ch, dir);
    }
  }

  lemma StandsFacts(g: Geometry, d0: Disk, v0: Desc, ch0: seq<nat>, dir: seq<nat>, d: Disk, f: Desc, ch: seq<nat>,
                    c: seq<byte>, pos: nat)
    requires Stands(g, d0, v0, ch0, dir, d, f, ch, c, pos)
    ensures Inv(g, d, View(g, f, ch), ch, dir) && Content(g, d, View(g, f, ch), ch, dir) == c && VolumeOk(g, d)
    ensures f.cluster == 0xFFFF_FFFF ==> Resting(g, d, f, ch) && f.Pos() == |c| && !f.IsDir() && f.sector < |d|
    ensures f.cluster == 0xFFFF_FFFF ==> f.cursor == 0 && !f.flags.dirty && !f.flags.canWrite
    ensures f.cluster != 0xFFFF_FFFF ==> View(g, f, ch) == f && Worked(g, d0, v0, ch0, dir, d, f, ch, c, pos)
    ensures f.Pos() == pos <= |c| && (!f.IsDir() ==> |c| == f.size < 0x8000_0000) && f.cursor <= 512
    ensures f.IsDir() == v0.IsDir() && f.flags == v0.flags.(dirty := f.flags.dirty, fsDirty := f.flags.fsDirty)
    ensures Roomy(g, d0, v0, dir) ==> Roomy(g, d, f, dir)
  {
    hide Inv, Content, Worked, HasLast;
    var v := View(g, f, ch);
    WorkedFacts(g, d0, v0, ch0, dir, d, v, ch, c, pos);
    WorkedMode(g, d0, v0, ch0, dir, d, v, ch, c, pos);
    ShortContent(g, d, v, ch, dir);
    if f.cluster == 0xFFFF_FFFF { RestFacts(g, d, f, ch, dir); }
  }

  lemma WorkedMode(g: Geometry, d0: Disk, f0: Desc, ch0: seq<nat>, dir: seq<nat>, d: Disk, f: Desc, ch: seq<nat>,
                   c: seq<byte>, pos: nat)
    requires Worked(g, d0, f0, ch0, dir, d, f, ch, c, pos)
    ensures f.flags == f0.flags.(dirty := f.flags.dirty, fsDirty := f.flags.fsDirty)
  {
  }

  lemma ShortContent(g: Geometry, d: Disk, v: Desc, ch: seq<nat>, dir: seq<nat>)
    requires Inv(g, d, v, ch, dir)
    ensures VolumeOk(g, d) && (!v.IsDir() ==> v.size < 0x8000_0000)
  {
  }

  /** A record whose cursor has rolled off is not a resting reader's. */
  lemma StandsRolled(g: Geometry, d0: Disk, v0: Desc, ch0: seq<nat>, dir: seq<nat>, d: Disk, f: Desc, ch: seq<nat>,
                     c: seq<byte>, pos: nat)
    requires Stands(g, d0, v0, ch0, dir, d, f, ch, c, pos) && f.cursor == 512
    ensures Worked(g, d0, v0, ch0, dir, d, f, ch, c, pos)
  {
    hide Worked;
  }

  // ---------------------------------------------------------------- the copying loop of a read

  /** After i bytes: a file that works has given the next i bytes of its content, a resting reader nothing. */
  ghost predicate Copied(g: Geometry, works: bool, d0: Disk, f0: Desc, ch0: seq<nat>, dir: seq<nat>,
                         d: Disk, f: Desc, ch: seq<nat>, c: seq<byte>, i: nat, out0: seq<byte>, out: seq<byte>) {
    if works then
      && f0.Pos() + i <= |c| && Filled(out, c, f0.Pos(), i, out0)
      && Worked(g, d0, f0, ch0, dir, d, f, ch, c, f0.Pos() + i)
    else i == 0 && f == f0 && d == d0 && ch == ch0 && out == out0
  }

  lemma CopyStart(g: Geometry, works: bool, d: Disk, f: Desc, ch: seq<nat>, dir: seq<nat>, c: seq<byte>, out: seq<byte>)
    requires works ==> Inv(g, d, f, ch, dir) && c == Content(g, d, f, ch, dir)
    ensures Copied(g, works, d, f, ch, dir, d, f, ch, c, 0, out, out)
  {
    hide Inv, Content, Worked, Filled;
    if works {
      WorkedNothing(g, d, f, ch, dir);
      WorkedFacts(g, d, f, ch, dir, d, f, ch, c, f.Pos());
      FillStart(c, f.Pos(), out);
    }
  }

  /** What the loop may rely on; a resting reader has reached the end. */
  lemma CopyHere(g: Geometry, works: bool, d0: Disk, f0: Desc, ch0: seq<nat>, dir: seq<nat>,
                 d: Disk, f: Desc, ch: seq<nat>, c: seq<byte>, i: nat, out0: seq<byte>, out: seq<byte>)
    requires Copied(g, works, d0, f0, ch0, dir, d, f, ch, c, i, out0, out)
    requires !works ==> Resting(g, d0, f0, ch0) && Inv(g, d0, View(g, f0, ch0), ch0, dir)
    ensures works ==>
      && Worked(g, d0, f0, ch0, dir, d, f, ch, c, f0.Pos() + i) && f.cursor <= 512 && f0.Pos() + i <= |c|
      && (if f.IsDir() then f.cursor < 512 ==> f0.Pos() + i < |c| else |c| == f.size) && f.Pos() == f0.Pos() + i
    ensures !works ==> !f.IsDir() && f.Pos() == f.size
  {
    hide Inv, Content, Worked, Filled, Resting, View;
    if works {
      WorkedFacts(g, d0, f0, ch0, dir, d, f, ch, c, f0.Pos() + i);
    } else {
      RestFacts(g, d, f, ch, dir);
    }
  }

  /** The loop ends after the bytes asked for or at the end of the file. */
  lemma CopyDone(g: Geometry, works: bool, d0: Disk, f0: Desc, ch0: seq<nat>, dir: seq<nat>,
                 d: Disk, f: Desc, ch: seq<nat>, c: seq<byte>, i: nat, out0: seq<byte>, out: seq<byte>)
    requires Copied(g, works, d0, f0, ch0, dir, d, f, ch, c, i, out0, out) && (works ==> Inv(g, d0, f0, ch0, dir))
    ensures works ==>
      && f0.Pos() + i <= |c| && Filled(out, c, f0.Pos(), i, out0)
      && Worked(g, d0, f0, ch0, dir, d, f, ch, c, f0.Pos() + i)
    ensures Resting(g, d0, f0, ch0) ==> i == 0 && f == f0 && d == d0 && ch == ch0 && out == out0
  {
    hide Inv, Worked, Filled;
    if works { BogusCluster(g, d0, f0, ch0, dir); }
  }

  /** One more byte, or the end of the file. */
  lemma CopyNext(g: Geometry, d0: Disk, f0: Desc, ch0: seq<nat>, dir: seq<nat>, d: Disk, f: Desc, ch: seq<nat>,
                 c: seq<byte>, i: nat, out0: seq<byte>, out: seq<byte>, d': Disk, f': Desc, ch': seq<nat>)
    requires Copied(g, true, d0, f0, ch0, dir, d, f, ch, c, i, out0, out)
    ensures Worked(g, d0, f0, ch0, dir, d', f', ch', c, f0.Pos() + i) ==>
      Copied(g, true, d0, f0, ch0, dir, d', f', ch', c, i, out0, out)
    ensures f0.Pos() + i < |c| && i < |out0| && Worked(g, d0, f0, ch0, dir, d', f', ch', c, f0.Pos() + i + 1) ==>
      && |out| == |out0|
      && Copied(g, true, d0, f0, ch0, dir, d', f', ch', c, i + 1, out0, out[i := c[f0.Pos() + i]])
  {
    hide Worked, Filled;
    if f0.Pos() + i < |c| && i < |out0| {
      FillStep(out, c, f0.Pos(), i, out0);
    }
  }
}
