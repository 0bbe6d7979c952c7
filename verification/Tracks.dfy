/**
 The sectors a descriptor walks over: a cluster chain, or the fixed root directory of a
 FAT16 volume, which the driver gives the cluster number 1.
 */
module Tracks {
  import opened Bytes
  import opened Chains
  import opened Division
  import opened Layout

  ghost predicate IsRoot(g: Geometry, ch: seq<nat>) {
    !g.fat32 && ch == [1]
  }

  ghost predicate Track(g: Geometry, t: seq<nat>, ch: seq<nat>) {
    IsRoot(g, ch) || IsChain(t, g.EndMarker(), g.limit, ch)
  }

  /**
   The number of sectors the walk visits. For the fixed root it is one more than the root has,
   because the driver sets sectors_left to root_len.
   */
  ghost function Sectors(g: Geometry, ch: seq<nat>): nat {
    if IsRoot(g, ch) then g.rootLen + 1 else |ch| * g.spc
  }

  /** The cluster number the descriptor holds in the i-th sector of the walk. */
  ghost function ClusterOf(g: Geometry, ch: seq<nat>, i: nat): nat
    requires g.spc > 0 && i < Sectors(g, ch)
  {
    if IsRoot(g, ch) then 1 else
    QuotBound(i, |ch|, g.spc);
    ch[Quot(i, g.spc)]
  }

  /** The i-th sector of the walk. */
  ghost function SectorOf(g: Geometry, ch: seq<nat>, i: nat): int
    requires g.spc > 0 && i < Sectors(g, ch)
  {
    if IsRoot(g, ch) then g.rootStart + i
    else g.Base(ClusterOf(g, ch, i)) + Rem(i, g.spc)
  }

  /** How many sectors the walk can go on without looking at the FAT. */
  ghost function LeftAt(g: Geometry, ch: seq<nat>, i: nat): int
    requires g.spc > 0
  {
    if IsRoot(g, ch) then g.rootLen - i else g.spc - 1 - Rem(i, g.spc)
  }

  lemma TrackSector(g: Geometry, n: nat, t: seq<nat>, ch: seq<nat>, i: nat)
    requires g.Valid(n) && Track(g, t, ch) && i < Sectors(g, ch)
    ensures 0 < SectorOf(g, ch, i) < n && !g.InFat(SectorOf(g, ch, i))
    ensures !IsRoot(g, ch) ==>
      && ClusterOf(g, ch, i) in ch && 2 <= ClusterOf(g, ch, i) < g.limit
      && g.Owns(ClusterOf(g, ch, i), SectorOf(g, ch, i))
    ensures 0 <= LeftAt(g, ch, i) < 256
  {
    if IsRoot(g, ch) {
      ClusterToSector(g, n, 2);
    } else {
      QuotBound(i, |ch|, g.spc);
      assert ch[Quot(i, g.spc)] == ClusterOf(g, ch, i);
      ClusterToSector(g, n, ClusterOf(g, ch, i));
      ClusterInData(g, n, ClusterOf(g, ch, i), SectorOf(g, ch, i));
    }
  }

  /** A walk visits no sector twice. */
  lemma SectorsDistinct(g: Geometry, n: nat, t: seq<nat>, ch: seq<nat>, i: nat, j: nat)
    requires g.Valid(n) && Track(g, t, ch) && i < Sectors(g, ch) && j < Sectors(g, ch)
    requires SectorOf(g, ch, i) == SectorOf(g, ch, j)
    ensures i == j
  {
    if !IsRoot(g, ch) {
      TrackSector(g, n, t, ch, i);
      TrackSector(g, n, t, ch, j);
      ClustersDisjoint(g, ClusterOf(g, ch, i), ClusterOf(g, ch, j), SectorOf(g, ch, i));
      QuotBound(i, |ch|, g.spc);
      QuotBound(j, |ch|, g.spc);
      var a, b := Quot(i, g.spc), Quot(j, g.spc);
      if a < b { ChainAcyclic(t, g.EndMarker(), g.limit, ch, a, b); }
      if b < a { ChainAcyclic(t, g.EndMarker(), g.limit, ch, b, a); }
      QuotRem(i, g.spc);
      QuotRem(j, g.spc);
    }
  }

  /** One step of a walk inside a cluster. */
  lemma StepInside(g: Geometry, ch: seq<nat>, i: nat)
    requires g.spc > 0 && i < Sectors(g, ch) && LeftAt(g, ch, i) > 0
    ensures i + 1 < Sectors(g, ch)
    ensures SectorOf(g, ch, i + 1) == SectorOf(g, ch, i) + 1
    ensures ClusterOf(g, ch, i + 1) == ClusterOf(g, ch, i)
    ensures LeftAt(g, ch, i + 1) == LeftAt(g, ch, i) - 1
  {
    if !IsRoot(g, ch) {
      QuotStep(i, g.spc);
      QuotBound(i, |ch|, g.spc);
      QuotRem(i + 1, g.spc);
      ProductMonotone(Quot(i, g.spc) + 1, |ch|, g.spc);
      assert (Quot(i, g.spc) + 1) * g.spc == Quot(i, g.spc) * g.spc + g.spc;
    }
  }

  /** The last sector of a cluster: the next one, if any, starts the next cluster of the chain. */
  lemma StepAcross(g: Geometry, ch: seq<nat>, i: nat)
    requires g.spc > 0 && i < Sectors(g, ch) && LeftAt(g, ch, i) == 0 && !IsRoot(g, ch)
    ensures Quot(i, g.spc) < |ch| && ClusterOf(g, ch, i) == ch[Quot(i, g.spc)]
    ensures i + 1 == (Quot(i, g.spc) + 1) * g.spc
    ensures i + 1 < Sectors(g, ch) <==> Quot(i, g.spc) + 1 < |ch|
    ensures i + 1 < Sectors(g, ch) ==>
      && ClusterOf(g, ch, i + 1) == ch[Quot(i, g.spc) + 1]
      && SectorOf(g, ch, i + 1) == g.Base(ch[Quot(i, g.spc) + 1])
      && LeftAt(g, ch, i + 1) == g.spc - 1
  {
    QuotStep(i, g.spc);
    QuotBound(i, |ch|, g.spc);
    QuotRem(i, g.spc);
    var q := Quot(i, g.spc);
    assert (q + 1) * g.spc == q * g.spc + g.spc;
    if q + 1 < |ch| {
      ProductMonotone(q + 2, |ch|, g.spc);
      assert (q + 2) * g.spc == (q + 1) * g.spc + g.spc;
    }
  }

  /** The first sector of the q-th cluster of a chain, and the ones behind it. */
  lemma ClusterStart(g: Geometry, ch: seq<nat>, q: nat, r: nat)
    requires !IsRoot(g, ch) && q < |ch| && r < g.spc
    ensures q * g.spc + r < Sectors(g, ch)
    ensures ClusterOf(g, ch, q * g.spc + r) == ch[q]
    ensures SectorOf(g, ch, q * g.spc + r) == g.Base(ch[q]) + r
    ensures LeftAt(g, ch, q * g.spc + r) == g.spc - 1 - r
  {
    QuotRemUnique(q, r, g.spc);
    ProductMonotone(q + 1, |ch|, g.spc);
    assert (q + 1) * g.spc == q * g.spc + g.spc;
  }

  /** Appending a cluster to a chain leaves the sectors before it where they were. */
  lemma AppendCluster(g: Geometry, ch: seq<nat>, k: nat, i: nat)
    requires g.spc > 0 && |ch| > 0 && ch[0] >= 2 && i < Sectors(g, ch)
    ensures Sectors(g, ch + [k]) == Sectors(g, ch) + g.spc
    ensures SectorOf(g, ch + [k], i) == SectorOf(g, ch, i)
    ensures ClusterOf(g, ch + [k], i) == ClusterOf(g, ch, i)
    ensures LeftAt(g, ch + [k], i) == LeftAt(g, ch, i)
  {
    QuotBound(i, |ch|, g.spc);
    assert (|ch| + 1) * g.spc == |ch| * g.spc + g.spc;
  }

  /** What the driver computes when it selects the first cluster of a walk is its first sector. */
  lemma SelectedFirst(g: Geometry, n: nat, t: seq<nat>, ch: seq<nat>)
    requires g.Valid(n) && Track(g, t, ch)
    ensures |ch| > 0 && 0 < Sectors(g, ch) && ClusterOf(g, ch, 0) == ch[0]
    ensures SectorOf(g, ch, 0) == if ch[0] == 1 then g.rootStart else Wrap32(Wrap32(ch[0] * g.spc) + g.cluster0)
    ensures LeftAt(g, ch, 0) == if ch[0] == 1 then g.rootLen else g.spc - 1
  {
    if !IsRoot(g, ch) {
      ClusterStart(g, ch, 0, 0);
      ClusterToSector(g, n, ch[0]);
    }
  }
}
