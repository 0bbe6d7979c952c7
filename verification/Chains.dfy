/**
 The file allocation table as a heap of linked lists. A table t maps a cluster number to
 the value of its entry; a value at or above the end mark m ends a chain; the clusters a
 file may own are 2 <= c < lim. Nothing here knows how entries are laid out in sectors.
 */
module Chains {

  /** ch is the cluster chain that starts at ch[0]. */
  ghost predicate IsChain(t: seq<nat>, m: nat, lim: nat, ch: seq<nat>) {
    && |ch| > 0 && lim <= |t| && lim <= m
    && (forall i :: 0 <= i < |ch| ==> 2 <= ch[i] < lim)
    && (forall i :: 0 <= i < |ch| - 1 ==> t[ch[i]] == ch[i + 1])
    && t[ch[|ch| - 1]] >= m
  }

  ghost predicate Disjoint(a: seq<nat>, b: seq<nat>) {
    forall c :: c in a ==> c !in b
  }

  // ---------------------------------------------------------------- shape of one chain

  /** A terminated chain cannot visit a cluster twice. */
  lemma {:induction false} ChainAcyclic(t: seq<nat>, m: nat, lim: nat, ch: seq<nat>, i: nat, j: nat)
    requires IsChain(t, m, lim, ch) && i < j < |ch|
    ensures ch[i] != ch[j]
    decreases |ch| - j
  {
    if ch[i] == ch[j] {
      assert t[ch[i]] == ch[i + 1];
      if j + 1 < |ch| {
        assert t[ch[j]] == ch[j + 1];
        ChainAcyclic(t, m, lim, ch, i + 1, j + 1);
      }
      assert false;
    }
  }

  lemma ChainEntriesInUse(t: seq<nat>, m: nat, lim: nat, ch: seq<nat>)
    requires IsChain(t, m, lim, ch) && m > 0
    ensures forall c :: c in ch ==> 2 <= c < lim && t[c] != 0
  {
    forall c | c in ch ensures 2 <= c < lim && t[c] != 0 {
      var i :| 0 <= i < |ch| && ch[i] == c;
      if i < |ch| - 1 { assert t[ch[i]] == ch[i + 1]; }
    }
  }

  /** The first cluster determines the whole chain. */
  lemma {:induction false} ChainUnique(t: seq<nat>, m: nat, lim: nat, a: seq<nat>, b: seq<nat>)
    requires IsChain(t, m, lim, a) && IsChain(t, m, lim, b) && a[0] == b[0]
    ensures a == b
    decreases |a|
  {
    assert |a| > 1 ==> t[a[0]] == a[1];
    assert |b| > 1 ==> t[b[0]] == b[1];
    if |a| > 1 {
      ChainUnique(t, m, lim, a[1..], b[1..]);
      assert a == [a[0]] + a[1..] && b == [b[0]] + b[1..];
    }
  }

  /** A chain survives every change of the table outside its own entries. */
  lemma ChainFrame(t: seq<nat>, t': seq<nat>, m: nat, lim: nat, ch: seq<nat>)
    requires IsChain(t, m, lim, ch) && |t'| == |t|
    requires forall c :: c in ch ==> t'[c] == t[c]
    ensures IsChain(t', m, lim, ch)
  {
    assert ch[|ch| - 1] in ch;
    forall i | 0 <= i < |ch| - 1 ensures t'[ch[i]] == ch[i + 1] {
      assert ch[i] in ch;
    }
  }

  /** Linking a free cluster k behind the tail of a chain gives the chain with k appended. */
  lemma ExtendChain(t: seq<nat>, m: nat, lim: nat, ch: seq<nat>, k: nat, e: nat)
    requires IsChain(t, m, lim, ch) && 0 < m <= e
    requires 2 <= k < lim && t[k] == 0
    ensures k !in ch
    ensures IsChain(t[k := e][ch[|ch| - 1] := k], m, lim, ch + [k])
  {
    ChainEntriesInUse(t, m, lim, ch);
    assert k !in ch;
    var n := |ch|;
    var t' := t[k := e][ch[n - 1] := k];
    var ch' := ch + [k];
    assert ch[n - 1] in ch;
    forall i | 0 <= i < n ensures t'[ch'[i]] == ch'[i + 1] {
      assert ch[i] in ch;
      if i < n - 1 {
        ChainAcyclic(t, m, lim, ch, i, n - 1);
        assert t[ch[i]] == ch[i + 1];
      }
    }
  }

  /** c is the lowest-numbered free entry. */
  ghost predicate LeastFree(t: seq<nat>, c: nat) {
    c < |t| && t[c] == 0 && forall x :: 0 <= x < c ==> t[x] != 0
  }

  ghost predicate Full(t: seq<nat>) {
    forall c :: 0 <= c < |t| ==> t[c] != 0
  }

  // ---------------------------------------------------------------- the heap of chains

  ghost predicate Owned(chains: seq<seq<nat>>, c: nat) {
    exists i :: 0 <= i < |chains| && c in chains[i]
  }

  ghost predicate AllDisjoint(chains: seq<seq<nat>>) {
    forall i, j :: 0 <= i < |chains| && 0 <= j < |chains| && i != j ==> Disjoint(chains[i], chains[j])
  }

  /** A file's clusters: none yet, or a chain. */
  ghost predicate NoneOrChain(t: seq<nat>, m: nat, lim: nat, ch: seq<nat>) {
    ch == [] || IsChain(t, m, lim, ch)
  }

  /** Pairwise disjoint chains that own exactly the clusters of the volume which are in use. */
  ghost predicate Heap(t: seq<nat>, m: nat, lim: nat, chains: seq<seq<nat>>) {
    && 0 < m && lim <= |t| && lim <= m
    && (forall i :: 0 <= i < |chains| ==> NoneOrChain(t, m, lim, chains[i]))
    && AllDisjoint(chains)
    && (forall c :: 2 <= c < lim ==> (t[c] != 0 <==> Owned(chains, c)))
  }

  lemma OwnedAfterAppend(chains: seq<seq<nat>>, ch: seq<nat>, c: nat)
    ensures Owned(chains + [ch], c) <==> Owned(chains, c) || c in ch
  {
    var chains' := chains + [ch];
    if Owned(chains, c) {
      var i :| 0 <= i < |chains| && c in chains[i];
      assert c in chains'[i];
    }
    if c in ch { assert c in chains'[|chains|]; }
  }

  /** From t to t' only chain ch has grown, to ch': what a call on one file does to the table. */
  ghost predicate Grew(t: seq<nat>, t': seq<nat>, ch: seq<nat>, ch': seq<nat>) {
    && |t'| == |t|
    && (forall c :: 0 <= c < |t| && t[c] != 0 && c !in ch ==> t'[c] == t[c])
    && (forall c :: 0 <= c < |t| && t[c] != 0 ==> t'[c] != 0)
    && (forall c :: 0 <= c < |t| && t[c] == 0 && c !in ch' ==> t'[c] == 0)
    && (forall c :: c in ch' ==> c in ch || (c < |t| && t[c] == 0))
    && (forall c :: c in ch ==> c in ch')
  }

  lemma OtherChainStays(t: seq<nat>, t': seq<nat>, m: nat, lim: nat, chains: seq<seq<nat>>, x: nat, ch': seq<nat>,
      i: nat)
    requires Heap(t, m, lim, chains) && x < |chains| && i < |chains| && i != x && Grew(t, t', chains[x], ch')
    ensures NoneOrChain(t', m, lim, chains[i]) && Disjoint(chains[i], ch') && Disjoint(ch', chains[i])
  {
    assert NoneOrChain(t, m, lim, chains[i]) && Disjoint(chains[i], chains[x]) && Disjoint(chains[x], chains[i]);
    if chains[i] != [] {
      ChainEntriesInUse(t, m, lim, chains[i]);
      ChainFrame(t, t', m, lim, chains[i]);
    }
  }

  lemma OwnedAfterGrowth(t: seq<nat>, t': seq<nat>, m: nat, lim: nat, chains: seq<seq<nat>>, x: nat, ch': seq<nat>,
      c: nat)
    requires Heap(t, m, lim, chains) && x < |chains| && Grew(t, t', chains[x], ch') && 2 <= c < lim
    requires NoneOrChain(t', m, lim, ch')
    ensures t'[c] != 0 <==> Owned(chains[x := ch'], c)
  {
    var chains' := chains[x := ch'];
    if t'[c] != 0 {
      if t[c] != 0 {
        var i :| 0 <= i < |chains| && c in chains[i];
        assert c in chains'[i];
      } else {
        assert c in chains'[x];
      }
    }
    if Owned(chains', c) {
      var i :| 0 <= i < |chains'| && c in chains'[i];
      if i == x {
        ChainEntriesInUse(t', m, lim, ch');
      } else {
        assert c in chains[i];
        assert Owned(chains, c);
      }
    }
  }

  /** Growth of one chain keeps the heap: no cluster is shared, and none is lost. */
  lemma GrowthKeepsHeap(t: seq<nat>, t': seq<nat>, m: nat, lim: nat, chains: seq<seq<nat>>, x: nat, ch': seq<nat>)
    requires Heap(t, m, lim, chains) && x < |chains| && Grew(t, t', chains[x], ch') && NoneOrChain(t', m, lim, ch')
    ensures Heap(t', m, lim, chains[x := ch'])
  {
    hide Grew, NoneOrChain, Disjoint, Owned;
    GrewLength(t, t', chains[x], ch');
    var chains' := chains[x := ch'];
    forall i | 0 <= i < |chains'| ensures NoneOrChain(t', m, lim, chains'[i]) {
      if i != x { OtherChainStays(t, t', m, lim, chains, x, ch', i); }
    }
    forall i, j | 0 <= i < |chains'| && 0 <= j < |chains'| && i != j ensures Disjoint(chains'[i], chains'[j]) {
      if i == x { OtherChainStays(t, t', m, lim, chains, x, ch', j); }
      if j == x { OtherChainStays(t, t', m, lim, chains, x, ch', i); }
    }
    forall c | 2 <= c < lim ensures t'[c] != 0 <==> Owned(chains', c) {
      OwnedAfterGrowth(t, t', m, lim, chains, x, ch', c);
    }
  }

  lemma GrewLength(t: seq<nat>, t': seq<nat>, ch: seq<nat>, ch': seq<nat>)
    requires Grew(t, t', ch, ch')
    ensures |t'| == |t|
  {
  }

  /** A new file adds an empty chain. */
  lemma NewFileKeepsHeap(t: seq<nat>, m: nat, lim: nat, chains: seq<seq<nat>>)
    requires Heap(t, m, lim, chains)
    ensures Heap(t, m, lim, chains + [[]])
  {
    var chains' := chains + [[]];
    forall i, j | 0 <= i < |chains'| && 0 <= j < |chains'| && i != j ensures Disjoint(chains'[i], chains'[j]) {
      if i < |chains| && j < |chains| { assert Disjoint(chains[i], chains[j]); }
    }
    forall c | 2 <= c < lim ensures t[c] != 0 <==> Owned(chains', c) {
      OwnedAfterAppend(chains, [], c);
    }
  }

  /** Marking a free cluster as an end of chain gives a file without clusters its first one. */
  lemma AllocateKeepsHeap(t: seq<nat>, m: nat, lim: nat, chains: seq<seq<nat>>, x: nat, k: nat, e: nat)
    requires Heap(t, m, lim, chains) && m <= e && x < |chains| && chains[x] == [] && 2 <= k < lim && t[k] == 0
    ensures Heap(t[k := e], m, lim, chains[x := [k]])
  {
    GrowthKeepsHeap(t, t[k := e], m, lim, chains, x, [k]);
  }

  /** Extension appends the cluster to one chain and leaves every other chain as it was. */
  lemma ExtendKeepsHeap(t: seq<nat>, m: nat, lim: nat, chains: seq<seq<nat>>, x: nat, k: nat, e: nat)
    requires Heap(t, m, lim, chains) && m <= e && x < |chains| && chains[x] != [] && 2 <= k < lim && t[k] == 0
    ensures IsChain(t, m, lim, chains[x])
    ensures Heap(t[k := e][chains[x][|chains[x]| - 1] := k], m, lim, chains[x := chains[x] + [k]])
  {
    var ch := chains[x];
    assert NoneOrChain(t, m, lim, ch);
    ExtendChain(t, m, lim, ch, k, e);
    assert ch[|ch| - 1] in ch;
    GrowthKeepsHeap(t, t[k := e][ch[|ch| - 1] := k], m, lim, chains, x, ch + [k]);
  }

  // ---------------------------------------------------------------- freeing

  /** The table with the entries of the given clusters set to zero. */
  function Zeroed(t: seq<nat>, cs: seq<nat>): (r: seq<nat>)
    ensures |r| == |t|
  {
    seq(|t|, i requires 0 <= i < |t| => if i in cs then 0 else t[i])
  }

  lemma OwnedAfterFree(chains: seq<seq<nat>>, x: nat, c: nat)
    requires x < |chains| && AllDisjoint(chains)
    ensures Owned(chains[x := []], c) <==> Owned(chains, c) && c !in chains[x]
  {
    var chains' := chains[x := []];
    if Owned(chains, c) && c !in chains[x] {
      var i :| 0 <= i < |chains| && c in chains[i];
      assert c in chains'[i];
    }
    if Owned(chains', c) {
      var i :| 0 <= i < |chains'| && c in chains'[i];
      assert Disjoint(chains[i], chains[x]) && c in chains[i];
    }
  }

  lemma DisjointAfterFree(chains: seq<seq<nat>>, x: nat)
    requires x < |chains| && AllDisjoint(chains)
    ensures AllDisjoint(chains[x := []])
  {
    var chains' := chains[x := []];
    forall i, j | 0 <= i < |chains'| && 0 <= j < |chains'| && i != j ensures Disjoint(chains'[i], chains'[j]) {
      assert Disjoint(chains[i], chains[j]);
    }
  }

  /** Freeing a chain empties it and no other: its clusters, and no others, become free. */
  lemma FreeKeepsHeap(t: seq<nat>, m: nat, lim: nat, chains: seq<seq<nat>>, x: nat)
    requires Heap(t, m, lim, chains) && x < |chains|
    ensures Heap(Zeroed(t, chains[x]), m, lim, chains[x := []])
  {
    hide Disjoint, AllDisjoint, NoneOrChain, Owned;
    var t', chains' := Zeroed(t, chains[x]), chains[x := []];
    DisjointAfterFree(chains, x);
    forall i | 0 <= i < |chains'| ensures NoneOrChain(t', m, lim, chains'[i]) {
      OtherChainKept(t, m, lim, chains, x, i);
    }
    forall c | 2 <= c < lim ensures t'[c] != 0 <==> Owned(chains', c) {
      OwnedAfterFree(chains, x, c);
    }
  }

  lemma OtherChainKept(t: seq<nat>, m: nat, lim: nat, chains: seq<seq<nat>>, x: nat, i: nat)
    requires Heap(t, m, lim, chains) && x < |chains| && i < |chains|
    ensures NoneOrChain(Zeroed(t, chains[x]), m, lim, chains[x := []][i])
  {
    assert NoneOrChain(t, m, lim, chains[i]);
    hide IsChain, Owned;
    if i != x && chains[i] != [] { ZeroedKeepsChain(t, m, lim, chains[x], chains[i]); }
  }

  lemma ZeroedKeepsChain(t: seq<nat>, m: nat, lim: nat, cs: seq<nat>, ch: seq<nat>)
    requires IsChain(t, m, lim, ch) && Disjoint(ch, cs)
    ensures IsChain(Zeroed(t, cs), m, lim, ch)
  {
    ChainFrame(t, Zeroed(t, cs), m, lim, ch);
  }

  /** How many entries are in use. */
  function InUse(t: seq<nat>): nat {
    if t == [] then 0 else InUse(t[1..]) + if t[0] != 0 then 1 else 0
  }

  lemma {:induction false} InUseUpdate(t: seq<nat>, c: nat, v: nat)
    requires c < |t|
    ensures InUse(t[c := v]) == InUse(t) - (if t[c] != 0 then 1 else 0) + (if v != 0 then 1 else 0)
  {
    if c == 0 {
      assert t[c := v][1..] == t[1..];
    } else {
      assert t[c := v][1..] == t[1..][c - 1 := v];
      InUseUpdate(t[1..], c - 1, v);
    }
  }

  /** Zeroing distinct entries in use frees as many. */
  lemma {:induction false} ZeroedCount(t: seq<nat>, cs: seq<nat>)
    requires forall i :: 0 <= i < |cs| ==> cs[i] < |t| && t[cs[i]] != 0
    requires forall i, j :: 0 <= i < j < |cs| ==> cs[i] != cs[j]
    ensures InUse(Zeroed(t, cs)) == InUse(t) - |cs|
    decreases |cs|
  {
    if cs == [] {
      assert Zeroed(t, cs) == t;
    } else {
      var t1, rest := t[cs[0] := 0], cs[1..];
      InUseUpdate(t, cs[0], 0);
      ZeroedCount(t1, rest);
      assert cs == [cs[0]] + rest;
      assert Zeroed(t1, rest) == Zeroed(t, cs);
    }
  }

  /** Freeing a chain gives back exactly as many entries as it has clusters. */
  lemma FreedCount(t: seq<nat>, m: nat, lim: nat, ch: seq<nat>)
    requires IsChain(t, m, lim, ch) && m > 0
    ensures InUse(Zeroed(t, ch)) == InUse(t) - |ch|
  {
    ChainEntriesInUse(t, m, lim, ch);
    forall i, j | 0 <= i < j < |ch| ensures ch[i] != ch[j] {
      ChainAcyclic(t, m, lim, ch, i, j);
    }
    ZeroedCount(t, ch);
  }

  /** A chain that has grown from nothing takes exactly as many entries as it has clusters. */
  lemma TakenCount(t: seq<nat>, t': seq<nat>, m: nat, lim: nat, ch: seq<nat>)
    requires Grew(t, t', [], ch) && NoneOrChain(t', m, lim, ch) && m > 0
    ensures InUse(t') == InUse(t) + |ch|
  {
    assert Zeroed(t', ch) == t;
    if ch == [] {
      assert Zeroed(t', []) == t';
    } else {
      FreedCount(t', m, lim, ch);
    }
  }

  /** Every link names an entry of the table, and entry 0 reads as an end mark. */
  ghost predicate Walkable(t: seq<nat>, m: nat) {
    && m > 0 && |t| > 0 && t[0] >= m
    && forall i :: 0 <= i < |t| && t[i] < m ==> t[i] < |t|
  }

  /**
   The chain freer one entry at a time: zero the entry, follow what it held, stop at an end
   mark. The chain need not be well formed; the recursion ends because every step zeroes an
   entry that was in use, or moves to entry 0, which stops it.
   */
  ghost function FreeWalk(t: seq<nat>, m: nat, c: nat): (r: seq<nat>)
    requires Walkable(t, m) && c < |t|
    ensures |r| == |t|
    decreases InUse(t), if t[c] == 0 then 1 else 0
  {
    InUseUpdate(t, c, 0);
    if t[c] >= m then t[c := 0] else
    assert t[c] == 0 ==> t[c := 0] == t;
    FreeWalk(t[c := 0], m, t[c])
  }

  /** The entry the walk starts at is freed, and an entry that is free stays so. */
  lemma {:induction false} FreeWalkZeroes(t: seq<nat>, m: nat, c: nat, x: nat)
    requires Walkable(t, m) && c < |t| && x < |t| && (x == c || t[x] == 0)
    ensures FreeWalk(t, m, c)[x] == 0
    decreases InUse(t), if t[c] == 0 then 1 else 0
  {
    InUseUpdate(t, c, 0);
    if t[c] < m {
      assert t[c] == 0 ==> t[c := 0] == t;
      FreeWalkZeroes(t[c := 0], m, t[c], x);
    }
  }

  /** On a well-formed chain exactly the entries of the chain are freed. */
  lemma {:induction false} FreeWalkOfChain(t: seq<nat>, m: nat, lim: nat, ch: seq<nat>)
    requires Walkable(t, m) && IsChain(t, m, lim, ch)
    ensures FreeWalk(t, m, ch[0]) == Zeroed(t, ch)
    decreases |ch|
  {
    var t1 := t[ch[0] := 0];
    if |ch| == 1 {
      assert t1 == Zeroed(t, ch);
    } else {
      var rest := ch[1..];
      assert t[ch[0]] == ch[1];
      forall c | c in rest ensures t1[c] == t[c] {
        var j :| 0 <= j < |rest| && rest[j] == c;
        ChainAcyclic(t, m, lim, ch, 0, j + 1);
      }
      assert IsChain(t, m, lim, rest) by {
        forall i | 0 <= i < |rest| - 1 ensures t[rest[i]] == rest[i + 1] {
          assert t[ch[i + 1]] == ch[i + 2];
        }
      }
      ChainFrame(t, t1, m, lim, rest);
      FreeWalkOfChain(t1, m, lim, rest);
      assert Zeroed(t1, rest) == Zeroed(t, ch) by {
        assert ch == [ch[0]] + rest;
      }
    }
  }

  /** A walk from c that meets only entries in use, avoids entry 0 and ends at an end mark. */
  ghost predicate Terminated(t: seq<nat>, m: nat, c: nat, p: seq<nat>) {
    && |p| > 0 && p[0] == c
    && (forall i :: 0 <= i < |p| ==> 0 < p[i] < |t|)
    && (forall i :: 0 <= i < |p| - 1 ==> t[p[i]] == p[i + 1])
    && (forall i :: 0 < i < |p| ==> p[i] < m)
    && t[p[|p| - 1]] >= m
  }

  /**
   The freer spares entry 0 exactly when the chain it is given is terminated. A chain that
   runs into a free entry or into itself sends it on to entry 0, which it then zeroes.
   */
  lemma {:induction false} FreeWalkSparesEntry0(t: seq<nat>, m: nat, c: nat)
    requires Walkable(t, m) && 0 < c < |t|
    ensures FreeWalk(t, m, c)[0] == t[0] <==> exists p :: Terminated(t, m, c, p)
    ensures FreeWalk(t, m, c)[0] != t[0] ==> FreeWalk(t, m, c)[0] == 0
    decreases InUse(t)
  {
    InUseUpdate(t, c, 0);
    var t1 := t[c := 0];
    if t[c] >= m {
      assert Terminated(t, m, c, [c]);
    } else if t[c] == 0 {
      assert t1 == t;
      assert FreeWalk(t, m, c) == t[0 := 0];
      forall p | Terminated(t, m, c, p) ensures false {
        TerminatedStart(t, m, c, p);
      }
    } else {
      var d := t[c];
      FreeWalkSparesEntry0(t1, m, d);
      if q :| Terminated(t1, m, d, q) {
        TerminatedCons(t, m, c, q);
      }
      forall p | Terminated(t, m, c, p) ensures exists q :: Terminated(t1, m, d, q) {
        TerminatedTail(t, t1, m, c, p);
      }
    }
  }

  /** Freeing a chain that runs in a circle costs the volume entry 0. */
  lemma CircleCostsEntry0()
    ensures Walkable([0xFFF8, 0xFFFF, 3, 2], 0xFFF0)
    ensures FreeWalk([0xFFF8, 0xFFFF, 3, 2], 0xFFF0, 2) == [0, 0xFFFF, 0, 0]
  {
    var m, t0: seq<nat> := 0xFFF0, [0xFFF8, 0xFFFF, 3, 2];
    var t1: seq<nat>, t2: seq<nat> := [0xFFF8, 0xFFFF, 0, 2], [0xFFF8, 0xFFFF, 0, 0];
    assert t0[2 := 0] == t1 && t1[3 := 0] == t2 && t2[2 := 0] == t2 && t2[0 := 0] == [0, 0xFFFF, 0, 0];
    assert FreeWalk(t2, m, 0) == t2[0 := 0];
    assert FreeWalk(t2, m, 2) == FreeWalk(t2, m, 0);
    assert FreeWalk(t1, m, 3) == FreeWalk(t2, m, 2);
  }

  lemma TerminatedStart(t: seq<nat>, m: nat, c: nat, p: seq<nat>)
    requires m > 0 && c < |t| && Terminated(t, m, c, p)
    ensures t[c] != 0
  {
    if |p| > 1 { assert t[p[0]] == p[1]; }
  }

  /** A terminated walk in the table after the first step gives one in the table before. */
  lemma TerminatedCons(t: seq<nat>, m: nat, c: nat, q: seq<nat>)
    requires 0 < c < |t| && 0 < t[c] < m && t[c] < |t| && Terminated(t[c := 0], m, t[c], q)
    ensures Terminated(t, m, c, [c] + q)
  {
    var p := [c] + q;
    forall i | 0 <= i < |p| - 1 ensures t[p[i]] == p[i + 1] {
      if i > 0 {
        assert t[c := 0][q[i - 1]] == q[i];
      }
    }
  }

  /** The rest of a terminated walk is terminated in the table its first step leaves. */
  lemma TerminatedTail(t: seq<nat>, t1: seq<nat>, m: nat, c: nat, p: seq<nat>)
    requires c < |t| && 0 < t[c] < m && Terminated(t, m, c, p) && t1 == t[c := 0]
    ensures exists q :: Terminated(t1, m, t[c], q)
  {
    assert |p| > 1 && t[p[0]] == p[1];
    var q := p[1..];
    forall i | 0 <= i < |q| ensures q[i] != c {
      WalkAcyclic(t, m, c, p, 0, i + 1);
    }
    forall i | 0 <= i < |q| - 1 ensures t1[q[i]] == q[i + 1] {
      assert t[p[i + 1]] == p[i + 2];
    }
    assert Terminated(t1, m, t[c], q);
  }

  lemma {:induction false} WalkAcyclic(t: seq<nat>, m: nat, c: nat, p: seq<nat>, i: nat, j: nat)
    requires Terminated(t, m, c, p) && i < j < |p|
    ensures p[i] != p[j]
    decreases |p| - j
  {
    if p[i] == p[j] {
      assert t[p[i]] == p[i + 1] < m;
      if j + 1 < |p| {
        assert t[p[j]] == p[j + 1];
        WalkAcyclic(t, m, c, p, i + 1, j + 1);
      }
      assert false;
    }
  }
}
