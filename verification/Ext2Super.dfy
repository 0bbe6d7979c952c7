/** The list of superblock copies that ext2_mount builds, and the power test it relies on. */
module Ext2Super {
  import opened Bytes
  import opened Division

  /** x is p to some power, 1 included. */
  ghost predicate IsPowerOf(x: nat, p: nat) {
    exists k: nat :: x == Power(p, k)
  }

  /** A multiple of p is a power of p exactly when its p-th part is. */
  lemma DividedPower(x: nat, p: nat)
    requires x >= 1 && p >= 2 && Rem(x, p) == 0
    ensures 1 <= Quot(x, p) < x && (IsPowerOf(x, p) <==> IsPowerOf(Quot(x, p), p))
  {
    var y := Quot(x, p);
    QuotRem(x, p);
    hide Quot, Rem;
    assert x == y * p;
    if y >= 1 { ProductMonotone(2, p, y); }
    if IsPowerOf(x, p) {
      var k: nat :| x == Power(p, k);
      assert k > 0;
      Factors(p, y, Power(p, k - 1));
    }
    if IsPowerOf(y, p) {
      var k: nat :| y == Power(p, k);
      assert x == Power(p, k + 1);
    }
  }

  lemma Factors(p: nat, a: nat, b: nat)
    requires p > 0 && a * p == p * b
    ensures a == b
  {
    QuotRemUnique(a, 0, p);
    QuotRemUnique(b, 0, p);
    assert a * p == b * p;
  }

  /** A number p does not divide is a power of p only when it is 1. */
  lemma UndividedPower(x: nat, p: nat)
    requires p >= 2 && Rem(x, p) != 0
    ensures IsPowerOf(x, p) <==> x == 1
  {
    hide Rem;
    if IsPowerOf(x, p) {
      var k: nat :| x == Power(p, k);
      if k > 0 {
        assert Power(p, k - 1) * p == x;
        QuotRemUnique(Power(p, k - 1), 0, p);
      }
    }
    assert Power(p, 0) == 1;
  }

  /** The loop of is_power; it ends because x is not 0. */
  method IsPower(x: nat, ofy: nat) returns (r: bool)
    requires x >= 1 && ofy >= 2
    ensures r <==> IsPowerOf(x, ofy)
  {
    hide IsPowerOf;
    var y := x;
    while Rem(y, ofy) == 0
      invariant y >= 1 && (IsPowerOf(x, ofy) <==> IsPowerOf(y, ofy))
      decreases y
    {
      DividedPower(y, ofy);
      y := Quot(y, ofy);
    }
    UndividedPower(y, ofy);
    return y == 1;
  }

  // ---------------------------------------------------------------- the list

  /** The groups for which the condition of the two passes holds. */
  ghost predicate Selected(i: nat) {
    i == 0 || i == 1 || IsPowerOf(3, i) || IsPowerOf(5, i) || IsPowerOf(7, i)
  }

  /** The selected groups below n. */
  ghost function Listed(n: nat): seq<nat> {
    if n == 0 then [] else if Selected(n - 1) then Listed(n - 1) + [n - 1] else Listed(n - 1)
  }

  lemma {:induction false} ListedInOrder(n: nat)
    ensures forall i :: i in Listed(n) ==> i < n && Selected(i)
    ensures forall j, k :: 0 <= j < k < |Listed(n)| ==> Listed(n)[j] < Listed(n)[k]
  {
    if n > 0 {
      ListedInOrder(n - 1);
      var l := Listed(n - 1);
      forall j, k | 0 <= j < k < |Listed(n)| ensures Listed(n)[j] < Listed(n)[k] {
        assert l[j] in l;
      }
    }
  }

  lemma {:induction false} ListedAll(n: nat, i: nat)
    requires i < n && Selected(i)
    ensures i in Listed(n)
  {
    if i < n - 1 { ListedAll(n - 1, i); }
  }

  /** All groups below n. */
  function Groups(n: nat): (l: seq<nat>)
    ensures |l| == n && forall i :: 0 <= i < n ==> l[i] == i
  {
    seq(n, i => i)
  }

  /** The condition of the two passes. */
  method Condition(i: nat) returns (r: bool)
    ensures r <==> Selected(i)
  {
    hide IsPowerOf;
    if i == 0 || i == 1 {
      return true;
    }
    r := IsPower(3, i);
    if !r {
      r := IsPower(5, i);
      if !r {
        r := IsPower(7, i);
      }
    }
  }

  /** How many block groups hold blocks blocks. */
  function GroupCount(blocks: nat, perGroup: nat): nat
    requires perGroup > 0
  {
    Quot(blocks, perGroup) + if Rem(blocks, perGroup) != 0 then 1 else 0
  }

  /** The block of the copy in group i. */
  function CopyBlock(i: nat, perGroup: nat, first: nat): nat {
    i * perGroup + first
  }

  /** Block addresses of groups below the count do not wrap. */
  lemma NoWrap(blocks: nat, perGroup: nat, first: nat, i: nat)
    requires perGroup > 0 && blocks < 0x1_0000_0000 && first <= 1 && i < GroupCount(blocks, perGroup)
    ensures Wrap32(CopyBlock(i, perGroup, first)) == CopyBlock(i, perGroup, first) <= blocks
  {
    QuotRem(blocks, perGroup);
    var q := Quot(blocks, perGroup);
    hide Quot, Rem;
    if i < q {
      ProductMonotone(i + 1, q, perGroup);
      assert (i + 1) * perGroup == i * perGroup + perGroup;
    }
  }

  /** The count is right: every block lies in one of that many groups, and none of the groups is empty. */
  lemma GroupsCover(blocks: nat, perGroup: nat)
    requires perGroup > 0
    ensures forall b: nat :: b < blocks ==> Quot(b, perGroup) < GroupCount(blocks, perGroup)
    ensures forall i: nat :: i < GroupCount(blocks, perGroup) ==> i * perGroup < blocks
  {
    var n := GroupCount(blocks, perGroup);
    QuotRem(blocks, perGroup);
    var q := Quot(blocks, perGroup);
    assert (q + 1) * perGroup == q * perGroup + perGroup;
    forall b: nat | b < blocks ensures Quot(b, perGroup) < n {
      QuotBound(b, n, perGroup);
    }
    forall i: nat | i < n ensures i * perGroup < blocks {
      ProductMonotone(i, n - 1, perGroup);
    }
  }

  /** The block of a copy is the first one of its group, when blocks are counted from the first data block. */
  lemma CopyPlaced(i: nat, perGroup: nat, first: nat)
    requires perGroup > 0
    ensures var b := CopyBlock(i, perGroup, first);
      first <= b && Quot(b - first, perGroup) == i && Rem(b - first, perGroup) == 0
  {
    ProductMonotone(0, i, perGroup);
    QuotRemUnique(i, 0, perGroup);
  }

  /**
   The block numbers of the superblock copies. The counting and the filling pass agree: every
   slot of the list is written, and the list names the selected groups in order, or all groups
   when the volume is not sparse.
   */
  method Superblocks(blocks: nat, perGroup: nat, first: nat, sparse: bool) returns (list: array<nat>, ghost l: seq<nat>)
    requires perGroup > 0 && blocks < 0x1_0000_0000 && first <= 1
    ensures l == if sparse then Listed(GroupCount(blocks, perGroup)) else Groups(GroupCount(blocks, perGroup))
    ensures list.Length == |l| && forall k :: 0 <= k < |l| ==> list[k] == CopyBlock(l[k], perGroup, first)
    ensures forall j, k :: 0 <= j < k < list.Length ==> list[j] < list[k]
  {
    hide Selected, Wrap32, CopyBlock, GroupCount;
    var groups := GroupCount(blocks, perGroup);
    if sparse {
      l := Listed(groups);
      ListedInOrder(groups);
      var count := 0;
      for i := 0 to groups
        invariant count == |Listed(i)|
      {
        var c := Condition(i);
        if c {
          count := count + 1;
        }
      }
      list := new nat[count];
      var n := 0;
      for i := 0 to groups
        invariant n == |Listed(i)| && Listed(i) <= l
        invariant forall k :: 0 <= k < n ==> list[k] == CopyBlock(l[k], perGroup, first)
      {
        PrefixOf(i + 1, groups);
        var c := Condition(i);
        if c {
          NoWrap(blocks, perGroup, first, i);
          assert l[n] == i;
          list[n] := Wrap32(CopyBlock(i, perGroup, first));
          n := n + 1;
        }
      }
    } else {
      l := Groups(groups);
      list := new nat[groups];
      for i := 0 to groups
        invariant forall k :: 0 <= k < i ==> list[k] == CopyBlock(l[k], perGroup, first)
      {
        NoWrap(blocks, perGroup, first, i);
        list[i] := Wrap32(CopyBlock(i, perGroup, first));
      }
    }
    Increasing(l, perGroup, first);
  }

  lemma {:induction false} PrefixOf(i: nat, n: nat)
    requires i <= n
    ensures Listed(i) <= Listed(n)
    decreases n
  {
    if i < n { PrefixOf(i, n - 1); }
  }

  lemma Increasing(l: seq<nat>, perGroup: nat, first: nat)
    requires perGroup > 0 && forall j, k :: 0 <= j < k < |l| ==> l[j] < l[k]
    ensures forall j, k :: 0 <= j < k < |l| ==> CopyBlock(l[j], perGroup, first) < CopyBlock(l[k], perGroup, first)
  {
    forall j, k | 0 <= j < k < |l| ensures CopyBlock(l[j], perGroup, first) < CopyBlock(l[k], perGroup, first) {
      ProductMonotone(l[j] + 1, l[k], perGroup);
      assert (l[j] + 1) * perGroup == l[j] * perGroup + perGroup;
    }
  }

  // ---------------------------------------------------------------- what the list ought to hold

  /** The groups that hold a copy on a sparse ext2 volume: 0, 1 and the powers of 3, 5 and 7. */
  ghost predicate HoldsCopy(i: nat) {
    i == 0 || i == 1 || IsPowerOf(i, 3) || IsPowerOf(i, 5) || IsPowerOf(i, 7)
  }

  /** A prime is a power of i, for i of at least 2, only when it is i. */
  lemma PrimePower(q: nat, i: nat)
    requires (q == 3 || q == 5 || q == 7) && i >= 2
    ensures IsPowerOf(q, i) <==> q == i
  {
    if q == i {
      assert Power(i, 0) == 1 && Power(i, 1) == i;
    } else if Rem(q, i) != 0 {
      UndividedPower(q, i);
    } else {
      DividedPower(q, i);
      QuotRem(q, i);
      assert false;
    }
  }

  /** The passes test whether 3, 5 or 7 is a power of the group number, so they select five groups at most. */
  lemma SelectedGroups(i: nat)
    ensures Selected(i) <==> i == 0 || i == 1 || i == 3 || i == 5 || i == 7
  {
    if i >= 2 {
      PrimePower(3, i);
      PrimePower(5, i);
      PrimePower(7, i);
    }
  }

  lemma SmallPowers(p: nat, i: nat)
    requires (p == 3 || p == 5 || p == 7) && i < 9
    ensures IsPowerOf(i, p) <==> i == 1 || i == p
  {
    assert Power(p, 0) == 1 && Power(p, 1) == p;
    if IsPowerOf(i, p) {
      var k: nat :| i == Power(p, k);
      if k >= 2 { PowerAtLeast9(p, k); }
    }
  }

  lemma {:induction false} PowerAtLeast9(p: nat, k: nat)
    requires p >= 3 && k >= 2
    ensures Power(p, k) >= 9
  {
    if k == 2 {
      assert Power(p, 1) == p && Power(p, 0) == 1;
      assert p * p >= 9;
    } else {
      PowerAtLeast9(p, k - 1);
      assert p * Power(p, k - 1) >= Power(p, k - 1);
    }
  }

  /** Group 9 ought to hold a copy and is not selected. */
  lemma MissedGroup()
    ensures HoldsCopy(9) && !Selected(9)
  {
    assert Power(3, 0) == 1 && Power(3, 1) == 3 && Power(3, 2) == 9;
    SelectedGroups(9);
  }

  /** The list is the one ext2 asks for exactly on volumes of at most 9 block groups. */
  lemma ListExact(n: nat)
    ensures (forall i: nat :: i < n ==> (i in Listed(n) <==> HoldsCopy(i))) <==> n <= 9
  {
    if n <= 9 {
      forall i: nat | i < n ensures i in Listed(n) <==> HoldsCopy(i) {
        SelectedGroups(i);
        SmallPowers(3, i);
        SmallPowers(5, i);
        SmallPowers(7, i);
        ListedInOrder(n);
        if Selected(i) { ListedAll(n, i); }
      }
    } else {
      MissedGroup();
      ListedInOrder(n);
      assert 9 !in Listed(n);
    }
  }
}
