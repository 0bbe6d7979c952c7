/** Bytes, unsigned 32-bit wrap-around and the little-endian codecs used on disk. */
module Bytes {
  type byte = b: int | 0 <= b < 256

  /** The value a uint32_t holds after an operation with mathematical result x. */
  function Wrap32(x: int): nat {
    x % 0x1_0000_0000
  }

  function Le16(s: seq<byte>, o: nat): nat
    requires o + 2 <= |s|
  {
    var b0: int, b1: int := s[o], s[o + 1];
    b0 + 0x100 * b1
  }

  function Le32(s: seq<byte>, o: nat): nat
    requires o + 4 <= |s|
  {
    var b0: int, b1: int, b2: int, b3: int := s[o], s[o + 1], s[o + 2], s[o + 3];
    b0 + 0x100 * b1 + 0x1_0000 * b2 + 0x100_0000 * b3
  }

  function Bytes16(v: nat): (b: seq<byte>)
    ensures |b| == 2
  {
    [v % 0x100, v / 0x100 % 0x100]
  }

  function Bytes32(v: nat): (b: seq<byte>)
    ensures |b| == 4
  {
    [v % 0x100, v / 0x100 % 0x100, v / 0x1_0000 % 0x100, v / 0x100_0000 % 0x100]
  }

  /** s with the bytes at o.. replaced by p: what a memcpy into a buffer does. */
  function Patch(s: seq<byte>, o: nat, p: seq<byte>): (r: seq<byte>)
    requires o + |p| <= |s|
    ensures |r| == |s|
    ensures forall k :: 0 <= k < |s| ==> r[k] == if o <= k < o + |p| then p[k - o] else s[k]
  {
    s[..o] + p + s[o + |p|..]
  }

  lemma Le16Codec(v: nat)
    requires v < 0x1_0000
    ensures Le16(Bytes16(v), 0) == v
  {
  }

  lemma Le32Codec(v: nat)
    requires v < 0x1_0000_0000
    ensures Le32(Bytes32(v), 0) == v
  {
    Split32(v);
  }

  lemma Le16OfBytes16(s: seq<byte>, o: nat, v: nat)
    requires o + 2 <= |s| && v < 0x1_0000
    ensures Le16(Patch(s, o, Bytes16(v)), o) == v
  {
  }

  lemma Le32OfBytes32(s: seq<byte>, o: nat, v: nat)
    requires o + 4 <= |s| && v < 0x1_0000_0000
    ensures Le32(Patch(s, o, Bytes32(v)), o) == v
  {
    var r := Patch(s, o, Bytes32(v));
    assert r[o] == v % 0x100 && r[o + 1] == v / 0x100 % 0x100;
    assert r[o + 2] == v / 0x1_0000 % 0x100 && r[o + 3] == v / 0x100_0000 % 0x100;
    hide Patch, Bytes32;
    Split32(v);
  }

  lemma Split32(v: nat)
    requires v < 0x1_0000_0000
    ensures v % 0x100 + 0x100 * (v / 0x100 % 0x100) + 0x1_0000 * (v / 0x1_0000 % 0x100)
            + 0x100_0000 * (v / 0x100_0000 % 0x100) == v
  {
    var a, b := v / 0x100, v / 0x1_0000;
    assert b == a / 0x100 && v / 0x100_0000 == b / 0x100;
  }

  /** The pieces put together. */
  function Concat(pieces: seq<seq<byte>>): seq<byte> {
    if pieces == [] then [] else Concat(pieces[..|pieces| - 1]) + pieces[|pieces| - 1]
  }

  lemma ConcatNone(pieces: seq<seq<byte>>)
    ensures Concat(pieces[..0]) == []
  {
  }

  lemma ConcatStep(pieces: seq<seq<byte>>, i: nat)
    requires i < |pieces|
    ensures Concat(pieces[..i + 1]) == Concat(pieces[..i]) + pieces[i]
  {
    assert pieces[..i + 1][..i] == pieces[..i];
  }

  lemma {:induction false} ConcatPrefix(pieces: seq<seq<byte>>, i: nat)
    requires i <= |pieces|
    ensures |Concat(pieces[..i])| <= |Concat(pieces)|
    decreases |pieces| - i
  {
    if i < |pieces| {
      ConcatStep(pieces, i);
      ConcatPrefix(pieces, i + 1);
    } else {
      assert pieces[..i] == pieces;
    }
  }

  // ---------------------------------------------------------------- numbers and their bytes

  /** The number whose digits to the base 256 are the bytes, the lowest first. */
  function Value(b: seq<byte>): nat {
    if b == [] then 0 else b[0] + 256 * Value(b[1..])
  }

  /** The n lowest digits of v to the base 256, the lowest first. */
  function Digits(v: nat, n: nat): (b: seq<byte>)
    ensures |b| == n
  {
    if n == 0 then [] else [v % 256] + Digits(v / 256, n - 1)
  }

  /** A 16-bit number on disk is the number its two bytes are the digits of, in both directions. */
  lemma Le16Value(s: seq<byte>, o: nat, v: nat)
    requires o + 2 <= |s|
    ensures Le16(s, o) == Value(s[o..o + 2]) && Bytes16(v) == Digits(v, 2)
  {
    var b := s[o..o + 2];
    assert b[1..][1..] == [] && Digits(v / 256, 1) == [v / 256 % 256] + Digits(v / 256 / 256, 0);
    assert Value(b[1..]) == b[1];
  }

  lemma Le32Value(s: seq<byte>, o: nat, v: nat)
    requires o + 4 <= |s|
    ensures Le32(s, o) == Value(s[o..o + 4]) && Bytes32(v) == Digits(v, 4)
  {
    var b := s[o..o + 4];
    var b1, b2, b3 := b[1..], b[1..][1..], b[1..][1..][1..];
    assert b3[1..] == [] && Value(b3) == b3[0] && Value(b2) == b2[0] + 256 * Value(b3);
    assert Value(b1) == b1[0] + 256 * Value(b2);
    var v1, v2, v3 := v / 256, v / 256 / 256, v / 256 / 256 / 256;
    assert v2 == v / 0x1_0000 && v3 == v / 0x100_0000;
    assert Digits(v3, 1) == [v3 % 256] && Digits(v2, 2) == [v2 % 256] + Digits(v3, 1);
    assert Digits(v1, 3) == [v1 % 256] + Digits(v2, 2);
  }

  /** A number is 0 if and only if all its bytes are. */
  lemma {:induction false} ZeroValue(b: seq<byte>)
    ensures Value(b) == 0 <==> forall k :: 0 <= k < |b| ==> b[k] == 0
  {
    if b != [] {
      ZeroValue(b[1..]);
      assert forall k :: 0 < k < |b| ==> b[k] == b[1..][k - 1];
      assert forall k :: 0 <= k < |b[1..]| ==> b[1..][k] == b[k + 1];
    }
  }

  /** Bytes are determined by their number. */
  lemma {:induction false} ValueUnique(a: seq<byte>, b: seq<byte>)
    requires |a| == |b| && Value(a) == Value(b)
    ensures a == b
  {
    if a != [] {
      ValueUnique(a[1..], b[1..]);
      assert a == [a[0]] + a[1..] && b == [b[0]] + b[1..];
    }
  }

  /** Two bytes hold the numbers below 2^16, four those below 2^32. */
  lemma DigitsValue(v: nat)
    ensures v < 0x1_0000 ==> Value(Digits(v, 2)) == v
    ensures v < 0x1_0000_0000 ==> Value(Digits(v, 4)) == v
  {
    if v < 0x1_0000 {
      Le16Value(Bytes16(v), 0, v);
      assert Digits(v, 2)[0..2] == Digits(v, 2);
      Le16Codec(v);
    }
    if v < 0x1_0000_0000 {
      Le32Value(Bytes32(v), 0, v);
      assert Digits(v, 4)[0..4] == Digits(v, 4);
      Le32Codec(v);
    }
  }

  /** The bytes of sectors put together, one after the other. */
  lemma {:induction false} ConcatSectors(d: seq<seq<byte>>, p: nat)
    requires forall i :: 0 <= i < |d| ==> |d[i]| == 512
    ensures |Concat(d)| == 512 * |d|
    ensures p < 512 * |d| ==> Concat(d)[p] == d[p / 512][p % 512]
  {
    if d != [] {
      var n := |d| - 1;
      ConcatSectors(d[..n], p);
      if 512 * n <= p < 512 * |d| { assert p / 512 == n && p % 512 == p - 512 * n; }
    }
  }
}
