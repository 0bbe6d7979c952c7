/** The MD5 message digest as RFC 1321 defines it. */
module Md5Spec {
  import opened Bytes

  /** The four registers of section 3.3. */
  datatype Registers<W> = Regs(a: W, b: W, c: W, d: W)

  type Regs = Registers<bv32>

  const INIT: Regs := Regs(0x67452301, 0xefcdab89, 0x98badcfe, 0x10325476)

  // ---------------------------------------------------------------- section 3.4

  function F(x: bv32, y: bv32, z: bv32): bv32 {
    (x & y) | (!x & z)
  }

  function G(x: bv32, y: bv32, z: bv32): bv32 {
    (x & z) | (y & !z)
  }

  function H(x: bv32, y: bv32, z: bv32): bv32 {
    x ^ y ^ z
  }

  function I(x: bv32, y: bv32, z: bv32): bv32 {
    y ^ (x | !z)
  }

  /** The auxiliary function of the round that operation i belongs to. */
  function Select(i: nat, x: bv32, y: bv32, z: bv32): bv32 {
    if i < 16 then F(x, y, z) else if i < 32 then G(x, y, z) else if i < 48 then H(x, y, z) else I(x, y, z)
  }

  /** Addition of words, modulo 2^32. */
  function Add(x: bv32, y: bv32): bv32 {
    x + y
  }

  /** X <<< s */
  function RotateLeft(x: bv32, s: bv32): bv32
    requires 0 < s < 32
  {
    (x << s) | (x >> (32 - s))
  }

  /** The words the operations of round 2 add. */
  function Round2(j: nat): (k: nat)
    requires j < 16
    ensures k < 16
  {
    match j
    case 0 => 1 case 1 => 6 case 2 => 11 case 3 => 0
    case 4 => 5 case 5 => 10 case 6 => 15 case 7 => 4
    case 8 => 9 case 9 => 14 case 10 => 3 case 11 => 8
    case 12 => 13 case 13 => 2 case 14 => 7 case _ => 12
  }

  /** The words the operations of round 3 add. */
  function Round3(j: nat): (k: nat)
    requires j < 16
    ensures k < 16
  {
    match j
    case 0 => 5 case 1 => 8 case 2 => 11 case 3 => 14
    case 4 => 1 case 5 => 4 case 6 => 7 case 7 => 10
    case 8 => 13 case 9 => 0 case 10 => 3 case 11 => 6
    case 12 => 9 case 13 => 12 case 14 => 15 case _ => 2
  }

  /** The words the operations of round 4 add. */
  function Round4(j: nat): (k: nat)
    requires j < 16
    ensures k < 16
  {
    match j
    case 0 => 0 case 1 => 7 case 2 => 14 case 3 => 5
    case 4 => 12 case 5 => 3 case 6 => 10 case 7 => 1
    case 8 => 8 case 9 => 15 case 10 => 6 case 11 => 13
    case 12 => 4 case 13 => 11 case 14 => 2 case _ => 9
  }

  /** The word of the block that operation i adds. */
  function WordIndex(i: nat): (k: nat)
    requires i < 64
    ensures k < 16
  {
    if i < 16 then i else if i < 32 then Round2(i - 16) else if i < 48 then Round3(i - 32) else Round4(i - 48)
  }

  /** The rotation of operation i. */
  function Shift(i: nat): (s: bv32)
    requires i < 64
    ensures 0 < s < 32
  {
    if i < 16 then Turn(i, 7, 12, 17, 22)
    else if i < 32 then Turn(i, 5, 9, 14, 20)
    else if i < 48 then Turn(i, 4, 11, 16, 23)
    else Turn(i, 6, 10, 15, 21)
  }

  function Turn(i: nat, s0: bv32, s1: bv32, s2: bv32, s3: bv32): bv32 {
    if i % 4 == 0 then s0 else if i % 4 == 1 then s1 else if i % 4 == 2 then s2 else s3
  }

  /** The table T: element i is the integer part of 4294967296 times abs(sin(i + 1)). */
  const T: seq<bv32> :=
    [0xd76aa478, 0xe8c7b756, 0x242070db, 0xc1bdceee, 0xf57c0faf, 0x4787c62a, 0xa8304613, 0xfd469501]
    + [0x698098d8, 0x8b44f7af, 0xffff5bb1, 0x895cd7be, 0x6b901122, 0xfd987193, 0xa679438e, 0x49b40821]
    + [0xf61e2562, 0xc040b340, 0x265e5a51, 0xe9b6c7aa, 0xd62f105d, 0x02441453, 0xd8a1e681, 0xe7d3fbc8]
    + [0x21e1cde6, 0xc33707d6, 0xf4d50d87, 0x455a14ed, 0xa9e3e905, 0xfcefa3f8, 0x676f02d9, 0x8d2a4c8a]
    + [0xfffa3942, 0x8771f681, 0x6d9d6122, 0xfde5380c, 0xa4beea44, 0x4bdecfa9, 0xf6bb4b60, 0xbebfbc70]
    + [0x289b7ec6, 0xeaa127fa, 0xd4ef3085, 0x04881d05, 0xd9d4d039, 0xe6db99e5, 0x1fa27cf8, 0xc4ac5665]
    + [0xf4292244, 0x432aff97, 0xab9423a7, 0xfc93a039, 0x655b59c3, 0x8f0ccc92, 0xffeff47d, 0x85845dd1]
    + [0x6fa87e4f, 0xfe2ce6e0, 0xa3014314, 0x4e0811a1, 0xf7537e82, 0xbd3af235, 0x2ad7d2bb, 0xeb86d391]

  /** T[i + 1] in the numbering of the standard. */
  function Constant(i: nat): bv32
    requires i < 64
  {
    T[i]
  }

  /** The word with the given bytes, low-order byte first. */
  function Join(b0: byte, b1: byte, b2: byte, b3: byte): bv32 {
    (b0 as bv32) | ((b1 as bv32) << 8) | ((b2 as bv32) << 16) | ((b3 as bv32) << 24)
  }

  /** The bytes of a word, low-order byte first. */
  function Split(w: bv32): (b: seq<byte>)
    ensures |b| == 4
  {
    [(w & 0xFF) as bv8 as byte, ((w >> 8) & 0xFF) as bv8 as byte, ((w >> 16) & 0xFF) as bv8 as byte,
     ((w >> 24) & 0xFF) as bv8 as byte]
  }

  /** Word k of a 64-byte block. */
  function Word(block: seq<byte>, k: nat): bv32
    requires |block| == 64 && k < 16
  {
    Join(block[4 * k], block[4 * k + 1], block[4 * k + 2], block[4 * k + 3])
  }

  /** b + ((a + f + X[k] + T[i]) <<< s) */
  function Mix(block: seq<byte>, i: nat, a: bv32, b: bv32, f: bv32): bv32
    requires |block| == 64 && i < 64
  {
    Add(b, RotateLeft(Add(Add(Add(a, f), Constant(i)), Word(block, WordIndex(i))), Shift(i)))
  }

  /** Which of the four roles of the registers operation i uses. */
  function Phase(i: nat): nat {
    i % 4
  }

  /** The registers in the order operation i names them: ABCD, DABC, CDAB and BCDA take turns. */
  function Roles<W>(i: nat, r: Registers<W>): Registers<W> {
    if Phase(i) == 0 then r
    else if Phase(i) == 1 then Regs(r.d, r.a, r.b, r.c)
    else if Phase(i) == 2 then Regs(r.c, r.d, r.a, r.b)
    else Regs(r.b, r.c, r.d, r.a)
  }

  /** The registers with v in the one operation i names first. */
  function Put<W>(i: nat, r: Registers<W>, v: W): Registers<W> {
    if Phase(i) == 0 then r.(a := v)
    else if Phase(i) == 1 then r.(d := v)
    else if Phase(i) == 2 then r.(c := v)
    else r.(b := v)
  }

  /** Operation i on a block. */
  function Operation(block: seq<byte>, i: nat, r: Regs): Regs
    requires |block| == 64 && i < 64
  {
    var p := Roles(i, r);
    Put(i, r, Mix(block, i, p.a, p.b, Select(i, p.b, p.c, p.d)))
  }

  /** The registers after the first n operations on a block. */
  function Operations(block: seq<byte>, n: nat, r: Regs): Regs
    requires |block| == 64 && n <= 64
  {
    if n == 0 then r else Operation(block, n - 1, Operations(block, n - 1, r))
  }

  function Sum(r: Regs, s: Regs): Regs {
    Regs(Add(r.a, s.a), Add(r.b, s.b), Add(r.c, s.c), Add(r.d, s.d))
  }

  /** Processing one 16-word block. */
  function Compress(r: Regs, block: seq<byte>): Regs
    requires |block| == 64
  {
    Sum(r, Operations(block, 64, r))
  }

  /** Processing a message of whole blocks. */
  function Process(r: Regs, m: seq<byte>): Regs
    requires |m| % 64 == 0
  {
    if m == [] then r else Compress(Process(r, m[..|m| - 64]), m[|m| - 64..])
  }

  // ---------------------------------------------------------------- sections 3.1, 3.2 and 3.5

  function Zeros(n: nat): (z: seq<byte>)
    ensures |z| == n && forall i :: 0 <= i < n ==> z[i] == 0
  {
    seq(n, _ => 0)
  }

  /** The length in bits modulo 2^64, as two words, low-order word first. */
  function LengthField(n: nat): (f: seq<byte>)
    ensures |f| == 8
  {
    var bits := n * 8 % 0x1_0000_0000_0000_0000;
    Bytes32(bits % 0x1_0000_0000) + Bytes32(bits / 0x1_0000_0000)
  }

  /** How many zero bytes bring n bytes and the byte 0x80 to 56 modulo 64: the least such number. */
  function ZeroCount(n: nat): (z: nat)
    ensures z < 64 && (n + 1 + z) % 64 == 56
  {
    (119 - n % 64) % 64
  }

  function Padded(m: seq<byte>): (p: seq<byte>)
    ensures |p| % 64 == 0
  {
    WholeBlocks(|m|);
    m + [0x80] + Zeros(ZeroCount(|m|)) + LengthField(|m|)
  }

  lemma WholeBlocks(n: nat)
    ensures (n + 1 + ZeroCount(n) + 8) % 64 == 0
  {
  }

  function Output(r: Regs): (o: seq<byte>)
    ensures |o| == 16
  {
    Split(r.a) + Split(r.b) + Split(r.c) + Split(r.d)
  }

  /** The digest of a message. */
  function Digest(m: seq<byte>): (o: seq<byte>)
    ensures |o| == 16
  {
    Output(Process(INIT, Padded(m)))
  }

  // ---------------------------------------------------------------- facts

  lemma SmallByte(b: byte)
    ensures b as bv32 <= 0xFF
  {
  }

  /** Bits 8j to 8j + 7 of a word of the block are byte j of its four bytes. */
  lemma WordBytes(block: seq<byte>, k: nat)
    requires |block| == 64 && k < 16
    ensures var w := Word(block, k);
      && w & 0xFF == block[4 * k] as bv32
      && (w >> 8) & 0xFF == block[4 * k + 1] as bv32
      && (w >> 16) & 0xFF == block[4 * k + 2] as bv32
      && (w >> 24) & 0xFF == block[4 * k + 3] as bv32
  {
    SmallByte(block[4 * k]);
    SmallByte(block[4 * k + 1]);
    SmallByte(block[4 * k + 2]);
    SmallByte(block[4 * k + 3]);
  }

  /** Byte j of a word is its bits 8j to 8j + 7. */
  lemma SplitBits(w: bv32)
    ensures var b := Split(w);
      && b[0] as bv8 == (w & 0xFF) as bv8 && b[1] as bv8 == ((w >> 8) & 0xFF) as bv8
      && b[2] as bv8 == ((w >> 16) & 0xFF) as bv8 && b[3] as bv8 == ((w >> 24) & 0xFF) as bv8
  {
    SameBits((w & 0xFF) as bv8);
    SameBits(((w >> 8) & 0xFF) as bv8);
    SameBits(((w >> 16) & 0xFF) as bv8);
    SameBits(((w >> 24) & 0xFF) as bv8);
  }

  lemma SameBits(b: bv8)
    ensures (b as byte) as bv8 == b
  {
  }

  /** The output is the bytes of the registers A, B, C and D, of each the low-order byte first. */
  lemma OutputBytes(r: Regs)
    ensures var o := Output(r);
      && (forall j :: 0 <= j < 4 ==> o[j] == Split(r.a)[j] && o[4 + j] == Split(r.b)[j])
      && (forall j :: 0 <= j < 4 ==> o[8 + j] == Split(r.c)[j] && o[12 + j] == Split(r.d)[j])
  {
    hide Split;
  }

  /** The registers start with the bytes that section 3.3 lists. */
  lemma InitialBytes()
    ensures Output(INIT)
         == [0x01, 0x23, 0x45, 0x67, 0x89, 0xab, 0xcd, 0xef, 0xfe, 0xdc, 0xba, 0x98, 0x76, 0x54, 0x32, 0x10]
  {
    assert Split(0x67452301) == [0x01, 0x23, 0x45, 0x67] && Split(0xefcdab89) == [0x89, 0xab, 0xcd, 0xef];
    assert Split(0x98badcfe) == [0xfe, 0xdc, 0xba, 0x98] && Split(0x10325476) == [0x76, 0x54, 0x32, 0x10];
  }

  lemma ProcessBlock(r: Regs, m: seq<byte>, block: seq<byte>)
    requires |m| % 64 == 0 && |block| == 64
    ensures |m + block| % 64 == 0 && Process(r, m + block) == Compress(Process(r, m), block)
  {
    var n := m + block;
    assert n[..|n| - 64] == m && n[|n| - 64..] == block;
  }

  /** Two other forms of F and G. */
  lemma SelectorForms(b: bv32, c: bv32, d: bv32)
    ensures ((c ^ d) & b) ^ d == F(b, c, d)
    ensures ((b ^ c) & d) ^ c == G(b, c, d)
  {
  }

  /** The word indices of the four rounds in closed form. */
  lemma WordIndexForms(i: nat)
    requires i < 64
    ensures WordIndex(i) == if i < 16 then i else if i < 32 then (5 * i + 1) % 16
                            else if i < 48 then (3 * i + 5) % 16 else 7 * i % 16
  {
  }

  /** Rotating x by s takes bit i to bit i + s modulo 32. */
  predicate Rotates(x: bv32, s: bv32, i: bv32)
    requires 0 < s < 32 && i < 32
  {
    (RotateLeft(x, s) >> ((i + s) & 31)) & 1 == (x >> i) & 1
  }

  /** Every rotation the algorithm uses is one. */
  lemma RotateLeftBits(x: bv32, n: nat, i: bv32)
    requires n < 64 && i < 32
    ensures Rotates(x, Shift(n), i)
  {
    hide Rotates;
    if n < 16 {
      Rotate1(x, i);
    } else if n < 32 {
      Rotate2(x, i);
    } else if n < 48 {
      Rotate3(x, i);
    } else {
      Rotate4(x, i);
    }
  }

  lemma Rotate1(x: bv32, i: bv32)
    requires i < 32
    ensures Rotates(x, 7, i)
    ensures Rotates(x, 12, i)
    ensures Rotates(x, 17, i)
    ensures Rotates(x, 22, i)
  {
  }

  lemma Rotate2(x: bv32, i: bv32)
    requires i < 32
    ensures Rotates(x, 5, i)
    ensures Rotates(x, 9, i)
    ensures Rotates(x, 14, i)
    ensures Rotates(x, 20, i)
  {
  }

  lemma Rotate3(x: bv32, i: bv32)
    requires i < 32
    ensures Rotates(x, 4, i)
    ensures Rotates(x, 11, i)
    ensures Rotates(x, 16, i)
    ensures Rotates(x, 23, i)
  {
  }

  lemma Rotate4(x: bv32, i: bv32)
    requires i < 32
    ensures Rotates(x, 6, i)
    ensures Rotates(x, 10, i)
    ensures Rotates(x, 15, i)
    ensures Rotates(x, 21, i)
  {
  }

  /** The length field decodes to the length in bits. */
  lemma LengthFieldValue(n: nat)
    ensures var f := LengthField(n);
      Le32(f, 0) + 0x1_0000_0000 * Le32(f, 4) == n * 8 % 0x1_0000_0000_0000_0000
  {
    var bits := n * 8 % 0x1_0000_0000_0000_0000;
    var lo, hi := bits % 0x1_0000_0000, bits / 0x1_0000_0000;
    Le32Codec(lo);
    Le32Codec(hi);
    var f := Bytes32(lo) + Bytes32(hi);
    assert f[0..4] == Bytes32(lo) && f[4..8] == Bytes32(hi);
    assert Le32(f, 0) == Le32(f[0..4], 0) && Le32(f, 4) == Le32(f[4..8], 0);
  }
}
