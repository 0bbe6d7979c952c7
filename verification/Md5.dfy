/** The streaming digest of test/hash.c: a context with a partial-block buffer. */
module Md5 {
  import opened Bytes
  import opened Md5Spec

  const BUFSIZE := 1024 * 1024

  /** The value a uint64_t holds after an operation with mathematical result x. */
  function Wrap64(x: nat): nat {
    x % 0x1_0000_0000_0000_0000
  }

  /** The longest prefix of m made of whole blocks. */
  function Whole(m: seq<byte>): (w: seq<byte>)
    ensures |w| % 64 == 0 && |w| + |m| % 64 == |m| && w <= m
  {
    m[..|m| - |m| % 64]
  }

  /** What follows the last whole block. */
  function Rest(m: seq<byte>): (r: seq<byte>)
    ensures |r| == |m| % 64 && Whole(m) + r == m
  {
    m[|m| - |m| % 64..]
  }

  lemma NextPhase(j: nat)
    ensures 0 <= Phase(j) < 4 && Phase(j + 1) == if Phase(j) == 3 then 0 else Phase(j) + 1
  {
  }

  /** Shifting every register by one place, as a turn of the loops does, follows the change of roles. */
  lemma PutRotates<W>(j: nat, r: Registers<W>, v: W)
    ensures var p := Roles(j, r); Roles(j + 1, Put(j, r, v)) == Regs(p.d, v, p.b, p.c)
  {
    hide Phase;
    NextPhase(j);
  }

  /** One turn of a round loop is one operation. */
  lemma RoundStep(block: seq<byte>, j: nat, r: Regs, p: Regs, f: bv32)
    requires |block| == 64 && j < 64 && p == Roles(j, r) && f == Select(j, p.b, p.c, p.d)
    ensures Roles(j + 1, Operation(block, j, r)) == Regs(p.d, Mix(block, j, p.a, p.b, f), p.b, p.c)
  {
    hide Mix, Select, Roles, Put;
    PutRotates(j, r, Mix(block, j, p.a, p.b, f));
  }

  lemma FirstTurn(block: seq<byte>, r: Regs)
    requires |block| == 64
    ensures Roles(0, Operations(block, 0, r)) == r
  {
  }

  lemma LastTurn(r: Regs)
    ensures Roles(64, r) == r
  {
  }

  /** The selector of the first loop. */
  function Choose(b: bv32, c: bv32, d: bv32): bv32 {
    ((c ^ d) & b) ^ d
  }

  /** The selector of the second loop. */
  function ChooseLast(b: bv32, c: bv32, d: bv32): bv32 {
    ((b ^ c) & d) ^ c
  }

  /** The selector of the third loop. */
  function Parity(b: bv32, c: bv32, d: bv32): bv32 {
    b ^ c ^ d
  }

  /** The selector of the fourth loop. */
  function Mixed(b: bv32, c: bv32, d: bv32): bv32 {
    c ^ (b | !d)
  }

  lemma ChooseForms(b: bv32, c: bv32, d: bv32)
    ensures Choose(b, c, d) == F(b, c, d) && ChooseLast(b, c, d) == G(b, c, d)
  {
    hide F, G;
    SelectorForms(b, c, d);
  }

  lemma SameForms(b: bv32, c: bv32, d: bv32)
    ensures Parity(b, c, d) == H(b, c, d) && Mixed(b, c, d) == I(b, c, d)
  {
  }

  function LoopWord(j: nat): nat {
    if j < 16 then j else if j < 32 then (5 * j + 1) % 16 else if j < 48 then (3 * j + 5) % 16 else 7 * j % 16
  }

  function LoopSelect(j: nat, b: bv32, c: bv32, d: bv32): bv32 {
    if j < 16 then Choose(b, c, d) else if j < 32 then ChooseLast(b, c, d)
    else if j < 48 then Parity(b, c, d) else Mixed(b, c, d)
  }

  /** The selectors and word indices of the four loops are those of the rounds. */
  lemma RoundForms(j: nat, b: bv32, c: bv32, d: bv32)
    requires j < 64
    ensures LoopWord(j) == WordIndex(j) && LoopSelect(j, b, c, d) == Select(j, b, c, d)
  {
    hide WordIndex, F, G, H, I, Choose, ChooseLast, Parity, Mixed;
    WordIndexForms(j);
    ChooseForms(b, c, d);
    SameForms(b, c, d);
  }

  /** Four rotations four times over. */
  function Row<W>(s0: W, s1: W, s2: W, s3: W): (r: seq<W>)
    ensures |r| == 16
  {
    [s0, s1, s2, s3, s0, s1, s2, s3, s0, s1, s2, s3, s0, s1, s2, s3]
  }

  /** The rotations of the 64 turns, as the program lists them. */
  const R: seq<bv32> := Shifts(0) + Shifts(1) + Shifts(2) + Shifts(3)

  function Rotation(j: nat): bv32
    requires j < 64
  {
    R[j]
  }

  /** The listed rotations are those of the four rounds. */
  lemma RotationTable(j: nat)
    requires j < 64
    ensures Rotation(j) == Shift(j)
  {
    hide Shifts, Shift;
    RowOf(j);
    if j < 16 {
      assert R[j] == Shifts(0)[j];
    } else if j < 32 {
      assert R[j] == Shifts(1)[j - 16];
    } else if j < 48 {
      assert R[j] == Shifts(2)[j - 32];
    } else {
      assert R[j] == Shifts(3)[j - 48];
    }
  }

  /** The rotations of round q. */
  function Shifts(q: nat): (r: seq<bv32>)
    requires q < 4
    ensures |r| == 16
  {
    if q == 0 then Row(7, 12, 17, 22) else if q == 1 then Row(5, 9, 14, 20)
    else if q == 2 then Row(4, 11, 16, 23) else Row(6, 10, 15, 21)
  }

  lemma RowOf(j: nat)
    requires j < 64
    ensures Shifts(j / 16)[j % 16] == Shift(j)
  {
    hide Row;
    var i := j % 16;
    if j < 16 {
      RowAt<bv32>(7, 12, 17, 22, i);
    } else if j < 32 {
      RowAt<bv32>(5, 9, 14, 20, i);
    } else if j < 48 {
      RowAt<bv32>(4, 11, 16, 23, i);
    } else {
      RowAt<bv32>(6, 10, 15, 21, i);
    }
  }

  lemma RowAt<W>(s0: W, s1: W, s2: W, s3: W, i: nat)
    requires i < 16
    ensures Row(s0, s1, s2, s3)[i]
         == if i % 4 == 0 then s0 else if i % 4 == 1 then s1 else if i % 4 == 2 then s2 else s3
  {
    assert i == 4 * (i / 4) + i % 4;
  }

  /** The additive constants of the 64 turns, as the program lists them. */
  const K: seq<bv32> :=
    [0xd76aa478, 0xe8c7b756, 0x242070db, 0xc1bdceee, 0xf57c0faf, 0x4787c62a, 0xa8304613, 0xfd469501]
    + [0x698098d8, 0x8b44f7af, 0xffff5bb1, 0x895cd7be, 0x6b901122, 0xfd987193, 0xa679438e, 0x49b40821]
    + [0xf61e2562, 0xc040b340, 0x265e5a51, 0xe9b6c7aa, 0xd62f105d, 0x02441453, 0xd8a1e681, 0xe7d3fbc8]
    + [0x21e1cde6, 0xc33707d6, 0xf4d50d87, 0x455a14ed, 0xa9e3e905, 0xfcefa3f8, 0x676f02d9, 0x8d2a4c8a]
    + [0xfffa3942, 0x8771f681, 0x6d9d6122, 0xfde5380c, 0xa4beea44, 0x4bdecfa9, 0xf6bb4b60, 0xbebfbc70]
    + [0x289b7ec6, 0xeaa127fa, 0xd4ef3085, 0x04881d05, 0xd9d4d039, 0xe6db99e5, 0x1fa27cf8, 0xc4ac5665]
    + [0xf4292244, 0x432aff97, 0xab9423a7, 0xfc93a039, 0x655b59c3, 0x8f0ccc92, 0xffeff47d, 0x85845dd1]
    + [0x6fa87e4f, 0xfe2ce6e0, 0xa3014314, 0x4e0811a1, 0xf7537e82, 0xbd3af235, 0x2ad7d2bb, 0xeb86d391]

  /** The listed constants are those of the specification. */
  lemma ConstantTable(j: nat)
    requires j < 64
    ensures |K| == 64 && K[j] == Constant(j)
  {
  }

  class Context {
    const digest: array<byte>
    const buffer: array<byte>
    var h: Regs
    var count: nat

    constructor ()
      ensures fresh(digest) && fresh(buffer) && Shape()
    {
      digest, buffer := new byte[16], new byte[64];
      h := Regs(0, 0, 0, 0);
      count := 0;
    }

    ghost predicate Shape() {
      digest.Length == 16 && buffer.Length == 64 && digest != buffer
    }

    /** The context has taken in message m. */
    ghost predicate Holds(m: seq<byte>)
      reads this, buffer
    {
      && Shape() && count == Wrap64(|m|)
      && h == Process(INIT, Whole(m))
      && buffer[..|m| % 64] == Rest(m)
    }

    /** Processes the buffered block: the four round loops with rotating registers. */
    method Transform()
      requires Shape()
      modifies this`h
      ensures h == Compress(old(h), buffer[..])
    {
      hide Operations, Roles, Choose, ChooseLast, Parity, Mixed, Add;
      ghost var r, x := h, buffer[..];
      FirstTurn(x, r);
      var a, b, c, d := h.a, h.b, h.c, h.d;
      var j := 0;
      while j < 16
        invariant j <= 16 && h == r
        invariant Regs(a, b, c, d) == Roles(j, Operations(x, j, r))
      {
        var f := Choose(b, c, d);
        a, b, c, d := Turn(j, j, a, b, c, d, f, r, x);
        j := j + 1;
      }
      while j < 32
        invariant 16 <= j <= 32 && h == r
        invariant Regs(a, b, c, d) == Roles(j, Operations(x, j, r))
      {
        var f := ChooseLast(b, c, d);
        a, b, c, d := Turn(j, (5 * j + 1) % 16, a, b, c, d, f, r, x);
        j := j + 1;
      }
      while j < 48
        invariant 32 <= j <= 48 && h == r
        invariant Regs(a, b, c, d) == Roles(j, Operations(x, j, r))
      {
        var f := Parity(b, c, d);
        a, b, c, d := Turn(j, (3 * j + 5) % 16, a, b, c, d, f, r, x);
        j := j + 1;
      }
      while j < 64
        invariant 48 <= j <= 64 && h == r
        invariant Regs(a, b, c, d) == Roles(j, Operations(x, j, r))
      {
        var f := Mixed(b, c, d);
        a, b, c, d := Turn(j, 7 * j % 16, a, b, c, d, f, r, x);
        j := j + 1;
      }
      LastTurn(Operations(x, 64, r));
      h := Regs(Add(h.a, a), Add(h.b, b), Add(h.c, c), Add(h.d, d));
    }

    /** The part of a turn that the four loops share. */
    method Turn(j: nat, g: nat, a: bv32, b: bv32, c: bv32, d: bv32, f: bv32, ghost r: Regs, ghost x: seq<byte>)
      returns (a': bv32, b': bv32, c': bv32, d': bv32)
      requires Shape() && x == buffer[..] && j < 64
      requires g == LoopWord(j) && f == LoopSelect(j, b, c, d)
      requires Regs(a, b, c, d) == Roles(j, Operations(x, j, r))
      ensures Regs(a', b', c', d') == Roles(j + 1, Operations(x, j + 1, r))
    {
      hide Operation, Shift, WordIndex, Select, Roles, RotateLeft, Word, LoopWord, LoopSelect, Constant, Add, Rotation;
      RotationTable(j);
      ConstantTable(j);
      RoundForms(j, b, c, d);
      RoundStep(x, j, Operations(x, j, r), Regs(a, b, c, d), f);
      var buf := Word(buffer[..], g);
      var v := Add(Add(Add(a, f), K[j]), buf);
      a', b', c', d' := d, Add(b, RotateLeft(v, Rotation(j))), b, c;
    }

    /** Starts a message. */
    method Start()
      requires Shape()
      modifies this`count, this`h, buffer
      ensures Holds([])
    {
      h := INIT;
      count := 0;
      Clear(0);
    }

    /** memset of the buffer from o on. */
    method Clear(o: nat)
      requires Shape() && o <= 64
      modifies buffer
      ensures buffer[..] == old(buffer[..])[..o] + Zeros(64 - o)
    {
      forall k | o <= k < 64 {
        buffer[k] := 0;
      }
    }

    /** memcpy of n bytes of chunk into the buffer at o. */
    method Fill(o: nat, chunk: array<byte>, from: nat, n: nat)
      requires Shape() && o + n <= 64 && from + n <= chunk.Length && chunk != buffer
      modifies buffer
      ensures buffer[..] == Patch(old(buffer[..]), o, chunk[from..from + n])
    {
      forall k | 0 <= k < n {
        buffer[o + k] := chunk[from + k];
      }
    }

    /** Takes in the first size bytes of chunk, whatever the message was cut into before. */
    method Update(chunk: array<byte>, size: nat, ghost m: seq<byte>)
      requires Holds(m) && size <= chunk.Length && size + 63 < 0x1_0000_0000_0000_0000
      requires chunk != buffer
      modifies this`count, this`h, buffer
      ensures Holds(m + old(chunk[..size]))
    {
      hide Process, Compress, Patch, Whole, Rest, Wrap64;
      ghost var c := chunk[..size];
      CountMod64(|m|);
      var buflen := count % 64;
      count := Wrap64(count + size);
      CountAdds(|m|, size);
      if buflen + size < 64 {
        ShortTail(m, c, buffer[..]);
        Fill(buflen, chunk, 0, size);
        return;
      }
      ghost var b := buffer[..];
      Fill(buflen, chunk, 0, 64 - buflen);
      Transform();
      var o := 64 - buflen;
      assert chunk[0..o] == c[..o];
      FirstBlock(m, c, o, b);
      while size - o >= 64
        invariant Shape() && 64 - buflen <= o <= size && (|m| + o) % 64 == 0 && count == Wrap64(|m| + size)
        invariant chunk[..size] == c && h == Process(INIT, m + c[..o])
      {
        NextBlock(m, c, o, buffer[..]);
        assert chunk[o..o + 64] == c[o..o + 64];
        Fill(0, chunk, o, 64);
        Transform();
        o := o + 64;
      }
      LastBytes(m, c, o, buffer[..]);
      assert chunk[o..size] == c[o..];
      Fill(0, chunk, o, size - o);
    }

    /** Pads the message and stores its digest. */
    method Finish(ghost m: seq<byte>)
      requires Holds(m)
      modifies this`h, buffer, digest
      ensures digest[..] == Digest(m)
    {
      hide Process, Compress, Padded, LengthField, Whole, Rest, Wrap64;
      CountMod64(|m|);
      var buflen := count % 64;
      buffer[buflen] := 0x80;
      buflen := buflen + 1;
      Clear(buflen);
      ghost var b := buffer[..];
      if buflen > 56 {
        Transform();
        Clear(0);
      }
      LengthWraps(count, |m|);
      StoreLength(Wrap64(count * 8));
      FinalBlocks(m, b, buffer[..]);
      Transform();
      StoreDigest();
    }

    /** memcpy of the bit count to the end of the buffer. */
    method StoreLength(bitcount: nat)
      requires Shape() && bitcount < 0x1_0000_0000_0000_0000
      modifies buffer
      ensures buffer[..]
           == old(buffer[..])[..56] + Bytes32(bitcount % 0x1_0000_0000) + Bytes32(bitcount / 0x1_0000_0000)

    {
      hide Bytes32;
      ghost var b := buffer[..];
      var f := Bytes32(bitcount % 0x1_0000_0000) + Bytes32(bitcount / 0x1_0000_0000);
      forall k | 0 <= k < 8 {
        buffer[56 + k] := f[k];
      }
      assert buffer[..] == b[..56] + f;
    }

    /** memcpy of the registers to the digest. */
    method StoreDigest()
      requires Shape()
      modifies digest
      ensures digest[..] == Output(h)
    {
      hide Bytes32;
      var o := Output(h);
      forall k | 0 <= k < 16 {
        digest[k] := o[k];
      }
      assert digest[..] == o;
    }
  }

  /** md5_memory: the memory is taken in by pieces of 1 MiB. */
  method MemoryDigest(mem: array<byte>) returns (hash: seq<byte>)
    requires mem.Length < 0x1_0000_0000_0000_0000
    ensures hash == Digest(mem[..])
  {
    hide Digest, Process, Whole, Rest, Wrap64;
    ghost var m := mem[..];
    var context := new Context();
    var buffer := new byte[BUFSIZE];
    var offs, len := 0, mem.Length;
    context.Start();
    assert m[..0] == [];
    while len > BUFSIZE
      invariant 0 <= offs && 0 <= len && offs + len == mem.Length && mem[..] == m
      invariant context.Holds(m[..offs])
      invariant fresh(context) && fresh(context.buffer) && fresh(context.digest) && buffer != context.buffer
    {
      Load(buffer, mem, offs, BUFSIZE);
      context.Update(buffer, BUFSIZE, m[..offs]);
      assert m[..offs] + m[offs..offs + BUFSIZE] == m[..offs + BUFSIZE];
      len := len - BUFSIZE;
      offs := offs + BUFSIZE;
    }
    Load(buffer, mem, offs, len);
    context.Update(buffer, len, m[..offs]);
    assert m[..offs] + m[offs..offs + len] == m;
    context.Finish(m);
    return context.digest[..];
  }

  /** md5_file: pieces are what the reads return, the last one being the first short one. */
  method FileDigest(pieces: seq<seq<byte>>) returns (hash: seq<byte>)
    requires |pieces| > 0 && |pieces[|pieces| - 1]| < BUFSIZE
    requires forall i :: 0 <= i < |pieces| - 1 ==> |pieces[i]| == BUFSIZE
    ensures hash == Digest(Concat(pieces))
  {
    hide Digest, Concat, Process, Whole, Rest, Wrap64;
    var context := new Context();
    var buffer := new byte[BUFSIZE];
    context.Start();
    var i := 0;
    var l := Receive(buffer, pieces[0]);
    ConcatNone(pieces);
    while l == BUFSIZE
      invariant 0 <= i < |pieces| && l == |pieces[i]| && buffer[..l] == pieces[i]
      invariant context.Holds(Concat(pieces[..i]))
      invariant fresh(context) && fresh(context.buffer) && fresh(context.digest) && buffer != context.buffer
      decreases |pieces| - i
    {
      context.Update(buffer, BUFSIZE, Concat(pieces[..i]));
      ConcatStep(pieces, i);
      i := i + 1;
      l := Receive(buffer, pieces[i]);
    }
    context.Update(buffer, l, Concat(pieces[..i]));
    ConcatStep(pieces, i);
    assert pieces[..i + 1] == pieces;
    context.Finish(Concat(pieces));
    return context.digest[..];
  }

  /** One read: the bytes of the piece arrive at the front of the buffer. */
  method Receive(buffer: array<byte>, piece: seq<byte>) returns (l: nat)
    requires |piece| <= buffer.Length
    modifies buffer
    ensures l == |piece| && buffer[..l] == piece
  {
    l := |piece|;
    forall k | 0 <= k < l {
      buffer[k] := piece[k];
    }
  }

  /** memcpy of n bytes of mem from o on. */
  method Load(buffer: array<byte>, mem: array<byte>, o: nat, n: nat)
    requires buffer != mem && n <= buffer.Length && o + n <= mem.Length
    modifies buffer
    ensures buffer[..n] == mem[o..o + n]
  {
    forall k | 0 <= k < n {
      buffer[k] := mem[o + k];
    }
  }

  lemma CountMod64(n: nat)
    ensures Wrap64(n) % 64 == n % 64
  {
  }

  lemma CountAdds(n: nat, size: nat)
    ensures Wrap64(Wrap64(n) + size) == Wrap64(n + size)
  {
    var m := 0x1_0000_0000_0000_0000;
    var q, k := n / m, (n + size) / m;
    assert Wrap64(n) + size == m * (k - q) + Wrap64(n + size);
  }

  lemma LengthWraps(count: nat, n: nat)
    requires count == Wrap64(n)
    ensures Wrap64(count * 8) == Wrap64(n * 8) < 0x1_0000_0000_0000_0000
    ensures LengthField(n) == Bytes32(Wrap64(n * 8) % 0x1_0000_0000) + Bytes32(Wrap64(n * 8) / 0x1_0000_0000)
  {
    hide Bytes32;
    EightTimes(n / 0x1_0000_0000_0000_0000, count);
  }

  lemma EightTimes(q: nat, r: nat)
    ensures (q * 0x1_0000_0000_0000_0000 + r) * 8 % 0x1_0000_0000_0000_0000 == r * 8 % 0x1_0000_0000_0000_0000
  {
    var m := 0x1_0000_0000_0000_0000;
    var x, y := r * 8, (q * m + r) * 8;
    var j, k := x / m, y / m;
    assert y % m - x % m == m * (8 * q + j - k);
  }

  /** A chunk that does not fill the block. */
  lemma ShortTail(m: seq<byte>, c: seq<byte>, b: seq<byte>)
    requires |m| % 64 + |c| < 64 == |b| && b[..|m| % 64] == Rest(m)
    ensures |m + c| % 64 == |m| % 64 + |c| && Whole(m + c) == Whole(m)
    ensures Patch(b, |m| % 64, c)[..|m + c| % 64] == Rest(m + c)
  {
    ModSum(|m|, |c|);
    assert (m + c)[..|m| - |m| % 64] == m[..|m| - |m| % 64];
    assert Patch(b, |m| % 64, c)[..|m| % 64 + |c|] == b[..|m| % 64] + c;
  }

  lemma ModSum(n: nat, k: nat)
    requires n % 64 + k < 64
    ensures (n + k) % 64 == n % 64 + k
  {
  }

  /** The chunk completes the buffered block. */
  lemma FirstBlock(m: seq<byte>, c: seq<byte>, o: nat, b: seq<byte>)
    requires o == 64 - |m| % 64 <= |c| && |b| == 64 && b[..|m| % 64] == Rest(m)
    ensures (|m| + o) % 64 == 0
    ensures Process(INIT, m + c[..o]) == Compress(Process(INIT, Whole(m)), Patch(b, |m| % 64, c[..o]))
  {
    hide Process, Compress, Patch, Whole, Rest;
    FullBlock(Whole(m), Rest(m), c[..o], b);
    assert Whole(m) + Rest(m) + c[..o] == m + c[..o];
  }

  lemma FullBlock(w: seq<byte>, p: seq<byte>, q: seq<byte>, b: seq<byte>)
    requires |w| % 64 == 0 && |b| == 64 == |p| + |q| && b[..|p|] == p
    ensures |w + p + q| % 64 == 0
    ensures Process(INIT, w + p + q) == Compress(Process(INIT, w), Patch(b, |p|, q))
  {
    hide Process, Compress, Patch;
    PatchEnd(b, |p|, p, q);
    ProcessBlock(INIT, w, p + q);
    assert w + (p + q) == w + p + q;
  }

  lemma PatchEnd(b: seq<byte>, r: nat, p: seq<byte>, q: seq<byte>)
    requires r + |q| == |b| && b[..r] == p
    ensures Patch(b, r, q) == p + q
  {
  }

  /** A whole block of the chunk. */
  lemma NextBlock(m: seq<byte>, c: seq<byte>, o: nat, b: seq<byte>)
    requires o + 64 <= |c| && (|m| + o) % 64 == 0 && |b| == 64
    ensures (|m| + o + 64) % 64 == 0
    ensures Process(INIT, m + c[..o + 64]) == Compress(Process(INIT, m + c[..o]), Patch(b, 0, c[o..o + 64]))
  {
    hide Process, Compress, Patch;
    var p, q := m + c[..o], c[o..o + 64];
    assert |p| == |m| + o;
    PatchEnd(b, 0, [], q);
    assert [] + q == q && p + q == m + c[..o + 64];
    ProcessBlock(INIT, p, q);
  }

  /** What is left of the chunk after its whole blocks. */
  lemma LastBytes(m: seq<byte>, c: seq<byte>, o: nat, b: seq<byte>)
    requires (|m| + o) % 64 == 0 && o <= |c| < o + 64 == o + |b|
    ensures Whole(m + c) == m + c[..o] && Patch(b, 0, c[o..])[..|m + c| % 64] == Rest(m + c)
  {
    ModSum(|m| + o, |c| - o);
    assert m + c == m + c[..o] + c[o..];
    assert Patch(b, 0, c[o..])[..|c| - o] == c[o..];
  }

  /**
   The blocks that Finish processes: b is the block with the byte 0x80 behind the message, last
   the one with the length, which is another block when the length does not fit behind 0x80.
   */
  lemma FinalBlocks(m: seq<byte>, b: seq<byte>, last: seq<byte>)
    requires |b| == 64 == |last| && b == Rest(m) + [0x80] + Zeros(63 - |m| % 64)
    requires last == (if |m| % 64 + 1 > 56 then Zeros(64) else b)[..56] + LengthField(|m|)
    ensures Process(INIT, Padded(m))
         == Compress(if |m| % 64 + 1 > 56 then Compress(Process(INIT, Whole(m)), b) else Process(INIT, Whole(m)), last)
  {
    var w := Whole(m);
    PaddedBlocks(m, b, last);
    hide Process, Compress, Padded, Whole;
    if |m| % 64 + 1 > 56 {
      ProcessBlock(INIT, w, b);
      ProcessBlock(INIT, w + b, last);
    } else {
      ProcessBlock(INIT, w, last);
    }
  }

  /** The padded message is its whole blocks and one or two more. */
  lemma PaddedBlocks(m: seq<byte>, b: seq<byte>, last: seq<byte>)
    requires |b| == 64 == |last| && b == Rest(m) + [0x80] + Zeros(63 - |m| % 64)
    requires last == (if |m| % 64 + 1 > 56 then Zeros(64) else b)[..56] + LengthField(|m|)
    ensures Padded(m) == if |m| % 64 + 1 > 56 then Whole(m) + b + last else Whole(m) + last
  {
    var r, f := |m| % 64, LengthField(|m|);
    assert m == Whole(m) + Rest(m);
    ZerosNeeded(|m|);
    hide LengthField, Whole, Rest, ZeroCount;
    if r + 1 > 56 {
      assert Zeros(64)[..56] == Zeros(56);
      assert Zeros(119 - r) == Zeros(63 - r) + Zeros(56);
    } else {
      assert Zeros(63 - r)[..55 - r] == Zeros(55 - r);
      assert b[..56] == Rest(m) + [0x80] + Zeros(55 - r);
    }
  }

  lemma ZerosNeeded(n: nat)
    ensures ZeroCount(n) == if n % 64 + 1 > 56 then 119 - n % 64 else 55 - n % 64
  {
  }
}
