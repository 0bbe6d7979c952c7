/**
 What seeking, reading and writing mean to each other: a seek undoes a read, what has been written is read
 back, and the three kinds of seek count from where they should. The laws hold for the abstract files of a
 run and for the driver's own methods.
 */
module Positions {
  import opened Bytes
  import opened Chains
  import opened Layout
  import opened Tracks
  import opened FileSpec
  import opened FileBytes
  import opened FileView
  import opened FileSeek
  import opened File
  import opened Sessions

  // ---------------------------------------------------------------- the abstract file

  /** A seek back by what a read has returned takes the read back, and it can be repeated. */
  lemma ReadTakenBack(a: AFile, count: nat)
    requires a.mode.isOpen && a.mode.canRead && a.pos <= |a.bytes|
    ensures var (a1, reply) := Step(a, Call.Read(count));
      && reply.Data? && a1.pos == a.pos + |reply.b| <= |a.bytes|
      && Step(a1, Seek(-|reply.b|, 1)) == (a, Count(a.pos))
      && Step(a, Seek(|reply.b|, 1)) == (a1, Count(a1.pos))
  {
  }

  /** A seek to k bytes before the end and a read of k bytes give the last k bytes. */
  lemma LastBytes(a: AFile, k: int)
    requires a.mode.isOpen && a.mode.canRead && a.pos <= |a.bytes| && 0 <= k <= |a.bytes|
    ensures var (a1, reply) := Step(a, Seek(-k, 2));
      && reply == Count(|a.bytes| - k) && a1.pos <= |a1.bytes|
      && Step(a1, Call.Read(k)).1 == Data(a.bytes[|a.bytes| - k..])
  {
  }

  /** A seek to k bytes behind the start and a read of n bytes give the n bytes from there on. */
  lemma BytesFrom(a: AFile, k: nat, n: nat)
    requires a.mode.isOpen && a.mode.canRead && a.pos <= |a.bytes| && k + n <= |a.bytes|
    ensures var (a1, reply) := Step(a, Seek(k, 0));
      && reply == Count(k) && a1.pos <= |a1.bytes|
      && Step(a1, Call.Read(n)).1 == Data(a.bytes[k..k + n])
  {
  }

  /** A seek by nothing tells the position. */
  lemma Tell(a: AFile)
    requires a.mode.isOpen && a.pos <= |a.bytes|
    ensures Step(a, Seek(0, 1)) == (a, Count(a.pos))
  {
  }

  /** A seek that would leave the file, before its start or behind its end, is refused and changes nothing. */
  lemma SeekRefused(a: AFile, ptr: int)
    requires a.mode.isOpen && a.pos <= |a.bytes|
    ensures ptr < 0 || ptr > |a.bytes| ==> Step(a, Seek(ptr, 0)) == (a, Count(ptr - 1))
    ensures a.pos + ptr < 0 || ptr > |a.bytes| - a.pos ==> Step(a, Seek(ptr, 1)) == (a, Count(ptr - 1))
    ensures |a.bytes| + ptr < 0 || ptr > 0 ==> Step(a, Seek(ptr, 2)) == (a, Count(ptr - 1))
  {
  }

  /**
   What has been written is read back from where it was written, which is the position or, when appending,
   the end; the bytes before and behind it are as they were.
   */
  lemma WrittenReadBack(a: AFile, data: seq<byte>, room: nat)
    requires a.mode.isOpen && a.mode.canRead && a.mode.canWrite && a.pos <= |a.bytes| && room >= |data|
    ensures var (a1, reply) := Step(a, Call.Write(data, room));
      var start := if a.mode.append then |a.bytes| else a.pos;
      && reply == Count(|data|) && a1.pos == start + |data| <= |a1.bytes|
      && a1.bytes[..start] == a.bytes[..start]
      && a1.bytes[a1.pos..] == (if a1.pos < |a.bytes| then a.bytes[a1.pos..] else [])
      && var (a2, back) := Step(a1, Seek(-|data|, 1));
        && back == Count(start) && a2.pos == start
        && Step(a2, Call.Read(|data|)) == (a1, Data(data))
  {
    assert data[..|data|] == data;
    var start := if a.mode.append then |a.bytes| else a.pos;
    SpliceParts(a.bytes, start, data);
    hide Splice;
    StepBack(Step(a, Call.Write(data, room)).0, |data|);
    hide Step;
  }

  lemma SpliceParts(c: seq<byte>, start: nat, data: seq<byte>)
    requires start <= |c|
    ensures var b, end := Splice(c, start, data), start + |data|;
      && end <= |b| && b[..start] == c[..start] && b[start..end] == data
      && b[end..] == (if end < |c| then c[end..] else [])
  {
  }

  lemma StepBack(a: AFile, k: nat)
    requires a.mode.isOpen && a.mode.canRead && k <= a.pos <= |a.bytes|
    ensures Step(a, Seek(-(k as int), 1)) == (a.(pos := a.pos - k), Count(a.pos - k))
    ensures Step(a.(pos := a.pos - k), Call.Read(k)) == (a, Data(a.bytes[a.pos - k..a.pos]))
  {
  }

  // ---------------------------------------------------------------- the driver's methods

  /** An open, readable file with the bytes c. */
  ghost predicate Reads(f: FileS, c: seq<byte>)
    reads f, f.buffer, f.fs, f.fs.dev
  {
    && f.Ready() && f.Sound() && !f.IsDirectory() && f.flags.isOpen && f.flags.canRead
    && c == Content(f.fs.g, f.Disk(), f.Viewed(), f.chain, f.dir)
  }

  /** Unsaved data has a cluster, or there is one for it. */
  ghost predicate Steady(f: FileS)
    requires f.Ready()
    reads f, f.buffer, f.fs, f.fs.dev
  {
    f.sector != 0 || (HasFat(f.fs.g, f.Disk()) && !Full(Table(f.fs.g, f.Disk())))
  }

  /** A position in front of the end can be sought after work on a file that had a cluster or could get one. */
  lemma InReach(g: Geometry, d0: Disk, f0: Desc, ch0: seq<nat>, dir: seq<nat>, d: Disk, f: Desc, ch: seq<nat>,
                c: seq<byte>, pos: nat, t: nat)
    requires Worked(g, d0, f0, ch0, dir, d, f, ch, c, pos) && !f.IsDir() && t < |c|
    requires f0.sector != 0 || (HasFat(g, d0) && !Full(Table(g, d0)))
    ensures SeekWorks(g, d, f, ch, t)
  {
    WorkedFacts(g, d0, f0, ch0, dir, d, f, ch, c, pos);
    ViewSame(g, d, f, ch, dir);
    hide Content, SlotStep, View, RestsAt, Lucky, Table, SectorOf;
    if f.sector == 0 {
      FullCount(Table(g, d));
    }
  }

  /** After a read the file is as it was, further on. */
  lemma ReadsOn(g: Geometry, d0: Disk, f0: Desc, ch0: seq<nat>, dir: seq<nat>, d: Disk, f: Desc, ch: seq<nat>,
                c: seq<byte>, pos: nat)
    requires Worked(g, d0, f0, ch0, dir, d, f, ch, c, pos) && !f0.IsDir() && Roomy(g, d0, f0, dir)
    ensures Inv(g, d, f, ch, dir) && View(g, f, ch) == f && Roomy(g, d, f, dir) && Content(g, d, f, ch, dir) == c
    ensures !f.IsDir() && f.Pos() == pos <= |c|
    ensures f.flags.isOpen == f0.flags.isOpen && f.flags.canRead == f0.flags.canRead
    ensures f.flags.canWrite == f0.flags.canWrite
  {
    hide Inv, Content, Roomy, View, Worked;
    WorkedFacts(g, d0, f0, ch0, dir, d, f, ch, c, pos);
    WorkedMode(g, d0, f0, ch0, dir, d, f, ch, c, pos);
    ViewSame(g, d, f, ch, dir);
  }

  /** A read, from anywhere. */
  method ReadOn(f: FileS, out: array<byte>, count: nat, today: seq<byte>, ghost c: seq<byte>) returns (n: nat)
    requires Reads(f, c) && out != f.buffer && out != f.fs.sysbuf
    requires count <= out.Length && count < 0x8000_0000 && |today| == 2
    modifies f, f.buffer, f.fs.sysbuf, f.fs.dev, out
    ensures Reads(f, c) && f.dir == old(f.dir) && f.Snap().Pos() == old(f.Snap().Pos()) + n <= |c|
    ensures var pos := old(f.Snap().Pos());
      n == (if count <= |c| - pos then count else |c| - pos) && out[..n] == c[pos..pos + n]
    ensures old(Steady(f)) && n > 0 ==> SeekWorks(f.fs.g, f.Disk(), f.Snap(), f.chain, old(f.Snap().Pos()))
  {
    hide VolumeOk, Table, Inv, Content, Worked, Resting, View, Roomy, SeekWorks, ValidDisk, Full;
    ghost var d0, f0, ch0 := f.Disk(), f.Snap(), f.chain;
    ViewFlags(f.fs.g, f0, ch0);
    RestFlags(f.fs.g, d0, f0, ch0);
    if f0.cluster == 0xFFFF_FFFF {
      assert f.Rests() by { if f.Ok() { ViewSame(f.fs.g, d0, f0, ch0, f.dir); } }
      RestFacts(f.fs.g, d0, f0, ch0, f.dir);
    }
    var r := f.Read(out, count, today);
    n := r;
    if f0.cluster != 0xFFFF_FFFF {
      ReadsOn(f.fs.g, d0, f0, ch0, f.dir, f.Disk(), f.Snap(), f.chain, c, f0.Pos() + r);
      if old(Steady(f)) && n > 0 {
        InReach(f.fs.g, d0, f0, ch0, f.dir, f.Disk(), f.Snap(), f.chain, c, f0.Pos() + r, f0.Pos());
      }
    }
  }

  /** A seek that arrives, from anywhere. */
  method SeekOn(f: FileS, ptr: int, whence: int, ghost t: nat, ghost c: seq<byte>) returns (r: int)
    requires Reads(f, c) && -0x8000_0000 <= ptr < 0x8000_0000
    requires t == Target(f.Snap().Pos(), |c|, ptr, whence) && t <= |c|
    requires SeekWorks(f.fs.g, f.Disk(), f.Snap(), f.chain, t)
    modifies f, f.buffer, f.fs.sysbuf, f.fs.dev
    ensures r == t && Reads(f, c) && f.dir == old(f.dir) && f.Snap().Pos() == t
  {
    hide VolumeOk, Table, Inv, Content, Worked, Resting, View, Roomy, SeekWorks, SeekOk, ValidDisk, Stands, Target,
      Missed;
    ghost var g, d0, f0, v0, ch0 := f.fs.g, f.Disk(), f.Snap(), f.Viewed(), f.chain;
    StandsNothing(g, d0, f0, ch0, f.dir);
    ViewFlags(g, f0, ch0);
    r := f.Lseek(ptr, whence);
    StandsFacts(g, d0, v0, ch0, f.dir, f.Disk(), f.Snap(), f.chain, c, t);
    ViewFlags(g, f.Snap(), f.chain);
  }

  /** Reading, seeking back by what has been read and reading again: the same place and the same bytes. */
  method ReadTwice(f: FileS, out: array<byte>, again: array<byte>, count: nat, today: seq<byte>, ghost c: seq<byte>)
    returns (n: nat, back: int, m: nat)
    requires Reads(f, c) && Steady(f) && f.Snap().Pos() < |c| && 0 < count < 0x8000_0000 && |today| == 2
    requires count <= out.Length && out != f.buffer && out != f.fs.sysbuf && out != again
    requires count <= again.Length && again != f.buffer && again != f.fs.sysbuf
    modifies f, f.buffer, f.fs.sysbuf, f.fs.dev, out, again
    ensures 0 < n <= count && back == old(f.Snap().Pos()) && m == n && again[..m] == out[..n]
    ensures Reads(f, c) && f.Snap().Pos() == old(f.Snap().Pos()) + n
  {
    hide Reads, Steady, SeekWorks;
    ghost var pos: nat := f.Snap().Pos();
    n := ReadOn(f, out, count, today, c);
    ghost var read := out[..n];
    SmallPosition(f, c);
    back := SeekOn(f, -(n as int), 1, pos, c);
    m := ReadOn(f, again, count, today, c);
    assert out[..n] == read;
  }

  lemma SmallPosition(f: FileS, c: seq<byte>)
    requires Reads(f, c)
    ensures f.Snap().Pos() <= |c| == f.size < 0x8000_0000
  {
    hide Inv, Content, View, Resting, VolumeOk;
    StandsNothing(f.fs.g, f.Disk(), f.Snap(), f.chain, f.dir);
    StandsFacts(f.fs.g, f.Disk(), f.Viewed(), f.chain, f.dir, f.Disk(), f.Snap(), f.chain, c, f.Snap().Pos());
    ViewFlags(f.fs.g, f.Snap(), f.chain);
  }

  /** A seek to k bytes before the end, if it arrives, and a read: the last k bytes. */
  method ReadLast(f: FileS, out: array<byte>, k: nat, today: seq<byte>, ghost c: seq<byte>) returns (r: int, n: nat)
    requires Reads(f, c) && k <= |c| && k <= out.Length && out != f.buffer && out != f.fs.sysbuf && |today| == 2
    requires SeekWorks(f.fs.g, f.Disk(), f.Snap(), f.chain, |c| - k)
    modifies f, f.buffer, f.fs.sysbuf, f.fs.dev, out
    ensures r == |c| - k && n == k && out[..n] == c[|c| - k..] && Reads(f, c)
  {
    hide Reads, SeekWorks;
    SmallPosition(f, c);
    r := SeekOn(f, -(k as int), 2, |c| - k, c);
    n := ReadOn(f, out, k, today, c);
  }

  /** A seek to k bytes behind the start, if it arrives, and a read of n bytes: the bytes from k to k + n. */
  method ReadFrom(f: FileS, out: array<byte>, k: nat, n: nat, today: seq<byte>, ghost c: seq<byte>)
    returns (r: int, m: nat)
    requires Reads(f, c) && k + n <= |c| && n <= out.Length && out != f.buffer && out != f.fs.sysbuf && |today| == 2
    requires SeekWorks(f.fs.g, f.Disk(), f.Snap(), f.chain, k)
    modifies f, f.buffer, f.fs.sysbuf, f.fs.dev, out
    ensures r == k && m == n && out[..m] == c[k..k + n] && Reads(f, c)
  {
    hide Reads, SeekWorks;
    SmallPosition(f, c);
    r := SeekOn(f, k, 0, k, c);
    m := ReadOn(f, out, n, today, c);
  }

  /** A seek by nothing, if it arrives, tells the position and stays there. */
  method TellPosition(f: FileS, ghost c: seq<byte>) returns (r: int)
    requires Reads(f, c) && SeekWorks(f.fs.g, f.Disk(), f.Snap(), f.chain, f.Snap().Pos())
    modifies f, f.buffer, f.fs.sysbuf, f.fs.dev
    ensures r == old(f.Snap().Pos()) == f.Snap().Pos() && Reads(f, c)
  {
    hide Reads, SeekWorks;
    SmallPosition(f, c);
    r := SeekOn(f, 0, 1, f.Snap().Pos(), c);
  }

  /** Writing, seeking back by what has been written and reading: what has been written, with the rest as it was. */
  method WriteThenRead(f: FileS, data: seq<byte>, out: array<byte>, now: seq<byte>, today: seq<byte>,
                       ghost c: seq<byte>)
    returns (n: int, back: int, m: nat, ghost c': seq<byte>)
    requires Reads(f, c) && f.Ok() && Steady(f) && f.flags.canWrite && 0 < |data| && |c| + |data| < 0x8000_0000
    requires f.flags.append ==> SeekWorks(f.fs.g, f.Disk(), f.Snap(), f.chain, |c|)
    requires |data| <= out.Length && out != f.buffer && out != f.fs.sysbuf && |now| == 4 && |today| == 2
    modifies f, f.buffer, f.fs.sysbuf, f.fs.dev, out
    ensures n == -1 || n == |data|
    ensures n != -1 ==>
      var start := if old(f.flags.append) then |c| else old(f.Snap().Pos());
      && back == start && m == |data| && out[..m] == data && Reads(f, c')
      && start + |data| <= |c'| && f.Snap().Pos() == start + |data|
      && c'[..start] == c[..start] && c'[start..start + |data|] == data
      && c'[start + |data|..] == (if start + |data| < |c| then c[start + |data|..] else [])
  {
    hide VolumeOk, Table, Inv, Content, Worked, Resting, View, Roomy, SeekWorks, ValidDisk, Full, Splice, Misplaced,
      Blocked;
    ghost var g, d0, f0, ch0 := f.fs.g, f.Disk(), f.Snap(), f.chain;
    SmallPosition(f, c);
    ViewSame(g, d0, f0, ch0, f.dir);
    ghost var start := if f0.flags.append then |c| else f0.Pos();
    back, m, c' := -1, 0, c;
    ghost var k;
    n, k := f.Write(data, now);
    if n == -1 {
      return;
    }
    assert data[..k] == data;
    SpliceParts(c, start, data);
    c' := Splice(c, start, data);
    ReadsOn(g, d0, f0, ch0, f.dir, f.Disk(), f.Snap(), f.chain, c', start + |data|);
    InReach(g, d0, f0, ch0, f.dir, f.Disk(), f.Snap(), f.chain, c', start + |data|, start);
    back := SeekOn(f, -(|data| as int), 1, start, c');
    m := ReadOn(f, out, |data|, today, c');
  }
}
