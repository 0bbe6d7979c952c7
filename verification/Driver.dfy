/** The table of descriptors: the calls of the driver, by descriptor number, on files that share one volume. */
module Driver {
  import opened Bytes
  import opened Chains
  import opened Layout
  import opened Tracks
  import opened Allocator
  import opened FileSpec
  import opened FileBytes
  import opened FileView
  import opened FileSeek
  import opened FileStore
  import opened File
  import opened Sharing
  import opened Sessions

  /** The file of a descriptor; a reader that rests behind its last cluster counts as one that has just rolled off. */
  ghost function HandleOf(f: FileS): Handle
    reads f, f.buffer
  {
    Handle(f.Viewed(), f.chain, f.dir)
  }

  /** A file is held by a descriptor, or is as it was when it was closed. */
  ghost function HandleAt(table: seq<FileS>, fd: int, shut: Handle): Handle
    reads set i | 0 <= i < |table| :: table[i], set i | 0 <= i < |table| :: table[i].buffer
  {
    if 0 <= fd < |table| then HandleOf(table[fd]) else shut
  }

  ghost function HandlesOf(table: seq<FileS>, fdOf: seq<int>, shut: seq<Handle>, n: nat): (o: seq<Handle>)
    requires n <= |fdOf| == |shut|
    reads set i | 0 <= i < |table| :: table[i], set i | 0 <= i < |table| :: table[i].buffer
    ensures |o| == n && forall i :: 0 <= i < n ==> o[i] == HandleAt(table, fdOf[i], shut[i])
  {
    if n == 0 then [] else HandlesOf(table, fdOf, shut, n - 1) + [HandleAt(table, fdOf[n - 1], shut[n - 1])]
  }

  /** A descriptor that holds a file is that file's descriptor, and no file is held by two. */
  predicate Inverse(fdOf: seq<int>, fileOf: seq<int>) {
    && (forall fd :: 0 <= fd < |fileOf| && fileOf[fd] >= 0 ==> fileOf[fd] < |fdOf| && fdOf[fileOf[fd]] == fd)
    && (forall i :: 0 <= i < |fdOf| && fdOf[i] >= 0 ==> fdOf[i] < |fileOf| && fileOf[fdOf[i]] == i)
  }

  lemma InverseAt(fdOf: seq<int>, fileOf: seq<int>, fd: nat)
    requires Inverse(fdOf, fileOf) && fd < |fileOf|
    ensures fileOf[fd] >= 0 ==> fileOf[fd] < |fdOf| && fdOf[fileOf[fd]] == fd
    ensures forall i :: 0 <= i < |fdOf| && fdOf[i] == fd ==> fileOf[fd] == i
  {
  }

  lemma InverseRelease(fdOf: seq<int>, fileOf: seq<int>, fd: nat)
    requires Inverse(fdOf, fileOf) && fd < |fileOf| && 0 <= fileOf[fd] < |fdOf|
    ensures Inverse(fdOf[fileOf[fd] := -1], fileOf[fd := -1])
  {
  }

  lemma InverseAssign(fdOf: seq<int>, fileOf: seq<int>, fd: nat, x: nat)
    requires Inverse(fdOf, fileOf) && fd < |fileOf| && x < |fdOf| && fdOf[x] < 0 && fileOf[fd] < 0
    ensures Inverse(fdOf[x := fd], fileOf[fd := x])
  {
  }

  lemma InverseAppend(fdOf: seq<int>, fileOf: seq<int>, fd: nat)
    requires Inverse(fdOf, fileOf) && fd < |fileOf| && fileOf[fd] < 0
    ensures Inverse(fdOf + [fd], fileOf[fd := |fdOf|])
  {
  }

  class Files {
    const vol: FatInfo
    const table: seq<FileS>

    ghost var shut: seq<Handle>     // the files, as they were when they were last closed
    ghost var fdOf: seq<int>        // the descriptor of each file, or -1
    ghost var fileOf: seq<int>      // the file of each descriptor, or -1

    constructor (vol: FatInfo, table: seq<FileS>)
      ensures this.vol == vol && this.table == table && shut == [] && fdOf == []
    {
      this.vol, this.table := vol, table;
      shut, fdOf, fileOf := [], [], seq(|table|, _ => -1);
    }

    /** The descriptors and their buffers are separate objects on one volume. */
    ghost predicate Separate() {
      && vol.sysbuf.Length == 512
      && (forall i :: 0 <= i < |table| ==>
            table[i].fs == vol && table[i].buffer.Length == 512 && table[i].buffer != vol.sysbuf)
      && (forall i, j :: 0 <= i < j < |table| ==> table[i] != table[j] && table[i].buffer != table[j].buffer)
    }

    /** A descriptor is open exactly when it holds a file, and no file is held by two. */
    ghost predicate Held()
      reads this, set i | 0 <= i < |table| :: table[i]
    {
      && |fdOf| == |shut| && |fileOf| == |table| && Inverse(fdOf, fileOf)
      && (forall fd :: 0 <= fd < |table| ==> (table[fd].flags.isOpen <==> fileOf[fd] >= 0))
      && (forall i :: 0 <= i < |fdOf| && fdOf[i] < 0 ==> !shut[i].f.flags.isOpen)
    }

    /** The records of open descriptors stand for files. */
    ghost predicate Standing()
      reads vol.dev, set i | 0 <= i < |table| :: table[i], set i | 0 <= i < |table| :: table[i].buffer
    {
      forall fd :: 0 <= fd < |table| && table[fd].flags.isOpen ==> StandsAt(fd)
    }

    ghost predicate StandsAt(fd: nat)
      requires fd < |table|
      reads vol.dev, set i | 0 <= i < |table| :: table[i], set i | 0 <= i < |table| :: table[i].buffer
    {
      Shows(vol.g, vol.dev.disk, table[fd].Snap(), table[fd].chain)
    }

    /** Only descriptor fd has been used: the files it does not hold are as they were. */
    twostate lemma Elsewhere(fd: nat)
      requires fd < |table| && |fdOf| == |shut| && fdOf == old(fdOf) && shut == old(shut)
      requires old(Standing()) && |vol.dev.disk| == |old(vol.dev.disk)| && (table[fd].flags.isOpen ==> StandsAt(fd))
      ensures Standing()
      requires forall k :: 0 <= k < |table| && k != fd ==> unchanged(table[k]) && unchanged(table[k].buffer)
      ensures forall i :: 0 <= i < |shut| && fdOf[i] != fd ==> State().files[i] == old(State()).files[i]
      ensures forall i :: 0 <= i < |shut| && fdOf[i] == fd ==> State().files[i] == HandleOf(table[fd])
      ensures State().d == vol.dev.disk && |State().files| == |shut|
    {
      forall k | 0 <= k < |table| && table[k].flags.isOpen && k != fd ensures StandsAt(k) {
        assert old(StandsAt(k));
        ShowsSize(vol.g, old(vol.dev.disk), vol.dev.disk, table[k].Snap(), table[k].chain);
      }
      forall i | 0 <= i < |shut| && fdOf[i] != fd ensures State().files[i] == old(State()).files[i] {
        assert HandleAt(table, fdOf[i], shut[i]) == old(HandleAt(table, fdOf[i], shut[i]));
      }
    }

    ghost function State(): System
      requires |fdOf| == |shut|
      reads this, vol.dev, set i | 0 <= i < |table| :: table[i], set i | 0 <= i < |table| :: table[i].buffer
    {
      System(vol.dev.disk, HandlesOf(table, fdOf, shut, |shut|))
    }

    /** Descriptor fd gives its file up, which keeps the record it has. */
    ghost method Release(fd: nat)
      requires |fdOf| == |shut| && |fileOf| == |table| && Inverse(fdOf, fileOf)
      requires fd < |table| && 0 <= fileOf[fd] < |fdOf| && fdOf[fileOf[fd]] == fd
      modifies this`shut, this`fdOf, this`fileOf
      ensures shut == old(shut)[old(fileOf)[fd] := HandleOf(table[fd])]
      ensures fdOf == old(fdOf)[old(fileOf)[fd] := -1] && fileOf == old(fileOf)[fd := -1] && Inverse(fdOf, fileOf)
      ensures State() == old(State())
      ensures old(Standing()) ==> Standing()
    {
      hide Inverse, HandlesOf, StandsAt;
      InverseRelease(fdOf, fileOf, fd);
      ghost var x, o := fileOf[fd], State();
      shut, fdOf, fileOf := shut[x := HandleOf(table[fd])], fdOf[x := -1], fileOf[fd := -1];
      assert State().files == o.files;
    }

    /** Free descriptor fd takes closed file x over. */
    ghost method Assign(fd: nat, x: nat)
      requires |fdOf| == |shut| && |fileOf| == |table| && Inverse(fdOf, fileOf)
      requires fd < |table| && fileOf[fd] < 0 && x < |fdOf| && fdOf[x] < 0
      modifies this`fdOf, this`fileOf
      ensures fdOf == old(fdOf)[x := fd] && fileOf == old(fileOf)[fd := x] && Inverse(fdOf, fileOf)
      ensures State() == System(vol.dev.disk, old(State()).files[x := HandleOf(table[fd])])
      ensures old(Standing()) ==> Standing()
    {
      hide Inverse, HandlesOf, StandsAt;
      InverseAssign(fdOf, fileOf, fd, x);
      ghost var o := State();
      fdOf, fileOf := fdOf[x := fd], fileOf[fd := x];
      assert State().files == o.files[x := HandleOf(table[fd])];
    }

    /** Closed file x is a now. */
    ghost method Replace(x: nat, a: Handle)
      requires |fdOf| == |shut| && x < |fdOf| && fdOf[x] < 0
      modifies this`shut
      ensures shut == old(shut)[x := a]
      ensures State() == System(vol.dev.disk, old(State()).files[x := a])
      ensures old(Standing()) ==> Standing()
    {
      hide HandlesOf, StandsAt;
      ghost var o := State();
      shut := shut[x := a];
      assert State().files == o.files[x := a];
    }

    /** The file on free descriptor fd is a new one. */
    ghost method Append(fd: nat)
      requires |fdOf| == |shut| && |fileOf| == |table| && Inverse(fdOf, fileOf) && fd < |table| && fileOf[fd] < 0
      modifies this`shut, this`fdOf, this`fileOf
      ensures shut == old(shut) + [HandleOf(table[fd])] && Inverse(fdOf, fileOf)
      ensures fdOf == old(fdOf) + [fd] && fileOf == old(fileOf)[fd := |old(shut)|]
      ensures State() == System(vol.dev.disk, old(State()).files + [HandleOf(table[fd])])
      ensures old(Standing()) ==> Standing()
    {
      hide Inverse, HandlesOf, StandsAt;
      InverseAppend(fdOf, fileOf, fd);
      ghost var o := State();
      shut, fdOf, fileOf := shut + [HandleOf(table[fd])], fdOf + [fd], fileOf[fd := |shut|];
      assert State().files == o.files + [HandleOf(table[fd])];
    }

    ghost predicate Valid()
      reads this, vol, vol.dev, set i | 0 <= i < |table| :: table[i], set i | 0 <= i < |table| :: table[i].buffer
    {
      Separate() && vol.Ready() && Held() && SystemOk(vol.g, State()) && Standing()
    }

    /** The file descriptor fd is open on, or the number of files when there is none. */
    ghost function FileAt(fd: nat): nat
      reads this
    {
      if fd < |table| && fd < |fileOf| && fileOf[fd] >= 0 then fileOf[fd] else |shut|
    }

    predicate IsOpen(fd: nat)
      reads set i | 0 <= i < |table| :: table[i]
    {
      fd < |table| && table[fd].flags.isOpen
    }

    /** The descriptor's file finds an empty slot in its directory when it asks for one. */
    ghost predicate RoomFor(fd: nat)
      reads vol.dev, set i | 0 <= i < |table| :: table[i], set i | 0 <= i < |table| :: table[i].buffer
    {
      fd < |table| ==> Roomy(vol.g, vol.dev.disk, table[fd].Snap(), table[fd].dir)
    }

    method Read(fd: nat, count: nat, today: seq<byte>) returns (reply: Reply)
      requires Valid() && RoomFor(fd) && count < 0x8000_0000 && |today| == 2
      modifies vol.sysbuf, vol.dev, set i | 0 <= i < |table| :: table[i], set i | 0 <= i < |table| :: table[i].buffer
      ensures Valid()
      ensures Does(vol.g, old(State()), FileAt(fd), Call.Read(count), State(), reply)
    {
      hide SystemOk, Does, HandlesOf, Inverse, Shows, Roomy, Takes, OpenOk, VolumeOk, ValidDisk;
      ghost var s, x := State(), FileAt(fd);
      if !IsOpen(fd) {
        Refused(vol.g, s, x, Call.Read(count));
        return Count(-1);
      }
      InverseAt(fdOf, fileOf, fd);
      OneOf(vol.g, s, x);
      reply := ReadFile(table[fd], count, today);
      Elsewhere(fd);
      assert State() == System(vol.dev.disk, s.files[x := HandleOf(table[fd])]);
      Taken(vol.g, s, x, Call.Read(count), State(), reply);
    }

    method Write(fd: nat, data: seq<byte>, now: seq<byte>) returns (reply: Reply, ghost room: nat)
      requires Valid() && RoomFor(fd) && |now| == 4
      requires IsOpen(fd) ==> table[fd].size + |data| < 0x8000_0000 && Appendable(table[fd])
      modifies vol.sysbuf, vol.dev, set i | 0 <= i < |table| :: table[i], set i | 0 <= i < |table| :: table[i].buffer
      ensures Valid()
      ensures Does(vol.g, old(State()), FileAt(fd), Call.Write(data, room), State(), reply)
      ensures room < |data| ==> fd < |table| && Blocked(vol.g, vol.dev.disk, table[fd].Snap(), table[fd].chain)
    {
      hide SystemOk, Does, HandlesOf, Inverse, Shows, Roomy, Takes, OpenOk, VolumeOk, ValidDisk, SeekWorks, Blocked;
      ghost var s, x := State(), FileAt(fd);
      if !IsOpen(fd) {
        Refused(vol.g, s, x, Call.Write(data, |data|));
        return Count(-1), |data|;
      }
      InverseAt(fdOf, fileOf, fd);
      OneOf(vol.g, s, x);
      reply, room := WriteFile(table[fd], data, now);
      Elsewhere(fd);
      assert State() == System(vol.dev.disk, s.files[x := HandleOf(table[fd])]);
      Taken(vol.g, s, x, Call.Write(data, room), State(), reply);
    }

    method Lseek(fd: nat, ptr: int, whence: int) returns (reply: Reply)
      requires Valid() && RoomFor(fd) && -0x8000_0000 <= ptr < 0x8000_0000
      requires IsOpen(fd) ==> Seekable(table[fd], ptr, whence)
      modifies vol.sysbuf, vol.dev, set i | 0 <= i < |table| :: table[i], set i | 0 <= i < |table| :: table[i].buffer
      ensures Valid()
      ensures Does(vol.g, old(State()), FileAt(fd), Call.Seek(ptr, whence), State(), reply)
    {
      hide SystemOk, Does, HandlesOf, Inverse, Shows, Roomy, Takes, OpenOk, VolumeOk, ValidDisk, SeekWorks;
      ghost var s, x := State(), FileAt(fd);
      if !IsOpen(fd) {
        Refused(vol.g, s, x, Call.Seek(ptr, whence));
        return Count(ptr - 1);
      }
      InverseAt(fdOf, fileOf, fd);
      OneOf(vol.g, s, x);
      reply := SeekFile(table[fd], ptr, whence);
      Elsewhere(fd);
      assert State() == System(vol.dev.disk, s.files[x := HandleOf(table[fd])]);
      Taken(vol.g, s, x, Call.Seek(ptr, whence), State(), reply);
    }

    /** Closes descriptor fd; its file keeps the record it has then. */
    method Close(fd: nat) returns (reply: Reply, ghost saved: bool)
      requires Valid() && RoomFor(fd)
      modifies this`shut, this`fdOf, this`fileOf
      modifies vol.sysbuf, vol.dev, set i | 0 <= i < |table| :: table[i], set i | 0 <= i < |table| :: table[i].buffer
      ensures Valid()
      ensures Does(vol.g, old(State()), old(FileAt(fd)), Call.Close(saved), State(), reply)
      ensures old(IsOpen(fd)) ==> (saved <==> !NoRoom(vol.g, old(vol.dev.disk), old(table[fd].Snap())))
    {
      hide SystemOk, Does, HandlesOf, Inverse, Shows, Roomy, Takes, OpenOk, VolumeOk, ValidDisk, NoRoom;
      ghost var s, x := State(), FileAt(fd);
      saved := true;
      if !IsOpen(fd) {
        Refused(vol.g, s, x, Call.Close(saved));
        return Count(-1), saved;
      }
      InverseAt(fdOf, fileOf, fd);
      OneOf(vol.g, s, x);
      var f := table[fd];
      reply, saved := CloseFile(f);
      Elsewhere(fd);
      assert State() == System(vol.dev.disk, s.files[x := HandleOf(f)]);
      if saved {
        Release(fd);
      }
      Taken(vol.g, s, x, Call.Close(saved), State(), reply);
    }

    /** The first descriptor that is not open, or -1. */
    method NextFile() returns (fd: int)
      ensures -1 <= fd < |table|
      ensures fd >= 0 ==> !table[fd].flags.isOpen
      ensures fd == -1 ==> forall i :: 0 <= i < |table| ==> table[i].flags.isOpen
    {
      fd := 0;
      while fd < |table|
        invariant 0 <= fd <= |table| && forall i :: 0 <= i < fd ==> table[i].flags.isOpen
      {
        if !table[fd].flags.isOpen {
          return;
        }
        fd := fd + 1;
      }
      fd := -1;
    }

    /** Every descriptor is taken. */
    predicate AllTaken()
      reads set i | 0 <= i < |table| :: table[i]
    {
      forall i :: 0 <= i < |table| ==> table[i].flags.isOpen
    }

    /** File x is closed, not with a stale entry, and the look-up of its path finds its entry if there is one. */
    ghost predicate LooksUp(x: nat, found: bool, es: nat, en: nat)
      reads this, vol, vol.dev, set i | 0 <= i < |table| :: table[i], set i | 0 <= i < |table| :: table[i].buffer
    {
      && Valid() && x < |shut| && fdOf[x] < 0 && OpenOk(vol.g, vol.dev.disk, shut[x])
      && (found <==> Meaning(vol.g, vol.dev.disk, shut[x]).listed) && !Meaning(vol.g, vol.dev.disk, shut[x]).stale
      && (found ==> es == shut[x].f.entrySector && en == shut[x].f.entryNumber)
    }

    /** Opens closed file x, whose path look-up has found its entry (es, en) or nothing. */
    method Open(found: bool, es: nat, en: nat, read: bool, write: bool, append: bool, trunc: bool,
                created: seq<byte>, modified: seq<byte>, ghost x: nat) returns (fd: int)
      requires LooksUp(x, found, es, en) && |created| == 5 && |modified| == 4
      requires write && trunc ==>
        HasFat(vol.g, vol.dev.disk) && Walkable(Table(vol.g, vol.dev.disk), vol.g.EndMarker())
      modifies this`shut, this`fdOf, this`fileOf, vol.sysbuf, vol.dev
      modifies set i | 0 <= i < |table| :: table[i], set i | 0 <= i < |table| :: table[i].buffer
      ensures Valid() && -1 <= fd < |table|
      ensures old(AllTaken()) ==> fd == -1 && State() == old(State())
      ensures !old(AllTaken()) ==>
        Does(vol.g, old(State()), x, Call.Open(read, write, append, trunc), State(), Count(if fd < 0 then -1 else 0))
      ensures fd >= 0 ==> FileAt(fd) == x && !old(table[fd].flags.isOpen)
    {
      hide SystemOk, Does, HandlesOf, Inverse, Shows, Takes, OpenOk, VolumeOk, ValidDisk, Meaning, Roomy, Disjoint,
        HandleOf, Walkable, Table;
      ghost var s, call := State(), Call.Open(read, write, append, trunc);
      fd := NextFile();
      if fd == -1 {
        return -1;
      }
      var f := table[fd];
      OneOf(vol.g, s, x);
      var err := OpenFile(f, found, es, en, read, write, append, trunc, created, modified, shut[x]);
      InverseAt(fdOf, fileOf, fd);
      Elsewhere(fd);
      assert State() == System(vol.dev.disk, s.files);
      if err {
        assert s == System(s.d, s.files[x := s.files[x]]);
        Taken(vol.g, s, x, call, State(), Count(-1));
        return -1;
      }
      Assign(fd, x);
      Taken(vol.g, s, x, call, State(), Count(0));
    }

    /** Opens a file that does not exist yet, in directory dir. */
    method Create(name: seq<byte>, readOnly: bool, read: bool, write: bool, append: bool, created: seq<byte>,
                  parentCluster: nat, ghost dir: seq<nat>) returns (fd: int)
      requires Valid() && |name| == 11 && |created| == 5 && InUseMark(name[0])
      requires VolumeOk(vol.g, vol.dev.disk) && Track(vol.g, Table(vol.g, vol.dev.disk), dir) && parentCluster == dir[0]
      requires forall i :: 0 <= i < |State().files| ==> Disjoint(dir, State().files[i].ch)
      modifies this`shut, this`fdOf, this`fileOf
      modifies set i | 0 <= i < |table| :: table[i], set i | 0 <= i < |table| :: table[i].buffer
      ensures Valid() && -1 <= fd < |table| && (fd == -1 <==> old(AllTaken()))
      ensures fd == -1 ==> State() == old(State())
      ensures fd >= 0 ==>
        && Does(vol.g, old(State()), 0, Call.Create(read, write, append, readOnly), State(), Count(0))
        && FileAt(fd) == |old(State()).files| && !old(table[fd].flags.isOpen)
    {
      hide SystemOk, Does, HandlesOf, Inverse, Standing, StandsAt, Shows, Takes, OpenOk, VolumeOk, ValidDisk, Meaning,
        Inv, Content, RoomAt, Newborn, Track, HandleOf, Disjoint, Table;
      ghost var s, call := State(), Call.Create(read, write, append, readOnly);
      fd := NextFile();
      if fd == -1 {
        return -1;
      }
      var f := table[fd];
      CreateFile(f, name, readOnly, read, write, append, created, parentCluster, dir, s, call);
      InverseAt(fdOf, fileOf, fd);
      Elsewhere(fd);
      assert State() == s;
      Append(fd);
      Created(vol.g, s, call, State());
    }

    /** Deletes closed file x, whose path look-up has found its entry (es, en) or nothing. */
    method Unlink(found: bool, es: nat, en: nat, ghost x: nat) returns (r: int)
      requires LooksUp(x, found, es, en) && HasFat(vol.g, vol.dev.disk)
      requires Walkable(Table(vol.g, vol.dev.disk), vol.g.EndMarker())
      modifies this`shut, vol.sysbuf, vol.dev
      modifies set i | 0 <= i < |table| :: table[i], set i | 0 <= i < |table| :: table[i].buffer
      ensures Valid()
      ensures old(AllTaken()) ==> r == -1 && State() == old(State())
      ensures !old(AllTaken()) ==> Does(vol.g, old(State()), x, Call.Delete, State(), Count(r))
    {
      hide SystemOk, Does, HandlesOf, Inverse, Standing, StandsAt, Shows, Takes, OpenOk, VolumeOk, ValidDisk, Meaning,
        Walkable, Table, HandleOf;
      ghost var s := State();
      var fd := NextFile();
      if fd == -1 {
        return -1;
      }
      var f := table[fd];
      if !found {
        Nothing(vol.g, s.d, shut[x]);
        assert State() == System(s.d, s.files[x := s.files[x]]);
        Taken(vol.g, s, x, Call.Delete, State(), Count(-1));
        return -1;
      }
      OneOf(vol.g, s, x);
      ghost var a := DeleteFile(f, es, en, shut[x]);
      InverseAt(fdOf, fileOf, fd);
      Elsewhere(fd);
      assert State() == System(vol.dev.disk, s.files);
      Replace(x, a);
      Taken(vol.g, s, x, Call.Delete, State(), Count(0));
      return 0;
    }
  }

  // ---------------------------------------------------------------- calls on one descriptor

  /** What a call on an open descriptor starts from. */
  ghost predicate Usable(f: FileS)
    reads f, f.buffer, f.fs, f.fs.dev
  {
    && f.Ready() && f.flags.isOpen && OpenOk(f.fs.g, f.Disk(), HandleOf(f))
    && Shows(f.fs.g, f.Disk(), f.Snap(), f.chain) && Roomy(f.fs.g, f.Disk(), f.Snap(), f.dir)
  }

  /** An append finds the end of the file. */
  ghost predicate Appendable(f: FileS)
    reads f, f.buffer, f.fs, f.fs.dev
  {
    f.flags.append ==> SeekWorks(f.fs.g, f.Disk(), f.Snap(), f.chain, f.size)
  }

  /** A seek arrives, or its target is outside the file. */
  ghost predicate Seekable(f: FileS, ptr: int, whence: int)
    reads f, f.buffer, f.fs, f.fs.dev
  {
    var t := Target(f.Snap().Pos(), f.size, ptr, whence);
    0 <= t <= f.size ==> SeekWorks(f.fs.g, f.Disk(), f.Snap(), f.chain, t)
  }

  method ReadFile(f: FileS, count: nat, today: seq<byte>) returns (reply: Reply)
    requires Usable(f) && count < 0x8000_0000 && |today| == 2
    modifies f, f.buffer, f.fs.sysbuf, f.fs.dev
    ensures f.Ready() && f.flags.isOpen && |f.Disk()| == |old(f.Disk())|
    ensures Shows(f.fs.g, f.Disk(), f.Snap(), f.chain)
    ensures Takes(f.fs.g, old(f.Disk()), old(HandleOf(f)), Call.Read(count), f.Disk(), HandleOf(f), reply)
  {
    hide Worked, Content, Inv, VolumeOk, Filled, ValidDisk, OpenOk, Roomy, Takes, View, Resting, Shows;
    ghost var g, d, f0, a := f.fs.g, f.Disk(), f.Snap(), HandleOf(f);
    ViewFlags(g, f.Snap(), f.chain);
    OpenHandle(g, d, a);
    OpenRecord(g, d, f0, f.chain, f.dir);
    var out := new byte[count];
    ghost var out0 := out[..];
    var n := f.Read(out, count, today);
    reply := if n < 0 then Count(-1) else Data(out[..n]);
    if f0.cluster == 0xFFFF_FFFF {
      FillStart(Meaning(g, d, a).bytes, Meaning(g, d, a).pos, out0);
      RestRead(g, d, f0, f.chain, f.dir, Meaning(g, d, a).bytes);
    } else if n != -1 {
      RecordAfter(g, d, a, f.Disk(), f.Snap(), f.chain, Meaning(g, d, a).bytes, a.f.Pos() + n);
    }
    ReadTakes(g, d, a, count, f.Disk(), HandleOf(f), n, out[..], out0);
    TakesSize(g, d, a, Call.Read(count), f.Disk(), HandleOf(f), reply);
  }

  method WriteFile(f: FileS, data: seq<byte>, now: seq<byte>) returns (reply: Reply, ghost room: nat)
    requires Usable(f) && |now| == 4 && f.size + |data| < 0x8000_0000 && Appendable(f)
    modifies f, f.buffer, f.fs.sysbuf, f.fs.dev
    ensures f.Ready() && f.flags.isOpen && |f.Disk()| == |old(f.Disk())|
    ensures Shows(f.fs.g, f.Disk(), f.Snap(), f.chain)
    ensures Takes(f.fs.g, old(f.Disk()), old(HandleOf(f)), Call.Write(data, room), f.Disk(), HandleOf(f), reply)
    ensures room < |data| ==> Blocked(f.fs.g, f.Disk(), f.Snap(), f.chain)
  {
    hide Worked, Content, Inv, VolumeOk, Splice, ValidDisk, OpenOk, Roomy, Takes, SeekWorks, Blocked, Misplaced, View,
      Resting, Shows;
    ghost var g, d, f0, a := f.fs.g, f.Disk(), f.Snap(), HandleOf(f);
    ViewFlags(g, f.Snap(), f.chain);
    OpenHandle(g, d, a);
    OpenRecord(g, d, f0, f.chain, f.dir);
    ghost var c, start := Meaning(g, d, a).bytes, if f0.flags.append then f0.size else a.f.Pos();
    var n; ghost var k;
    n, k := f.Write(data, now);
    reply := Count(n);
    room := if a.f.flags.canWrite then k else |data|;
    if f0.flags.canWrite {
      RecordAfter(g, d, a, f.Disk(), f.Snap(), f.chain, Splice(c, start, data[..k]), start + k);
    }
    WriteTakes(g, d, a, data, f.Disk(), HandleOf(f), n, room);
    TakesSize(g, d, a, Call.Write(data, room), f.Disk(), HandleOf(f), reply);
  }

  method SeekFile(f: FileS, ptr: int, whence: int) returns (reply: Reply)
    requires Usable(f) && -0x8000_0000 <= ptr < 0x8000_0000 && Seekable(f, ptr, whence)
    modifies f, f.buffer, f.fs.sysbuf, f.fs.dev
    ensures f.Ready() && f.flags.isOpen && |f.Disk()| == |old(f.Disk())|
    ensures Shows(f.fs.g, f.Disk(), f.Snap(), f.chain)
    ensures Takes(f.fs.g, old(f.Disk()), old(HandleOf(f)), Call.Seek(ptr, whence), f.Disk(), HandleOf(f), reply)
  {
    hide Worked, Content, Inv, VolumeOk, ValidDisk, OpenOk, Roomy, Takes, SeekWorks, SeekOk, Missed, View, Resting,
      Shows;
    ghost var g, d, a := f.fs.g, f.Disk(), HandleOf(f);
    ViewFlags(g, f.Snap(), f.chain);
    OpenHandle(g, d, a);
    OpenRecord(g, d, f.Snap(), f.chain, f.dir);
    var n := f.Lseek(ptr, whence);
    reply := Count(n);
    SeekTakes(g, d, a, ptr, whence, f.Disk(), HandleOf(f), n);
    ViewFlags(g, f.Snap(), f.chain);
    TakesSize(g, d, a, Call.Seek(ptr, whence), f.Disk(), HandleOf(f), reply);
  }

  method CloseFile(f: FileS) returns (reply: Reply, ghost saved: bool)
    requires Usable(f)
    modifies f, f.buffer, f.fs.sysbuf, f.fs.dev
    ensures f.Ready() && f.flags.isOpen == !saved && |f.Disk()| == |old(f.Disk())|
    ensures saved <==> !NoRoom(f.fs.g, old(f.Disk()), old(f.Snap()))
    ensures Shows(f.fs.g, f.Disk(), f.Snap(), f.chain)
    ensures Takes(f.fs.g, old(f.Disk()), old(HandleOf(f)), Call.Close(saved), f.Disk(), HandleOf(f), reply)
  {
    hide Worked, Content, Inv, VolumeOk, ValidDisk, OpenOk, Roomy, Takes, Closed, NoRoom, Synced, View, Resting, Shows;
    ghost var g, d, f0, a := f.fs.g, f.Disk(), f.Snap(), HandleOf(f);
    ViewFlags(g, f.Snap(), f.chain);
    OpenHandle(g, d, a);
    OpenRecord(g, d, f0, f.chain, f.dir);
    var r := f.Close();
    reply := Count(r);
    saved := r == 0;
    if saved { ShutPos(g, d, a, f0, f.Disk(), f.Snap(), f.chain, Meaning(g, d, a).bytes); }
    CloseTakes(g, d, a, saved, f.Disk(), HandleOf(f));
    TakesSize(g, d, a, Call.Close(saved), f.Disk(), HandleOf(f), reply);
  }

  /** The end of fat_open on a file that does not exist yet. */
  method CreateFile(f: FileS, name: seq<byte>, readOnly: bool, read: bool, write: bool, append: bool,
                    created: seq<byte>, parentCluster: nat, ghost dir: seq<nat>, ghost s: System, ghost call: Call)
    requires f.Ready() && |name| == 11 && |created| == 5 && InUseMark(name[0]) && s.d == f.Disk()
    requires Track(f.fs.g, Table(f.fs.g, f.Disk()), dir) && parentCluster == dir[0]
    requires forall i :: 0 <= i < |s.files| ==> Disjoint(dir, s.files[i].ch)
    requires call == Call.Create(read, write, append, readOnly)
    modifies f, f.buffer
    ensures f.Ready() && f.flags.isOpen && f.Disk() == old(f.Disk()) && Shows(f.fs.g, f.Disk(), f.Snap(), f.chain)
    ensures Newborn(f.fs.g, s.d, s.files, call, HandleOf(f))
  {
    hide VolumeOk, ValidDisk, Inv, Content, RoomAt, Newborn, Track, Table;
    f.CreateEmpty(name, readOnly, read, write, append, created, parentCluster, dir);
    BornHere(f.fs.g, s, call, HandleOf(f), name, created);
  }

  /** The end of fat_open when the look-up of the path has succeeded or not: the record is loaded, and a write to a
      read-only file is refused. */
  method OpenFile(f: FileS, found: bool, es: nat, en: nat, read: bool, write: bool, append: bool, trunc: bool,
                  created: seq<byte>, modified: seq<byte>, ghost a: Handle) returns (err: bool)
    requires f.Ready() && !f.flags.isOpen && OpenOk(f.fs.g, f.Disk(), a) && !a.f.flags.isOpen
    requires |created| == 5 && |modified| == 4 && !Meaning(f.fs.g, f.Disk(), a).stale
    requires write && trunc ==> Walkable(Table(f.fs.g, f.Disk()), f.fs.g.EndMarker())
    requires found <==> Meaning(f.fs.g, f.Disk(), a).listed
    requires found ==> es == a.f.entrySector && en == a.f.entryNumber
    modifies f, f.buffer, f.fs.sysbuf, f.fs.dev
    ensures f.Ready() && f.flags.isOpen == !err && |f.Disk()| == |old(f.Disk())|
    ensures err ==> f.Disk() == old(f.Disk())
    ensures !err ==> Shows(f.fs.g, f.Disk(), f.Snap(), f.chain)
    ensures Takes(f.fs.g, old(f.Disk()), a, Call.Open(read, write, append, trunc), f.Disk(),
                  if err then a else HandleOf(f), Count(if err then -1 else 0))
  {
    hide Content, Inv, VolumeOk, ValidDisk, OpenOk, Roomy, Takes, OnDisk, OpenedAt, Meaning, View, Walkable, Table,
      Shows, Touched, Zeroed;
    ghost var g, d := f.fs.g, f.Disk();
    if !found {
      NotFound(g, d, a, read, write, append, trunc);
      return true;
    }
    ShutOnDisk(g, d, a);
    VolumeSpc(g, d);
    var _ := f.OpenSlot(es, en, read, write, append, a.ch, Meaning(g, d, a).bytes);
    ghost var b := Handle(f.Snap(), f.chain, f.dir);
    ViewSame(g, d, b.f, b.ch, b.dir);
    OpenTakes(g, d, a, read, write, append, b);
    err := write && f.meta.attributes % 2 == 1;
    if err {
      f.flags := Flags(false, false, false, false, false, false);
    } else if write && trunc {
      OpenedStart(g, d, es, en, b, Meaning(g, d, a).bytes);
      f.Truncate(created, modified);
      ViewSame(g, f.Disk(), f.Snap(), f.chain, f.dir);
      CutTakes(g, d, a, read, append, b, f.Disk(), HandleOf(f));
    }
  }

  /** The rest of fat_unlink: the entry found is opened, deleted and given up. */
  method DeleteFile(f: FileS, es: nat, en: nat, ghost a: Handle) returns (ghost a': Handle)
    requires f.Ready() && OpenOk(f.fs.g, f.Disk(), a) && !a.f.flags.isOpen && Meaning(f.fs.g, f.Disk(), a).listed
    requires !Meaning(f.fs.g, f.Disk(), a).stale
    requires es == a.f.entrySector && en == a.f.entryNumber
    requires Walkable(Table(f.fs.g, f.Disk()), f.fs.g.EndMarker())
    modifies f, f.buffer, f.fs.sysbuf, f.fs.dev
    ensures f.Ready() && !f.flags.isOpen && !a'.f.flags.isOpen && |f.Disk()| == |old(f.Disk())|
    ensures Takes(f.fs.g, old(f.Disk()), a, Call.Delete, f.Disk(), a', Count(0))
  {
    hide Content, Inv, VolumeOk, ValidDisk, OpenOk, Roomy, Takes, OnDisk, Meaning, Walkable, Table, Deletable, Touched,
      SlotFirst, SlotSize, Wrap32, SlotName, SlotAttributes;
    ghost var d := f.Disk();
    ShutOnDisk(f.fs.g, d, a);
    var _ := f.OpenSlot(es, en, true, false, false, a.ch, Meaning(f.fs.g, d, a).bytes);
    OpenedSectors(f.fs.g, d, Handle(f.Snap(), f.chain, f.dir), Meaning(f.fs.g, d, a).bytes);
    RegularDeletable(f.fs.g, d, f.Snap(), f.chain, f.dir);
    f.Delete();
    // fat_close has nothing to save
    f.flags := Flags(false, false, false, false, false, false);
    a' := Handle(a.f.(entrySector := 0), [], []);
    DeleteTakes(f.fs.g, d, a, f.Disk(), a');
  }

  // ---------------------------------------------------------------- from the contracts to the steps

  /** A call on a descriptor that is not open. */
  lemma Refused(g: Geometry, s: System, x: nat, call: Call)
    requires x >= |s.files| && !call.Create?
    ensures Does(g, s, x, call, s, Refusal(call))
  {
  }

  /** A call that only its own file and the disk take part in. */
  lemma Taken(g: Geometry, s: System, x: nat, call: Call, s': System, reply: Reply)
    requires SystemOk(g, s) && x < |s.files| == |s'.files| && s' == System(s'.d, s.files[x := s'.files[x]])
    requires !call.Create? && Takes(g, s.d, s.files[x], call, s'.d, s'.files[x], reply)
    ensures Does(g, s, x, call, s', reply) && SystemOk(g, s')
  {
    hide SystemOk, Takes;
    CallRefines(g, s, x, call, s', reply);
  }

  lemma OneOf(g: Geometry, s: System, x: nat)
    requires SystemOk(g, s) && x < |s.files|
    ensures OpenOk(g, s.d, s.files[x]) && VolumeOk(g, s.d)
  {
  }

  /** The record of an open descriptor meets the invariant, or is that of a resting reader. */
  lemma OpenRecord(g: Geometry, d: Disk, f: Desc, ch: seq<nat>, dir: seq<nat>)
    requires Inv(g, d, View(g, f, ch), ch, dir) && Shows(g, d, f, ch)
    ensures if f.cluster == 0xFFFF_FFFF then Resting(g, d, f, ch) else Inv(g, d, f, ch, dir) && View(g, f, ch) == f
    ensures var v := View(g, f, ch);
      v.flags == f.flags && v.IsDir() == f.IsDir() && v.size == f.size && v.Pos() == f.Pos() && v.meta == f.meta
    ensures !Resting(g, d, f, ch) || !f.flags.canWrite
  {
    hide Inv, Content;
    if f.cluster == 0xFFFF_FFFF { RestFacts(g, d, f, ch, dir); }
  }

  /** The record after work on it acts as itself. */
  lemma RecordAfter(g: Geometry, d: Disk, a: Handle, d': Disk, f': Desc, ch': seq<nat>, c: seq<byte>, pos: nat)
    requires Worked(g, d, a.f, a.ch, a.dir, d', f', ch', c, pos)
    ensures View(g, f', ch') == f' && Shows(g, d', f', ch')
  {
    hide Content, Frame, SlotStep;
    ViewSame(g, d', f', ch', a.dir);
  }

  /** A resting reader has nothing left to read. */
  lemma RestRead(g: Geometry, d: Disk, f: Desc, ch: seq<nat>, dir: seq<nat>, c: seq<byte>)
    requires Resting(g, d, f, ch) && Inv(g, d, View(g, f, ch), ch, dir)
    requires c == Content(g, d, View(g, f, ch), ch, dir)
    ensures View(g, f, ch).Pos() == f.Pos() == |c|
    ensures var v := View(g, f, ch); Worked(g, d, v, ch, dir, d, v, ch, c, |c|)
  {
    hide Inv, Content, Worked, View, Resting;
    RestFacts(g, d, f, ch, dir);
    WorkedNothing(g, d, View(g, f, ch), ch, dir);
  }

  /** Closing does not move the file. */
  lemma ShutPos(g: Geometry, d: Disk, a: Handle, f0: Desc, d': Disk, f: Desc, ch: seq<nat>,
                c: seq<byte>)
    requires a.f == View(g, f0, a.ch) && a.f.Pos() == f0.Pos() && f.Pos() == f0.Pos()
    requires Shows(g, d', f, ch) && f.flags.isOpen == false
    requires Closed(g, d, a.f, a.ch, a.dir, d', View(g, f, ch), ch, c)
    ensures View(g, f, ch).Pos() == a.f.Pos() && !View(g, f, ch).flags.isOpen
  {
  }

  /** A call leaves the device as large as it is. */
  lemma TakesSize(g: Geometry, d: Disk, a: Handle, call: Call, d': Disk, a': Handle, reply: Reply)
    requires Takes(g, d, a, call, d', a', reply) && !call.Create?
    ensures |d'| == |d|
  {
    hide Acts, Step, Meaning, OpenOk;
    ActRefines(g, d, a, call, d', a');
    WorkerSize(g, d, a, d', a');
  }

  lemma WorkerSize(g: Geometry, d: Disk, a: Handle, d': Disk, a': Handle)
    requires Worker(g, d, a, d', a')
    ensures |d'| == |d|
  {
  }

  lemma ShowsSize(g: Geometry, d: Disk, d': Disk, f: Desc, ch: seq<nat>)
    requires Shows(g, d, f, ch) && |d'| == |d|
    ensures Shows(g, d', f, ch)
  {
  }

  /** A file that has been opened stands at its start on its first cluster. */
  lemma OpenedStart(g: Geometry, d: Disk, es: nat, en: nat, b: Handle, c: seq<byte>)
    requires OnDisk(g, d, es, en, b.ch, c) && ValidDisk(d) && es < |d| && en < 16 && g.spc > 0
    requires OpenedAt(g, d, es, en, b.f) && Inv(g, d, b.f, b.ch, b.dir)
    ensures b.f.sector != 0 && b.f.cursor == 0 && !b.f.flags.dirty && !b.f.flags.fsDirty
  {
  }

  lemma OpenHandle(g: Geometry, d: Disk, a: Handle)
    requires OpenOk(g, d, a) && a.f.flags.isOpen
    ensures VolumeOk(g, d) && Inv(g, d, a.f, a.ch, a.dir) && !a.f.IsDir()
    ensures Meaning(g, d, a) == AFile(Content(g, d, a.f, a.ch, a.dir), a.f.Pos(), ModeOf(a.f.flags),
                                      a.f.entrySector != 0 || a.f.size > 0, a.f.meta.attributes % 2 == 1,
                                      a.f.entrySector != 0 && a.f.sector == 0 && a.f.size == 0)
    ensures |Content(g, d, a.f, a.ch, a.dir)| == a.f.size
  {
    hide Inv, Content;
    ContentSize(g, d, a);
  }

  /** A call that changes nothing is work on the file, and work leaves the file open. */
  lemma Still(g: Geometry, d: Disk, a: Handle)
    requires OpenOk(g, d, a) && a.f.flags.isOpen
    ensures var m := Meaning(g, d, a); Worked(g, d, a.f, a.ch, a.dir, d, a.f, a.ch, m.bytes, m.pos)
  {
    hide Inv, Content;
    WorkedNothing(g, d, a.f, a.ch, a.dir);
  }

  lemma StillOpen(g: Geometry, d: Disk, a: Handle, d': Disk, a': Handle, c: seq<byte>, pos: nat)
    requires Worked(g, d, a.f, a.ch, a.dir, d', a'.f, a'.ch, c, pos)
    ensures a'.f.flags.isOpen == a.f.flags.isOpen
  {
  }

  /** The contract of FileS.Read is the abstract step. */
  lemma ReadTakes(g: Geometry, d: Disk, a: Handle, count: nat, d': Disk, a': Handle, n: int, out: seq<byte>,
                  out0: seq<byte>)
    requires OpenOk(g, d, a) && a.f.flags.isOpen && n <= |out| && a'.dir == a.dir
    requires n == -1 <==> !a.f.flags.canRead
    requires n == -1 ==> d' == d && a' == a
    requires var m := Meaning(g, d, a);
      n != -1 ==>
        && n == (if count <= |m.bytes| - m.pos then count else |m.bytes| - m.pos)
        && Filled(out, m.bytes, m.pos, n, out0)
        && Worked(g, d, a.f, a.ch, a.dir, d', a'.f, a'.ch, m.bytes, m.pos + n)
    ensures Takes(g, d, a, Call.Read(count), d', a', if n < 0 then Count(-1) else Data(out[..n]))
    ensures a'.f.flags.isOpen
  {
    hide Worked, OpenOk, Filled, Meaning, Takes;
    var m := Meaning(g, d, a);
    ModeHere(g, d, a);
    Still(g, d, a);
    if n != -1 { FilledPrefix(out, m.bytes, m.pos, n, out0); }
    WorkTakes(g, d, a, Call.Read(count), d', a', if n < 0 then m else m.(pos := m.pos + n),
        if n < 0 then Count(-1) else Data(out[..n]));
  }

  lemma ModeHere(g: Geometry, d: Disk, a: Handle)
    requires OpenOk(g, d, a) && a.f.flags.isOpen
    ensures Meaning(g, d, a).mode == ModeOf(a.f.flags)
  {
    hide Inv, Content;
  }

  /** Work on an open file that is its abstract step. */
  lemma WorkTakes(g: Geometry, d: Disk, a: Handle, call: Call, d': Disk, a': Handle, m: AFile, reply: Reply)
    requires OpenOk(g, d, a) && a.f.flags.isOpen && a'.dir == a.dir && (call.Read? || call.Write? || call.Seek?)
    requires Step(Meaning(g, d, a), call) == (m, reply)
    requires Worked(g, d, a.f, a.ch, a.dir, d', a'.f, a'.ch, m.bytes, m.pos)
    ensures Takes(g, d, a, call, d', a', reply) && a'.f.flags.isOpen
  {
    hide OpenOk, Worked, Meaning, Step;
    StillOpen(g, d, a, d', a', m.bytes, m.pos);
  }

  /** The contract of FileS.Write is the abstract step, with the bytes there was room for. */
  lemma WriteTakes(g: Geometry, d: Disk, a: Handle, data: seq<byte>, d': Disk, a': Handle, n: int, k: nat)
    requires OpenOk(g, d, a) && a.f.flags.isOpen && a'.dir == a.dir && k <= |data|
    requires n == if a.f.flags.canWrite && k == |data| then |data| else -1
    requires !a.f.flags.canWrite ==> d' == d && a' == a
    requires var m := Meaning(g, d, a);
      var start := if a.f.flags.append then |m.bytes| else m.pos;
      a.f.flags.canWrite ==>
        Worked(g, d, a.f, a.ch, a.dir, d', a'.f, a'.ch, Splice(m.bytes, start, data[..k]), start + k)
    ensures Takes(g, d, a, Call.Write(data, k), d', a', Count(n)) && a'.f.flags.isOpen
  {
    hide Worked, OpenOk, Splice, Meaning, Takes;
    var m := Meaning(g, d, a);
    ModeHere(g, d, a);
    Still(g, d, a);
    var (m', reply) := Step(m, Call.Write(data, k));
    WorkTakes(g, d, a, Call.Write(data, k), d', a', m', reply);
  }

  /** The contract of FileS.Lseek, when the seek arrives or is refused, is the abstract step. */
  lemma SeekTakes(g: Geometry, d: Disk, a: Handle, ptr: int, whence: int, d': Disk, a': Handle, n: int)
    requires OpenOk(g, d, a) && a.f.flags.isOpen && a'.dir == a.dir
    requires var m := Meaning(g, d, a);
      var t := Target(m.pos, |m.bytes|, ptr, whence);
      if 0 <= t <= |m.bytes| then n == t && Worked(g, d, a.f, a.ch, a.dir, d', a'.f, a'.ch, m.bytes, t)
      else n == ptr - 1 && Worked(g, d, a.f, a.ch, a.dir, d', a'.f, a'.ch, m.bytes, m.pos)
    ensures Takes(g, d, a, Call.Seek(ptr, whence), d', a', Count(n)) && a'.f.flags.isOpen
  {
    hide Worked, OpenOk, Target, Meaning, Takes;
    ModeHere(g, d, a);
    var (m', reply) := Step(Meaning(g, d, a), Call.Seek(ptr, whence));
    WorkTakes(g, d, a, Call.Seek(ptr, whence), d', a', m', reply);
  }

  lemma FilledPrefix(out: seq<byte>, c: seq<byte>, pos: nat, n: nat, out0: seq<byte>)
    requires Filled(out, c, pos, n, out0)
    ensures n <= |out| && pos + n <= |c| && out[..n] == c[pos..pos + n]
  {
  }

  /** The contract of FileS.Close is the abstract step. */
  lemma CloseTakes(g: Geometry, d: Disk, a: Handle, saved: bool, d': Disk, a': Handle)
    requires OpenOk(g, d, a) && a.f.flags.isOpen && a'.dir == a.dir && a'.f.Pos() == a.f.Pos()
    requires saved ==> Closed(g, d, a.f, a.ch, a.dir, d', a'.f, a'.ch, Meaning(g, d, a).bytes)
    requires !saved ==> d' == d && a' == a
    ensures Takes(g, d, a, Call.Close(saved), d', a', Count(if saved then 0 else -1))
  {
    hide Closed, OpenOk, Meaning;
    MeaningMode(g, d, a);
  }

  /** The contract of OpenSlot, with the test of the read-only attribute, is the abstract step. */
  lemma OpenTakes(g: Geometry, d: Disk, a: Handle, read: bool, write: bool, append: bool, b: Handle)
    requires OpenOk(g, d, a) && !a.f.flags.isOpen && Meaning(g, d, a).listed && !Meaning(g, d, a).stale && g.spc > 0
    requires ValidDisk(d) && a.f.entrySector < |d| && a.f.entryNumber < 16
    requires OpenedAt(g, d, a.f.entrySector, a.f.entryNumber, b.f) && b.ch == a.ch
    requires b.f.flags == Flags(true, read, write, append, false, false)
    ensures Meaning(g, d, a).locked <==> b.f.meta.attributes % 2 == 1
    ensures Reopens(g, d, a, b, FlagsOf(Mode(true, read, write, append)))
    ensures forall trunc ::
      if write && Meaning(g, d, a).locked then
        Takes(g, d, a, Call.Open(read, write, append, trunc), d, a, Count(-1))
      else !(write && trunc) ==> Takes(g, d, a, Call.Open(read, write, append, trunc), d, b, Count(0))
  {
    ShutOnDisk(g, d, a);
    SlotLocked(g, d, a, b);
    hide OpenOk, OnDisk, Live, OpenedAt, Content;
  }

  /** The contract of Truncate on the record just opened is the abstract step. */
  lemma CutTakes(g: Geometry, d: Disk, a: Handle, read: bool, append: bool, b: Handle, d': Disk, a': Handle)
    requires OpenOk(g, d, a) && !a.f.flags.isOpen && Meaning(g, d, a).listed && !Meaning(g, d, a).stale
    requires !Meaning(g, d, a).locked && Reopens(g, d, a, b, FlagsOf(Mode(true, read, true, append)))
    requires Cuts(g, d, b, d', a')
    ensures Takes(g, d, a, Call.Open(read, true, append, true), d', a', Count(0))
  {
    hide OpenOk, Meaning, Reopens, Cuts;
  }

  lemma SlotLocked(g: Geometry, d: Disk, a: Handle, a': Handle)
    requires OpenOk(g, d, a) && Meaning(g, d, a).listed && g.spc > 0
    requires ValidDisk(d) && a.f.entrySector < |d| && a.f.entryNumber < 16
    requires SlotAttributes(d[a.f.entrySector], a.f.entryNumber) == a.f.meta.attributes
    requires OpenedAt(g, d, a.f.entrySector, a.f.entryNumber, a'.f)
    ensures Meaning(g, d, a).locked <==> a'.f.meta.attributes % 2 == 1
  {
    hide Inv, Content, SlotFirst, SlotSize, SlotAttributes;
  }

  /** A file without an entry is not found. */
  lemma NotFound(g: Geometry, d: Disk, a: Handle, read: bool, write: bool, append: bool, trunc: bool)
    requires OpenOk(g, d, a) && !a.f.flags.isOpen && !Meaning(g, d, a).listed && !Meaning(g, d, a).stale
    ensures Takes(g, d, a, Call.Open(read, write, append, trunc), d, a, Count(-1))
  {
    hide OpenOk, Content;
    MeaningMode(g, d, a);
  }

  lemma Nothing(g: Geometry, d: Disk, a: Handle)
    requires OpenOk(g, d, a) && !a.f.flags.isOpen && !Meaning(g, d, a).listed && !Meaning(g, d, a).stale
    ensures Takes(g, d, a, Call.Delete, d, a, Count(-1))
  {
    hide OpenOk, Content;
  }

  /** The contract of Delete is the abstract step. */
  lemma DeleteTakes(g: Geometry, d: Disk, a: Handle, d': Disk, a': Handle)
    requires OpenOk(g, d, a) && !a.f.flags.isOpen && Meaning(g, d, a).listed && !Meaning(g, d, a).stale && Dead(a')
    requires HasFat(g, d) && HasFat(g, d') && Table(g, d') == Zeroed(Table(g, d), a.ch)
    requires Touched(g, d, d', a.ch, [], a.f.entrySector, a.f.entryNumber)
    ensures Takes(g, d, a, Call.Delete, d', a', Count(0))
  {
    hide OpenOk, Meaning, Touched, Table;
  }

  /** The contract of CreateEmpty is what the abstract run asks of a new file. */
  lemma BornHere(g: Geometry, s: System, call: Call, b: Handle, name: seq<byte>, created: seq<byte>)
    requires call.Create? && VolumeOk(g, s.d) && Track(g, Table(g, s.d), b.dir) && b.ch == []
    requires forall i :: 0 <= i < |s.files| ==> Disjoint(b.dir, s.files[i].ch)
    requires |name| == 11 && |created| == 5 && InUseMark(name[0])
    requires b.f == NewRecord(name, if call.readOnly then 0x21 else 0x20,
                              Flags(true, call.read, call.write, call.append, false, false), created, b.dir[0])
    ensures Newborn(g, s.d, s.files, call, b)
  {
    hide VolumeOk, Track, Table;
  }

  lemma Created(g: Geometry, s: System, call: Call, s': System)
    requires SystemOk(g, s) && call.Create? && s'.d == s.d && |s'.files| == |s.files| + 1
    requires s'.files == s.files + [s'.files[|s.files|]] && Newborn(g, s.d, s.files, call, s'.files[|s.files|])
    ensures Does(g, s, 0, call, s', Count(0)) && SystemOk(g, s')
  {
    hide SystemOk, Newborn;
    CallRefines(g, s, 0, call, s', Count(0));
  }
}
