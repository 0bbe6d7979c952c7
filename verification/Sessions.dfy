/**
 Runs of the driver. The files of a volume, any number of them open, are created, opened, read,
 written, positioned, closed and deleted; every such call is a step of one abstract file, a byte
 sequence with a position, and leaves all others alone.
 */
module Sessions {
  import opened Bytes
  import opened Chains
  import opened Layout
  import opened Tracks
  import opened FileSpec
  import opened FileSteps
  import opened FileBytes
  import opened FileSeek
  import opened FileStore
  import opened Sharing

  // ---------------------------------------------------------------- the abstract file

  /** How a file is open, if it is. */
  datatype Mode = Mode(isOpen: bool, canRead: bool, canWrite: bool, append: bool)

  /**
   A byte sequence with a position. It is listed when its directory has an entry for it, or will have one
   when it is closed; locked is the read-only attribute. It is stale when it has been truncated and has
   got no byte since: its entry still names the clusters it had.
   */
  datatype AFile = AFile(bytes: seq<byte>, pos: nat, mode: Mode, listed: bool, locked: bool, stale: bool)

  /**
   The calls, each on one file. What the volume has room for is part of the call: the number of bytes
   of a write that it can store, and whether a close finds a cluster for unsaved data.
   */
  datatype Call =
    | Read(count: nat)
    | Write(data: seq<byte>, room: nat)
    | Seek(ptr: int, whence: int)
    | Close(saved: bool)
    | Open(read: bool, write: bool, append: bool, trunc: bool)
    | Create(read: bool, write: bool, append: bool, readOnly: bool)
    | Delete

  datatype Reply = Data(b: seq<byte>) | Count(n: int)

  const Shut := Mode(false, false, false, false)

  /** A file that is not there. */
  const Absent := AFile([], 0, Shut, false, false, false)

  /** What a call does to a file, and what it returns. */
  function Step(a: AFile, call: Call): (AFile, Reply)
    requires a.pos <= |a.bytes|
  {
    match call
    case Read(count) =>
      if !(a.mode.isOpen && a.mode.canRead) then (a, Count(-1)) else
      var n := if count <= |a.bytes| - a.pos then count else |a.bytes| - a.pos;
      (a.(pos := a.pos + n), Data(a.bytes[a.pos..a.pos + n]))
    case Write(data, room) =>
      if !(a.mode.isOpen && a.mode.canWrite) then (a, Count(-1)) else
      var start, k := if a.mode.append then |a.bytes| else a.pos, if room < |data| then room else |data|;
      var bytes := Splice(a.bytes, start, data[..k]);
      (a.(bytes := bytes, pos := start + k, listed := a.listed || bytes != [], stale := a.stale && bytes == []),
       Count(if k < |data| then -1 else k))
    case Seek(ptr, whence) =>
      if !a.mode.isOpen then (a, Count(ptr - 1)) else
      var t := Target(a.pos, |a.bytes|, ptr, whence);
      if 0 <= t <= |a.bytes| then (a.(pos := t), Count(t)) else (a, Count(ptr - 1))
    case Close(saved) =>
      if a.mode.isOpen && saved then (a.(mode := Shut), Count(0)) else (a, Count(-1))
    case Open(read, write, append, trunc) =>
      if !a.listed || (write && a.locked) then (a, Count(-1)) else
      var b := a.(pos := 0, mode := Mode(true, read, write, append));
      (if write && trunc then b.(bytes := [], stale := true) else b, Count(0))
    case Create(_, _, _, _) => (a, Count(-1))
    case Delete =>
      if a.listed then (Absent, Count(0)) else (a, Count(-1))
  }

  /** The answer for a descriptor that is not open. */
  function Refusal(call: Call): Reply {
    Count(if call.Seek? then call.ptr - 1 else -1)
  }

  /** A call on file x of a volume; a file created is the last one, and unknown files are refused. */
  function Move(m: seq<AFile>, x: nat, call: Call): (seq<AFile>, Reply)
    requires forall i :: 0 <= i < |m| ==> m[i].pos <= |m[i].bytes|
  {
    if call.Create? then
      (m + [AFile([], 0, Mode(true, call.read, call.write, call.append), false, call.readOnly, false)], Count(0))
    else if x >= |m| then (m, Refusal(call)) else
    var (a, reply) := Step(m[x], call);
    (m[x := a], reply)
  }

  lemma MoveInRange(m: seq<AFile>, x: nat, call: Call)
    requires forall i :: 0 <= i < |m| ==> m[i].pos <= |m[i].bytes|
    ensures var m' := Move(m, x, call).0; |m| <= |m'| && forall i :: 0 <= i < |m'| ==> m'[i].pos <= |m'[i].bytes|
  {
  }

  // ---------------------------------------------------------------- the concrete file

  function ModeOf(f: Flags): Mode {
    Mode(f.isOpen, f.canRead, f.canWrite, f.append)
  }

  function FlagsOf(m: Mode): Flags {
    Flags(m.isOpen, m.canRead, m.canWrite, m.append, false, false)
  }

  /** The abstract file that a stands for. */
  ghost function Meaning(g: Geometry, d: Disk, a: Handle): (m: AFile)
    requires OpenOk(g, d, a)
    ensures m.pos <= |m.bytes|
  {
    if Dead(a) then Absent else
    InvReadable(g, d, a.f, a.ch, a.dir);
    AFile(Content(g, d, a.f, a.ch, a.dir), a.f.Pos(), ModeOf(a.f.flags), a.f.entrySector != 0 || a.f.size > 0,
          a.f.meta.attributes % 2 == 1, a.f.entrySector != 0 && a.f.sector == 0 && a.f.size == 0)
  }

  /** A file is locked when its attributes have the bit 0x01. */
  lemma ReadOnlyBit(g: Geometry, d: Disk, a: Handle)
    requires OpenOk(g, d, a) && !Dead(a)
    ensures Meaning(g, d, a).locked <==> (a.f.meta.attributes as bv8) & 0x01 != 0
  {
    hide Content, Inv;
    LowBit(a.f.meta.attributes);
  }

  lemma LowBit(b: byte)
    ensures b % 2 == 1 <==> (b as bv8) & 0x01 != 0
  {
  }

  /** The contracts of the driver's methods: what a call does to file a, which then is to be m. */
  ghost predicate Acts(g: Geometry, d: Disk, a: Handle, call: Call, d': Disk, a': Handle, m: AFile)
    requires OpenOk(g, d, a)
  {
    match call
    case Close(saved) =>
      if a.f.flags.isOpen && saved then
        a'.dir == a.dir && a'.f.Pos() == a.f.Pos()
        && Closed(g, d, a.f, a.ch, a.dir, d', a'.f, a'.ch, m.bytes)
      else d' == d && a' == a
    case Open(_, write, _, trunc) =>
      && !a.f.flags.isOpen && !Meaning(g, d, a).stale
      && if !(Meaning(g, d, a).listed && m.mode.isOpen) then d' == d && a' == a
         else if write && trunc then exists b :: Reopens(g, d, a, b, FlagsOf(m.mode)) && Cuts(g, d, b, d', a')
         else d' == d && Reopens(g, d, a, a', FlagsOf(m.mode))
    case Delete =>
      && !a.f.flags.isOpen && !Meaning(g, d, a).stale
      && if Meaning(g, d, a).listed then Dead(a') && Freed(g, d, d', a) else d' == d && a' == a
    case _ =>
      if a.f.flags.isOpen then
        a'.dir == a.dir && Worked(g, d, a.f, a.ch, a.dir, d', a'.f, a'.ch, m.bytes, m.pos)
      else d' == d && a' == a
  }

  /** The contract of OpenSlot: the record comes from the slot of the closed file. */
  ghost predicate Reopens(g: Geometry, d: Disk, a: Handle, a': Handle, mode: Flags) {
    && ValidDisk(d) && a.f.entrySector < |d| && a.f.entryNumber < 16 && g.spc > 0
    && a'.ch == a.ch && a'.f.flags == mode && OpenedAt(g, d, a.f.entrySector, a.f.entryNumber, a'.f)
  }

  /** The contract of Truncate on the record that OpenSlot has loaded. */
  ghost predicate Cuts(g: Geometry, d: Disk, b: Handle, d': Disk, a': Handle) {
    && Inv(g, d', a'.f, [], a'.dir) && a'.ch == [] && !a'.f.IsDir()
    && a'.f.sector == 0 && a'.f.size == 0 && a'.f.Pos() == 0
    && a'.f.entrySector == b.f.entrySector && a'.f.entryNumber == b.f.entryNumber
    && a'.f.meta.attributes == b.f.meta.attributes && a'.f.flags == b.f.flags.(fsDirty := true)
    && HasFat(g, d) && HasFat(g, d') && Table(g, d') == Zeroed(Table(g, d), b.ch)
    && Touched(g, d, d', b.ch, [], b.f.entrySector, b.f.entryNumber)
  }

  /** The contract of Delete. */
  ghost predicate Freed(g: Geometry, d: Disk, d': Disk, a: Handle) {
    && HasFat(g, d) && HasFat(g, d') && Table(g, d') == Zeroed(Table(g, d), a.ch)
    && Touched(g, d, d', a.ch, [], a.f.entrySector, a.f.entryNumber)
  }

  /** The contract of CreateEmpty: b is a new file whose directory lies in no other file's clusters. */
  ghost predicate Newborn(g: Geometry, d: Disk, files: seq<Handle>, call: Call, b: Handle)
    requires call.Create?
  {
    && VolumeOk(g, d) && Track(g, Table(g, d), b.dir) && b.ch == []
    && (forall i :: 0 <= i < |files| ==> Disjoint(b.dir, files[i].ch))
    && |b.f.meta.name| == 11 && |b.f.meta.created| == 5 && InUseMark(b.f.meta.name[0])
    && b.f == NewRecord(b.f.meta.name, if call.readOnly then 0x21 else 0x20,
                        FlagsOf(Mode(true, call.read, call.write, call.append)), b.f.meta.created, b.dir[0])
  }

  // ---------------------------------------------------------------- one call

  /** The disk and the files on it that a run is about. */
  datatype System = System(d: Disk, files: seq<Handle>)

  ghost predicate SystemOk(g: Geometry, s: System) {
    && VolumeOk(g, s.d)
    && (forall i :: 0 <= i < |s.files| ==> OpenOk(g, s.d, s.files[i]))
    && (forall i, j :: 0 <= i < |s.files| && 0 <= j < |s.files| && i != j ==> Apart(g, s.d, s.files[i], s.files[j]))
  }

  /** A call on file x takes the system from s to s' and returns reply. */
  ghost predicate Does(g: Geometry, s: System, x: nat, call: Call, s': System, reply: Reply) {
    if call.Create? then
      && s'.d == s.d && |s'.files| == |s.files| + 1 && s'.files == s.files + [s'.files[|s.files|]]
      && Newborn(g, s.d, s.files, call, s'.files[|s.files|]) && reply == Count(0)
    else if x >= |s.files| then s' == s && reply == Refusal(call)
    else
      && |s'.files| == |s.files| && s' == System(s'.d, s.files[x := s'.files[x]])
      && Takes(g, s.d, s.files[x], call, s'.d, s'.files[x], reply)
  }

  /** A call on file a takes it to a' and answers as the abstract step does. */
  ghost predicate Takes(g: Geometry, d: Disk, a: Handle, call: Call, d': Disk, a': Handle, reply: Reply) {
    && OpenOk(g, d, a)
    && var (m, r) := Step(Meaning(g, d, a), call); reply == r && Acts(g, d, a, call, d', a', m)
  }

  /** Whatever the call, it is work on its file alone, which then is as the abstract step says. */
  lemma ActRefines(g: Geometry, d: Disk, a: Handle, call: Call, d': Disk, a': Handle)
    requires OpenOk(g, d, a) && !call.Create?
    requires Acts(g, d, a, call, d', a', Step(Meaning(g, d, a), call).0)
    ensures Worker(g, d, a, d', a') && OpenOk(g, d', a')
    ensures Meaning(g, d', a') == Step(Meaning(g, d, a), call).0
  {
    hide Worker, OpenOk, Worked, Closed, Touched, Splice, Meaning, Reopens, Cuts, Freed, Target;
    var m := Step(Meaning(g, d, a), call).0;
    MeaningMode(g, d, a);
    Idle(g, d, a);
    match call
    case Close(saved) => if a.f.flags.isOpen && saved { CloseRefines(g, d, a, d', a', m.bytes); }
    case Open(_, write, _, trunc) =>
      if Meaning(g, d, a).listed && m.mode.isOpen {
        if write && trunc {
          var b :| Reopens(g, d, a, b, FlagsOf(m.mode)) && Cuts(g, d, b, d', a');
          TruncRefines(g, d, a, b, d', a', m.mode);
        } else {
          OpenRefines(g, d, a, a', m.mode);
        }
      }
    case Delete => if Meaning(g, d, a).listed { DeleteRefines(g, d, a, d', a'); }
    case _ => if a.f.flags.isOpen { WorkRefines(g, d, a, d', a', m.bytes, m.pos); }
  }

  /** The mode of the abstract file is that of the record; it is listed when it has a byte. */
  lemma MeaningMode(g: Geometry, d: Disk, a: Handle)
    requires OpenOk(g, d, a)
    ensures Meaning(g, d, a).mode.isOpen == a.f.flags.isOpen
    ensures Meaning(g, d, a).bytes != [] ==> Meaning(g, d, a).listed
    ensures Meaning(g, d, a).listed ==> Live(g, d, a)
    ensures Meaning(g, d, a).stale ==> Meaning(g, d, a).bytes == []
  {
    hide Inv, Content;
    if Live(g, d, a) { ContentSize(g, d, a); }
  }

  lemma ContentSize(g: Geometry, d: Disk, a: Handle)
    requires Live(g, d, a)
    ensures VolumeOk(g, d) && |Content(g, d, a.f, a.ch, a.dir)| == a.f.size
  {
  }

  lemma Idle(g: Geometry, d: Disk, a: Handle)
    requires OpenOk(g, d, a)
    ensures Worker(g, d, a, d, a)
  {
    TouchedNothing(g, d, a.ch, a.f.entrySector, a.f.entryNumber);
    hide Content, Table, Touched, Placed, Unplaced;
  }

  /** Reading, writing and seeking. */
  lemma WorkRefines(g: Geometry, d: Disk, a: Handle, d': Disk, a': Handle, c: seq<byte>, pos: nat)
    requires OpenOk(g, d, a) && a.f.flags.isOpen && a'.dir == a.dir
    requires Worked(g, d, a.f, a.ch, a.dir, d', a'.f, a'.ch, c, pos)
    ensures Worker(g, d, a, d', a') && Live(g, d', a') && OpenOk(g, d', a')
    ensures var m := Meaning(g, d, a);
      Meaning(g, d', a') == m.(bytes := c, pos := pos, listed := m.listed || c != [], stale := m.stale && c == [])
  {
    WorkLive(g, d, a, d', a', c, pos);
    FrameTouched(g, d, d', a.ch, a'.ch, a'.f.entrySector, a'.f.entryNumber);
    WorkSlot(g, d, a, d', a', c, pos);
    ContentSize(g, d, a);
    ContentSize(g, d', a');
    hide Inv, Content, Frame, Quiet, Table, SlotFound, VolumeOk, OnlySlot, Gained;
  }

  lemma WorkLive(g: Geometry, d: Disk, a: Handle, d': Disk, a': Handle, c: seq<byte>, pos: nat)
    requires OpenOk(g, d, a) && a.f.flags.isOpen && a'.dir == a.dir
    requires Worked(g, d, a.f, a.ch, a.dir, d', a'.f, a'.ch, c, pos)
    ensures Live(g, d, a) && Live(g, d', a') && VolumeOk(g, d) && VolumeOk(g, d')
    ensures Frame(g, d, d', a.ch, a'.ch, a'.f.entrySector, a'.f.entryNumber)
  {
    hide Content, Frame, Table, Placed, Unplaced, SlotFound;
  }

  /** The slot of a file after work on it is the one it had, or an empty one of its directory. */
  lemma WorkSlot(g: Geometry, d: Disk, a: Handle, d': Disk, a': Handle, c: seq<byte>, pos: nat)
    requires Live(g, d, a) && a'.dir == a.dir
    requires Worked(g, d, a.f, a.ch, a.dir, d', a'.f, a'.ch, c, pos)
    ensures VolumeOk(g, d)
    ensures a'.f.entrySector != 0 ==> Quiet(g, Table(g, d), a.ch, a'.f.entrySector)
    ensures a.f.entrySector != 0 ==>
      a'.f.entrySector == a.f.entrySector && a'.f.entryNumber == a.f.entryNumber
    ensures a.f.entrySector == 0 && a'.f.entrySector != 0 ==>
      Gained(g, d, a, a'.f.entrySector, a'.f.entryNumber)
  {
    hide Content, Frame, Table, Placed, Quiet, Titled, Synced;
    if a.f.entrySector == 0 && a'.f.entrySector != 0 {
      var i :| RoomAt(g, d, a.dir, i, a'.f.entryNumber) && SectorOf(g, a.dir, i) == a'.f.entrySector;
      RoomIsSlot(g, d, a.dir, i, a'.f.entryNumber, a.ch);
    }
  }

  /** Closing: the last work on the file, whose record is then shut. */
  lemma CloseRefines(g: Geometry, d: Disk, a: Handle, d': Disk, a': Handle, c: seq<byte>)
    requires OpenOk(g, d, a) && a.f.flags.isOpen && a'.dir == a.dir && c == Meaning(g, d, a).bytes
    requires Closed(g, d, a.f, a.ch, a.dir, d', a'.f, a'.ch, c) && a'.f.Pos() == a.f.Pos()
    ensures Worker(g, d, a, d', a') && OpenOk(g, d', a')
    ensures Meaning(g, d', a') == Meaning(g, d, a).(mode := Shut)
  {
    hide OpenOk, Worked, Live, Touched, Quiet, Gained, Content, Inv, OnDisk;
    var u := a'.(f := Unclosed(a'.f, a.f));
    MeaningMode(g, d, a);
    WorkRefines(g, d, a, d', u, c, a'.f.Pos());
    ShutFile(g, d', u, a');
    assert SlotUsed(a, u) == SlotUsed(a, a');
  }

  lemma ShutFile(g: Geometry, d: Disk, u: Handle, a: Handle)
    requires OpenOk(g, d, u) && Live(g, d, u) && !u.f.flags.dirty && (u.f.sector != 0 ==> !u.f.flags.fsDirty)
    requires a == u.(f := u.f.(flags := Flags(false, false, false, false, false, false)))
    ensures OpenOk(g, d, a) && Live(g, d, a) && Meaning(g, d, u).mode.isOpen == u.f.flags.isOpen
    ensures u.f.flags.isOpen ==> Meaning(g, d, a) == Meaning(g, d, u).(mode := Shut)
  {
    ShutInv(g, d, u, a);
    hide Inv, Content;
    SameShut(g, d, u, a);
  }

  lemma ShutInv(g: Geometry, d: Disk, u: Handle, a: Handle)
    requires Live(g, d, u) && !u.f.flags.dirty && (u.f.sector != 0 ==> !u.f.flags.fsDirty)
    requires a == u.(f := u.f.(flags := Flags(false, false, false, false, false, false)))
    ensures Live(g, d, a) && VolumeOk(g, d)
  {
    hide Table, IsChain, Quiet, SectorOf, ClusterOf, LeftAt, Sectors, SlotFirst, SlotSize, Track;
  }

  lemma SameShut(g: Geometry, d: Disk, u: Handle, a: Handle)
    requires Live(g, d, u) && Live(g, d, a) && !u.f.flags.dirty
    requires a == u.(f := u.f.(flags := Flags(false, false, false, false, false, false)))
    ensures Content(g, d, a.f, a.ch, a.dir) == Content(g, d, u.f, u.ch, u.dir)
  {
    InvReadable(g, d, u.f, u.ch, u.dir);
    InvReadable(g, d, a.f, a.ch, a.dir);
    hide Inv, Content, SectorOf, Sectors;
    SameContent(g, d, u.f, u.ch, u.dir, d, a.f, a.ch, a.dir);
  }

  /** A closed file that is listed is on disk. */
  lemma ShutOnDisk(g: Geometry, d: Disk, a: Handle)
    requires OpenOk(g, d, a) && !a.f.flags.isOpen && Meaning(g, d, a).listed && !Meaning(g, d, a).stale
    ensures Live(g, d, a) && a.f.sector != 0 && a.f.entrySector != 0
    ensures OnDisk(g, d, a.f.entrySector, a.f.entryNumber, a.ch, Meaning(g, d, a).bytes)
    ensures ValidDisk(d) && a.f.entrySector < |d| && a.f.entryNumber < 16
    ensures SlotAttributes(d[a.f.entrySector], a.f.entryNumber) == a.f.meta.attributes
  {
    ShutSynced(g, d, a);
    hide Inv, OnDisk;
    ClosedOnDisk(g, d, a.f, a.ch, a.dir);
  }

  lemma ShutSynced(g: Geometry, d: Disk, a: Handle)
    requires OpenOk(g, d, a) && !a.f.flags.isOpen && Meaning(g, d, a).listed && !Meaning(g, d, a).stale
    ensures Live(g, d, a) && a.f.sector != 0 && a.f.entrySector != 0 && !a.f.flags.dirty && VolumeOk(g, d)
    ensures Synced(g, d, a.f)
  {
    hide Content, Table, Quiet, IsChain, SlotFirst, SlotSize;
  }

  /** Opening a closed file that is listed. */
  lemma OpenRefines(g: Geometry, d: Disk, a: Handle, a': Handle, mode: Mode)
    requires OpenOk(g, d, a) && !a.f.flags.isOpen && Meaning(g, d, a).listed && !Meaning(g, d, a).stale && mode.isOpen
    requires Reopens(g, d, a, a', FlagsOf(mode))
    ensures Worker(g, d, a, d, a') && OpenOk(g, d, a')
    ensures Meaning(g, d, a') == Meaning(g, d, a).(pos := 0, mode := mode)
  {
    hide Content, Inv, OnDisk, Touched, SlotFirst, SlotSize, Table, Gained, Quiet;
    ShutOnDisk(g, d, a);
    var (es, en, c) := (a.f.entrySector, a.f.entryNumber, Meaning(g, d, a).bytes);
    OpenedInv(g, d, es, en, a.ch, c, a'.f, a'.dir);
    SlotOfLive(g, d, a);
    OpenedSectors(g, d, a', c);
    TouchedNothing(g, d, a.ch, es, en);
  }

  /** Opening it with truncation. */
  lemma TruncRefines(g: Geometry, d: Disk, a: Handle, b: Handle, d': Disk, a': Handle, mode: Mode)
    requires OpenOk(g, d, a) && !a.f.flags.isOpen && Meaning(g, d, a).listed && !Meaning(g, d, a).stale && mode.isOpen
    requires Reopens(g, d, a, b, FlagsOf(mode)) && Cuts(g, d, b, d', a')
    ensures Worker(g, d, a, d', a') && OpenOk(g, d', a')
    ensures Meaning(g, d', a') == Meaning(g, d, a).(bytes := [], pos := 0, mode := mode, stale := true)
  {
    hide Content, Inv, OnDisk, SlotFirst, SlotSize, Table, Gained, Quiet, Others, OnlySlot, VolumeOk, Wrap32;
    ShutOnDisk(g, d, a);
    SlotOfLive(g, d, a);
    CutContent(g, d', a');
    CutVolume(g, d, b, d', a');
  }

  lemma CutContent(g: Geometry, d: Disk, a: Handle)
    requires Inv(g, d, a.f, [], a.dir) && a.ch == [] && !a.f.IsDir() && a.f.size == 0
    ensures Content(g, d, a.f, a.ch, a.dir) == []
  {
  }

  lemma CutVolume(g: Geometry, d: Disk, b: Handle, d': Disk, a': Handle)
    requires Cuts(g, d, b, d', a')
    ensures VolumeOk(g, d) && VolumeOk(g, d')
  {
  }

  lemma SlotOfLive(g: Geometry, d: Disk, a: Handle)
    requires Live(g, d, a) && a.f.entrySector != 0
    ensures VolumeOk(g, d) && Quiet(g, Table(g, d), a.ch, a.f.entrySector)
  {
  }

  lemma OpenedSectors(g: Geometry, d: Disk, a: Handle, c: seq<byte>)
    requires OnDisk(g, d, a.f.entrySector, a.f.entryNumber, a.ch, c) && Inv(g, d, a.f, a.ch, a.dir)
    ensures a.f.sector != 0 && a.f.entrySector != 0
  {
  }

  /** Deleting a closed file that is listed. */
  lemma DeleteRefines(g: Geometry, d: Disk, a: Handle, d': Disk, a': Handle)
    requires OpenOk(g, d, a) && !a.f.flags.isOpen && Meaning(g, d, a).listed && !Meaning(g, d, a).stale
    requires Dead(a') && Freed(g, d, d', a)
    ensures Worker(g, d, a, d', a') && OpenOk(g, d', a') && Meaning(g, d', a') == Absent
  {
    ShutOnDisk(g, d, a);
    SlotOfLive(g, d, a);
    hide Content, Inv, OnDisk, Table, Gained, Quiet, Others;
  }

  /** A new file is apart from all others. */
  lemma CreateRefines(g: Geometry, s: System, call: Call, b: Handle)
    requires SystemOk(g, s) && call.Create? && Newborn(g, s.d, s.files, call, b)
    ensures OpenOk(g, s.d, b)
    ensures Meaning(g, s.d, b)
         == AFile([], 0, Mode(true, call.read, call.write, call.append), false, call.readOnly, false)
    ensures forall i :: 0 <= i < |s.files| ==> Apart(g, s.d, b, s.files[i]) && Apart(g, s.d, s.files[i], b)
  {
    NewFileInv(g, s.d, b.f, b.dir);
    hide Inv, Content;
    forall i | 0 <= i < |s.files| ensures Apart(g, s.d, b, s.files[i]) && Apart(g, s.d, s.files[i], b) {
      assert Disjoint(b.dir, s.files[i].ch);
      NewApart(g, s.d, b, s.files[i]);
    }
  }

  lemma NewApart(g: Geometry, d: Disk, b: Handle, o: Handle)
    requires VolumeOk(g, d) && OpenOk(g, d, o) && b.ch == [] && b.f.entrySector == 0 && Disjoint(b.dir, o.ch)
    ensures Apart(g, d, b, o) && Apart(g, d, o, b)
  {
    hide Table;
    ClustersInUse(g, d, o);
  }

  // ---------------------------------------------------------------- the whole system

  /** Work on one file: the others keep their records, bytes and positions, and all are still apart. */
  lemma OthersKept(g: Geometry, s: System, x: nat, d': Disk, a': Handle)
    requires SystemOk(g, s) && x < |s.files| && Worker(g, s.d, s.files[x], d', a') && OpenOk(g, d', a')
    ensures SystemOk(g, System(d', s.files[x := a']))
    ensures forall j :: 0 <= j < |s.files| && j != x ==>
      OpenOk(g, d', s.files[j]) && Meaning(g, d', s.files[j]) == Meaning(g, s.d, s.files[j])
  {
    hide OpenOk, Apart, Worker, Meaning;
    WorkerVolume(g, s.d, s.files[x], d', a');
    var files := s.files[x := a'];
    forall j | 0 <= j < |s.files| && j != x
      ensures OpenOk(g, d', s.files[j]) && Meaning(g, d', s.files[j]) == Meaning(g, s.d, s.files[j])
      ensures Apart(g, d', a', s.files[j]) && Apart(g, d', s.files[j], a')
    {
      OtherKept(g, s.d, s.files[x], d', a', s.files[j]);
    }
    forall i, j | 0 <= i < |files| && 0 <= j < |files| && i != j ensures Apart(g, d', files[i], files[j]) {
      if i != x && j != x { StillApart(g, s.d, s.files[x], d', a', s.files[i], s.files[j]); }
    }
  }

  lemma WorkerVolume(g: Geometry, d: Disk, a: Handle, d': Disk, a': Handle)
    requires Worker(g, d, a, d', a')
    ensures VolumeOk(g, d')
  {
  }

  lemma OtherKept(g: Geometry, d: Disk, a: Handle, d': Disk, a': Handle, b: Handle)
    requires Worker(g, d, a, d', a') && OpenOk(g, d, a) && OpenOk(g, d, b) && Apart(g, d, a, b)
    ensures OpenOk(g, d', b) && Meaning(g, d', b) == Meaning(g, d, b)
    ensures Apart(g, d', a', b) && Apart(g, d', b, a')
  {
    ApartLater(g, d, a, d', a', b);
    WorkerClear(g, d, a, d', a', b);
    WorkerVolume(g, d, a, d', a');
    hide Clear, Quiet, Inv, Content, Others, VolumeOk, OnlySlot, Gained, Table;
    var (es, en) := SlotUsed(a, a');
    if Live(g, d, b) {
      Bystander(g, d, d', a.ch, a'.ch, es, en, b);
    }
  }

  /** The abstract files of a system. */
  ghost function Meanings(g: Geometry, s: System): (m: seq<AFile>)
    requires SystemOk(g, s)
    ensures |m| == |s.files|
    ensures forall i :: 0 <= i < |m| ==> m[i] == Meaning(g, s.d, s.files[i]) && m[i].pos <= |m[i].bytes|
  {
    seq(|s.files|, i requires 0 <= i < |s.files| => Meaning(g, s.d, s.files[i]))
  }

  /** One call: its own file takes the abstract step, all others keep their bytes, positions and modes. */
  lemma CallRefines(g: Geometry, s: System, x: nat, call: Call, s': System, reply: Reply)
    requires SystemOk(g, s) && Does(g, s, x, call, s', reply)
    ensures SystemOk(g, s') && (Meanings(g, s'), reply) == Move(Meanings(g, s), x, call)
  {
    hide OpenOk, Apart, Worker, Step, Meaning, Acts, Newborn;
    if call.Create? {
      var b := s'.files[|s.files|];
      CreateRefines(g, s, call, b);
      assert s' == System(s.d, s.files + [b]);
      assert SystemOk(g, s');
      assert Meanings(g, s') == Meanings(g, s) + [Meaning(g, s.d, b)];
    } else if x < |s.files| {
      ActRefines(g, s.d, s.files[x], call, s'.d, s'.files[x]);
      OthersKept(g, s, x, s'.d, s'.files[x]);
      assert Meanings(g, s') == Meanings(g, s)[x := Step(Meaning(g, s.d, s.files[x]), call).0];
    }
  }

  // ---------------------------------------------------------------- runs

  /** The abstract run: every call moves its own file and no other. */
  function Run(m: seq<AFile>, calls: seq<(nat, Call)>): (r: (seq<AFile>, seq<Reply>))
    requires forall i :: 0 <= i < |m| ==> m[i].pos <= |m[i].bytes|
    ensures |r.1| == |calls| && forall i :: 0 <= i < |r.0| ==> r.0[i].pos <= |r.0[i].bytes|
  {
    if calls == [] then (m, []) else
    var n := |calls| - 1;
    var (m1, replies) := Run(m, calls[..n]);
    MoveInRange(m1, calls[n].0, calls[n].1);
    var (m2, reply) := Move(m1, calls[n].0, calls[n].1);
    (m2, replies + [reply])
  }

  /** A run of the driver: consecutive states are linked by calls. */
  ghost predicate IsRun(g: Geometry, states: seq<System>, calls: seq<(nat, Call)>, replies: seq<Reply>) {
    && |states| == |calls| + 1 && |replies| == |calls|
    && forall k :: 0 <= k < |calls| ==> Does(g, states[k], calls[k].0, calls[k].1, states[k + 1], replies[k])
  }

  /**
   Every run of the driver, on any number of files that are created, opened, read, written, positioned,
   closed and deleted in any order, is a run of independent abstract files: same replies, same final
   bytes, positions and modes, invariant kept.
   */
  lemma {:induction false} RunRefines(g: Geometry, states: seq<System>, calls: seq<(nat, Call)>, replies: seq<Reply>)
    requires IsRun(g, states, calls, replies) && SystemOk(g, states[0])
    ensures SystemOk(g, states[|calls|])
    ensures Run(Meanings(g, states[0]), calls) == (Meanings(g, states[|calls|]), replies)
    decreases |calls|
  {
    hide SystemOk, Does, Move, Meaning, OpenOk;
    if calls == [] {
    } else {
      var n := |calls| - 1;
      assert IsRun(g, states[..n + 1], calls[..n], replies[..n]);
      RunRefines(g, states[..n + 1], calls[..n], replies[..n]);
      CallRefines(g, states[n], calls[n].0, calls[n].1, states[n + 1], replies[n]);
      assert replies == replies[..n] + [replies[n]];
    }
  }

  // ---------------------------------------------------------------- the heap over runs

  ghost function ChainsOf(files: seq<Handle>): (c: seq<seq<nat>>)
    ensures |c| == |files| && forall i :: 0 <= i < |c| ==> c[i] == files[i].ch
  {
    seq(|files|, i requires 0 <= i < |files| => files[i].ch)
  }

  /** The chains of all other files and those of the files of the run make up the clusters in use. */
  ghost predicate HeapOk(g: Geometry, s: System, others: seq<seq<nat>>) {
    HasFat(g, s.d) && Heap(Table(g, s.d), g.EndMarker(), g.limit, others + ChainsOf(s.files))
  }

  /** The chain of a file has grown, has been freed, or is as it was. */
  ghost predicate ChainStep(g: Geometry, d: Disk, a: Handle, d': Disk, a': Handle) {
    && HasFat(g, d) && HasFat(g, d') && NoneOrChain(Table(g, d'), g.EndMarker(), g.limit, a'.ch)
    && (Grew(Table(g, d), Table(g, d'), a.ch, a'.ch)
        || (Table(g, d') == Zeroed(Table(g, d), a.ch) && a'.ch == []))
  }

  lemma OpenChain(g: Geometry, d: Disk, a: Handle)
    requires OpenOk(g, d, a)
    ensures HasFat(g, d) && NoneOrChain(Table(g, d), g.EndMarker(), g.limit, a.ch)
  {
  }

  lemma FrameGrew(g: Geometry, d: Disk, d': Disk, ch: seq<nat>, ch': seq<nat>, es: nat, en: nat)
    requires Frame(g, d, d', ch, ch', es, en)
    ensures HasFat(g, d) && HasFat(g, d') && Grew(Table(g, d), Table(g, d'), ch, ch')
  {
  }

  lemma WorkedFrame(g: Geometry, d: Disk, a: Handle, d': Disk, f: Desc, ch: seq<nat>, c: seq<byte>, pos: nat)
    requires Worked(g, d, a.f, a.ch, a.dir, d', f, ch, c, pos)
    ensures Frame(g, d, d', a.ch, ch, f.entrySector, f.entryNumber)
  {
  }

  lemma ActChain(g: Geometry, d: Disk, a: Handle, call: Call, d': Disk, a': Handle)
    requires OpenOk(g, d, a) && OpenOk(g, d', a') && !call.Create?
    requires Acts(g, d, a, call, d', a', Step(Meaning(g, d, a), call).0)
    ensures ChainStep(g, d, a, d', a')
  {
    hide OpenOk, Worked, Step, Meaning, Touched, Table, Grew, NoneOrChain, OpenedAt, OnDisk, Frame, Inv;
    var m := Step(Meaning(g, d, a), call).0;
    OpenChain(g, d, a);
    OpenChain(g, d', a');
    GrewRefl(Table(g, d), a.ch);
    match call
    case Close(saved) =>
      if a.f.flags.isOpen && saved {
        var u := Unclosed(a'.f, a.f);
        WorkedFrame(g, d, a, d', u, a'.ch, m.bytes, a'.f.Pos());
        FrameGrew(g, d, d', a.ch, a'.ch, u.entrySector, u.entryNumber);
      }
    case Open(_, _, _, _) =>
    case Delete => assert Dead(a') || a' == a;
    case _ =>
      if a.f.flags.isOpen {
        WorkedFrame(g, d, a, d', a'.f, a'.ch, m.bytes, m.pos);
        FrameGrew(g, d, d', a.ch, a'.ch, a'.f.entrySector, a'.f.entryNumber);
      }
  }

  lemma ChainStepKeepsHeap(g: Geometry, s: System, x: nat, s': System, others: seq<seq<nat>>)
    requires x < |s.files| == |s'.files| && s'.files == s.files[x := s'.files[x]] && HeapOk(g, s, others)
    requires ChainStep(g, s.d, s.files[x], s'.d, s'.files[x])
    ensures HeapOk(g, s', others)
  {
    hide Heap, Grew, Table, NoneOrChain;
    var chains, ch' := others + ChainsOf(s.files), s'.files[x].ch;
    assert chains[|others| + x := ch'] == others + ChainsOf(s'.files);
    if Grew(Table(g, s.d), Table(g, s'.d), s.files[x].ch, ch') {
      GrowthKeepsHeap(Table(g, s.d), Table(g, s'.d), g.EndMarker(), g.limit, chains, |others| + x, ch');
    } else {
      FreeKeepsHeap(Table(g, s.d), g.EndMarker(), g.limit, chains, |others| + x);
    }
  }

  /** A call shares no cluster between files and loses none. */
  lemma CallKeepsHeap(g: Geometry, s: System, x: nat, call: Call, s': System, reply: Reply, others: seq<seq<nat>>)
    requires SystemOk(g, s) && SystemOk(g, s') && Does(g, s, x, call, s', reply) && HeapOk(g, s, others)
    ensures HeapOk(g, s', others)
  {
    hide OpenOk, Apart, Step, Meaning, Heap, Table, Acts, Newborn, ChainStep;
    if call.Create? {
      NewChain(g, s, call, s');
      NewFileKeepsHeap(Table(g, s.d), g.EndMarker(), g.limit, others + ChainsOf(s.files));
      assert others + ChainsOf(s.files) + [[]] == others + ChainsOf(s'.files);
    } else if x < |s.files| {
      ActChain(g, s.d, s.files[x], call, s'.d, s'.files[x]);
      ChainStepKeepsHeap(g, s, x, s', others);
    }
  }

  lemma NewChain(g: Geometry, s: System, call: Call, s': System)
    requires call.Create? && |s'.files| == |s.files| + 1 && Newborn(g, s.d, s.files, call, s'.files[|s.files|])
    ensures s'.files[|s.files|].ch == []
  {
  }

  /** Over every run the clusters in use stay those of disjoint chains, one for each file. */
  lemma {:induction false} RunKeepsHeap(g: Geometry, states: seq<System>, calls: seq<(nat, Call)>, replies: seq<Reply>,
                                        others: seq<seq<nat>>)
    requires IsRun(g, states, calls, replies) && SystemOk(g, states[0]) && HeapOk(g, states[0], others)
    ensures HeapOk(g, states[|calls|], others)
    decreases |calls|
  {
    hide SystemOk, Does, HeapOk;
    if calls != [] {
      var n := |calls| - 1;
      assert IsRun(g, states[..n + 1], calls[..n], replies[..n]);
      RunKeepsHeap(g, states[..n + 1], calls[..n], replies[..n], others);
      RunRefines(g, states[..n + 1], calls[..n], replies[..n]);
      CallRefines(g, states[n], calls[n].0, calls[n].1, states[n + 1], replies[n]);
      CallKeepsHeap(g, states[n], calls[n].0, calls[n].1, states[n + 1], replies[n], others);
    }
  }
}
