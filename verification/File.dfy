/** An open file: the write-back sector buffer and the methods that move it over the disk. */
module File {
  import opened Bytes
  import opened Chains
  import opened Division
  import opened Layout
  import opened RawFat
  import opened Tracks
  import opened Allocator
  import opened FileSpec
  import opened FileSteps
  import opened FileBytes
  import opened FileView
  import opened FileSeek
  import opened FileStore

  const FAT_ERROR_CLUSTER := 1
  const FAT_END_OF_FILE := 2

  class FileS {
    const fs: FatInfo
    const buffer: array<byte>

    var flags: Flags
    var sector: nat
    var cluster: nat
    var sectorsLeft: nat
    var cursor: nat
    var fileSector: nat
    var error: int
    var size: nat
    var first: nat          // full_first_cluster
    var entrySector: nat
    var entryNumber: nat
    var parent: nat         // parent_cluster
    var meta: Meta

    ghost var chain: seq<nat>   // the clusters of the file
    ghost var dir: seq<nat>     // the parent directory, while the file has no entry

    constructor (fs: FatInfo)
      ensures this.fs == fs && fresh(buffer) && buffer.Length == 512
    {
      this.fs := fs;
      buffer := new byte[512];
      flags := Flags(false, false, false, false, false, false);
      sector, cluster, sectorsLeft, cursor, fileSector, error := 0, 0, 0, 0, 0, 0;
      size, first, entrySector, entryNumber, parent := 0, 0, 0, 0, 0;
      meta := Meta([], 0, [], [], []);
      chain, dir := [], [];
    }

    /** The value of the record. */
    ghost function Snap(): Desc
      reads this, buffer
    {
      Desc(flags, buffer[..], sector, cluster, sectorsLeft, cursor, fileSector,
           size, first, entrySector, entryNumber, parent, meta)
    }

    ghost function Disk(): Disk
      reads fs.dev
    {
      fs.dev.disk
    }

    /** The buffers are distinct and the volume is well formed. */
    ghost predicate Ready()
      reads fs, fs.dev
    {
      && buffer.Length == 512 && buffer != fs.sysbuf
      && fs.Ready() && VolumeOk(fs.g, fs.dev.disk)
    }

    ghost predicate Ok()
      reads this, buffer, fs, fs.dev
    {
      Ready() && Inv(fs.g, fs.dev.disk, Snap(), chain, dir) && Roomy(fs.g, fs.dev.disk, Snap(), dir)
    }

    /** What the record acts as: itself, but for a reader that rests behind its last cluster. */
    ghost function Viewed(): Desc
      reads this, buffer
    {
      View(fs.g, Snap(), chain)
    }

    /** A reader that rests behind its last cluster. */
    ghost predicate Rests()
      reads this, buffer, fs, fs.dev
    {
      Ready() && Resting(fs.g, fs.dev.disk, Snap(), chain) && Inv(fs.g, fs.dev.disk, Viewed(), chain, dir)
    }

    /** The record stands for a file: it meets the invariant, or is that of a resting reader. */
    ghost predicate Sound()
      reads this, buffer, fs, fs.dev
    {
      Ready() && Inv(fs.g, fs.dev.disk, Viewed(), chain, dir) && (Ok() || Rests())
    }

    /** Goes to the first sector of a cluster; cluster 1 stands for the fixed root directory. */
    method SelectCluster(c: nat) returns (err: bool)
      requires buffer.Length == 512 && fs.dev.Valid() && fs.g.spc > 0
      modifies this`sector, this`sectorsLeft, this`cluster, this`cursor, buffer
      ensures sector == if c == 1 then fs.g.rootStart else Wrap32(Wrap32(c * fs.g.spc) + fs.g.cluster0)
      ensures sectorsLeft == if c == 1 then fs.g.rootLen else fs.g.spc - 1
      ensures cluster == c && cursor == 0
      ensures err <==> sector >= |fs.dev.disk|
      ensures !err ==> buffer[..] == fs.dev.disk[sector]
    {
      if c == 1 {
        // an edge case for the fixed root directory on FAT16
        sector := fs.g.rootStart;
        sectorsLeft := fs.g.rootLen;
        cluster := 1;
        cursor := 0;
      } else {
        sector := Wrap32(Wrap32(c * fs.g.spc) + fs.g.cluster0);
        sectorsLeft := fs.g.spc - 1;
        cluster := c;
        cursor := 0;
      }
      err := fs.dev.BlockRead(sector, buffer);
    }

    /** Writes a dirty buffer to its sector, the file's own or not; a file without a cluster gets its first one. */
    method Flush() returns (err: bool)
      requires Ready() && (flags.dirty ==> Ok() || sector != 0)
      modifies this, buffer, fs.sysbuf, fs.dev
      ensures dir == old(dir) && (old(flags.dirty ==> Ok()) ==> Ready())
      ensures old(flags.dirty && !Ok()) ==>
        && (err <==> old(sector) >= |old(Disk())|)
        && (if err then Snap() == old(Snap()) && Disk() == old(Disk())
            else Snap() == old(Snap()).Clean() && Disk() == old(Disk())[old(sector) := buffer[..]])
      ensures !old(flags.dirty) ==>
        !err && Snap() == old(Snap()) && Disk() == old(Disk()) && chain == old(chain) && dir == old(dir)
      ensures old(flags.dirty && Ok()) ==>
        && Kept(fs.g, old(Disk()), old(Snap()), old(chain), old(dir), Disk(), Snap(), chain, dir)
        && cursor == old(cursor) && fileSector == old(fileSector) && (err <==> flags.dirty)
      ensures old(flags.dirty && sector != 0 && Ok()) ==>
        && !err && chain == old(chain) && Snap() == old(Snap()).Clean()
        && Table(fs.g, Disk()) == Table(fs.g, old(Disk()))
        && sector < |Disk()| && Disk()[sector] == buffer[..]
      ensures old(flags.dirty && sector == 0) ==> (err <==> Full(Table(fs.g, old(Disk()))))
      ensures old(flags.dirty && sector == 0) ==>
        if err then Snap() == old(Snap()) && Disk() == old(Disk()) && chain == old(chain)
        else FirstPlaced(fs.g, old(Disk()), Disk(), Snap(), chain)
      decreases if flags.dirty then 1 else 0, 0, 1
    {
      hide VolumeOk, Table, HasSlot, HasRoom, Inv, Kept, Content, Full, Frame, ValidDisk, FirstPlaced, Synced, Quiet,
        Roomy;
      if flags.dirty {
        if sector == 0 {
          err := PlaceFirst();
          if err {
            return true;
          }
        } else {
          if Ok() {
            FlushPlaced(fs.g, Disk(), Snap(), chain, dir);
          }
          err := fs.dev.BlockWrite(sector, buffer);
          if err {
            return true;
          }
          flags := flags.(dirty := false);
        }
      }
      return false;
    }

    /** A new file that has never been saved: it gets a cluster, the data is stored, then the entry. */
    method PlaceFirst() returns (err: bool)
      requires Ready() && Ok() && flags.dirty && sector == 0
      modifies this, buffer, fs.sysbuf, fs.dev
      ensures Ready() && dir == old(dir)
      ensures Kept(fs.g, old(Disk()), old(Snap()), old(chain), old(dir), Disk(), Snap(), chain, dir)
      ensures cursor == old(cursor) && fileSector == old(fileSector)
      ensures err <==> flags.dirty
      ensures err <==> Full(Table(fs.g, old(Disk())))
      ensures err ==>
        Snap() == old(Snap()) && Disk() == old(Disk()) && chain == old(chain)
      ensures !err ==> FirstPlaced(fs.g, old(Disk()), Disk(), Snap(), chain)
      decreases 1, 0, 0
    {
      hide VolumeOk, Table, HasSlot, HasRoom, Inv, Kept, Content, Full, LeastFree, Allocated, WithEntry, Saved,
        SlotFields, Wrap32, Frame, ValidDisk, FirstPlaced, Roomy, SlotFound, SearchEnds, SlotWritten, RunsOver,
        TakenRaw, FatRaw;
      ghost var d, f := Disk(), Snap();
      var c := fs.GetFreeCluster();
      Taken(fs.g, d, Disk(), c);
      if c == 0xFFFF_FFFF {
        return true;
      } else if c == 0 {
        KeptRefl(fs.g, d, f, chain, dir);
        return true;
      }
      UnplacedChain(fs.g, d, f, chain, dir);
      FlushNew(fs.g, d, f, dir, c);
      err := StoreFirst(c);
      if err {
        return true;
      }
      ghost var f2 := Snap();
      NotOver(fs.g, Disk(), f2, chain, dir);
      var _ := SaveInfo();
      FlushNewSaved(fs.g, d, f, dir, c, f2, Disk(), Snap());
      return false;
    }

    /** Puts the file on cluster c and writes its buffer there. */
    method StoreFirst(c: nat) returns (err: bool)
      requires Ready() && buffer.Length == 512 && c >= 2 && fs.g.spc > 0
      requires Wrap32(Wrap32(c * fs.g.spc) + fs.g.cluster0) == fs.g.Base(c) && 0 < fs.g.Base(c) < |Disk()|
      modifies this`first, this`sector, this`sectorsLeft, this`cluster, this`flags, this`chain, fs.dev
      ensures !err && fs.Ready()
      ensures Snap() == PlacedAt(fs.g, old(Snap()), c) && chain == [c]
      ensures Disk() == old(Disk())[fs.g.Base(c) := buffer[..]]
    {
      hide VolumeOk, Wrap32, Table;
      first := c;
      sector := Wrap32(Wrap32(c * fs.g.spc) + fs.g.cluster0);
      sectorsLeft := fs.g.spc - 1;
      cluster := c;
      err := fs.dev.BlockWrite(sector, buffer);
      if err {
        return true;
      }
      flags := flags.(fsDirty := true, dirty := false);
      chain := [c];
      return false;
    }

    /**
     Saves the directory entry of the file, through the file's own buffer. When the fixed root is full, the search
     for an empty slot may run over its end: then the 32 bytes go to the first sector behind the root.
     */
    method SaveInfo() returns (err: bool)
      requires Ready() && !flags.dirty
      requires first != 0 ==>
        && first != fs.g.rootCluster && first < fs.g.EntryMax() && size < 0x1_0000_0000
        && SlotFields(Snap()) && sector < |Disk()|
        && (HasSlot(fs.g, Disk(), Snap(), chain) || HasRoom(fs.g, Disk(), Snap(), chain, dir)
            || RunsOver(fs.g, Disk(), Snap(), chain, dir))
      modifies this, buffer, fs.sysbuf, fs.dev
      ensures Ready() && !err
      ensures chain == old(chain) && dir == old(dir)
      ensures first == 0 ==> Snap() == old(Snap()) && Disk() == old(Disk())
      ensures first != 0 ==>
        && sector < |Disk()| == |old(Disk())|
        && Snap() == old(Snap()).(entrySector := entrySector, entryNumber := entryNumber).Stored(Disk()[sector])
        && SlotWritten(old(Disk()), Disk(), Snap())
        && (if old(entrySector) != 0 then entrySector == old(entrySector) && entryNumber == old(entryNumber)
            else SearchEnds(fs.g, old(Disk()), dir, entrySector, entryNumber))
      ensures first != 0 && !RunsOver(fs.g, old(Disk()), old(Snap()), old(chain), old(dir)) ==>
        && Saved(fs.g, old(Disk()), Disk(), Snap(), chain)
        && (old(entrySector) == 0 ==> SlotFound(fs.g, old(Disk()), dir, entrySector, entryNumber))
      ensures first != 0 && RunsOver(fs.g, old(Disk()), old(Snap()), old(chain), old(dir)) ==>
        entrySector == fs.g.rootStart + fs.g.rootLen
      decreases 0, if entrySector == 0 then 1 else 0, if entrySector == 0 then 9 else 2
    {
      if first != 0 {
        SlotOrRoom(fs.g, Disk(), Snap(), chain, dir);
      }
      hide VolumeOk, Table, HasRoom, HasSlot, RunsOver, Saved, SlotFound, SearchEnds, SlotWritten, WithSlot, Frame, Inv,
        Track, Kept, Quiet, SlotFields;
      if first == fs.g.rootCluster {
        return false;
      }
      if entrySector == 0 && !flags.canWrite {
        return false;
      }
      if first == 0 {
        return false;
      }
      err := Flush();
      if err {
        return true;
      }
      ghost var d, f0 := Disk(), Snap();
      if entrySector == 0 {
        // the file has no entry yet: look for an empty slot in the parent directory
        FindSlot();
        SearchPlace(fs.g, d, f0, chain, dir, entrySector, entryNumber);
        if !RunsOver(fs.g, d, f0, chain, dir) {
          FoundIsSlot(fs.g, d, f0, Snap(), chain, dir);
          SlotNumber(fs.g, d, Snap(), chain);
        }
        SameFields(f0, Snap());
      } else {
        NotOver(fs.g, d, f0, chain, dir);
        SlotNumber(fs.g, d, f0, chain);
        err := fs.dev.BlockRead(entrySector, buffer);
        if err {
          return true;
        }
        SlotAnyBuffer(fs.g, d, f0, buffer[..], chain);
      }
      err := StoreSlot();
    }

    /** Stores the entry in the buffered directory sector, writes it and loads the file's own sector again. */
    method StoreSlot() returns (err: bool)
      requires Ready() && !flags.dirty && sector < |Disk()| && SlotFields(Snap())
      requires 0 < entrySector < |Disk()| && entryNumber < 16 && !fs.g.InFat(entrySector)
      requires buffer[..] == Disk()[entrySector]
      requires first < fs.g.EntryMax() && size < 0x1_0000_0000
      modifies this`flags, buffer, fs.dev
      ensures Ready() && !err
      ensures sector < |Disk()| == |old(Disk())|
      ensures Snap() == old(Snap()).Stored(Disk()[sector])
      ensures SlotWritten(old(Disk()), Disk(), Snap())
      ensures HasSlot(fs.g, old(Disk()), old(Snap()), chain) ==> Saved(fs.g, old(Disk()), Disk(), Snap(), chain)
    {
      ghost var d, f := Disk(), Snap();
      hide VolumeOk, Table, HasSlot, Saved, SlotWritten, WithSlot, Frame, SlotFields, ValidDisk;
      var reserved: byte := *;    // the field is never set
      WriteSlot(fs.g, d, f, reserved);
      PutSlot(reserved);
      err := fs.dev.BlockWrite(entrySector, buffer);
      if err {
        return true;
      }
      WrittenAny(d, Disk(), f, Disk()[sector]);
      if HasSlot(fs.g, d, f, chain) {
        SaveSlot(fs.g, d, f, chain, reserved);
        SavedFacts(fs.g, d, Disk(), f, chain, Disk()[sector]);
      }
      err := fs.dev.BlockRead(sector, buffer);
      if err {
        return true;
      }
      flags := flags.(fsDirty := false);
      return false;
    }

    /** Copies the directory entry of the file over its slot in the buffered sector. */
    method PutSlot(reserved: byte)
      requires buffer.Length == 512 && SlotFields(Snap()) && entryNumber < 16
      modifies buffer
      ensures buffer[..] == WithSlot(old(buffer[..]), old(Snap()), reserved)
    {
      ghost var f, b := Snap(), buffer[..];
      SlotParts(f, reserved);
      var de := meta.name + [meta.attributes, reserved] + meta.created + meta.accessed + Bytes16(first / 0x1_0000)
                + meta.modified + Bytes16(first % 0x1_0000) + Bytes32(size);
      assert de == SlotOf(f, reserved);
      hide SlotOf, Bytes16, Bytes32;
      var o := entryNumber * 32;
      forall k | 0 <= k < 32 {
        buffer[o + k] := de[k];
      }
      assert buffer[..] == Patch(b, o, de);
    }

    /** The index of the first empty slot of the buffered sector, or 16. */
    method EmptySlot() returns (n: nat)
      requires buffer.Length == 512
      ensures n == FirstEmpty(buffer[..], 0)
    {
      n := 0;
      while n < 16
        invariant n <= 16 && FirstEmpty(buffer[..], 0) == FirstEmpty(buffer[..], n)
      {
        if buffer[n * 32] == 0 {
          return;
        }
        n := n + 1;
      }
    }

    /** Walks the parent directory to its first empty slot and puts the position back afterwards. */
    method FindSlot()
      requires Ready() && !flags.dirty && entrySector == 0
      requires HasRoom(fs.g, Disk(), Snap(), chain, dir) || RunsOver(fs.g, Disk(), Snap(), chain, dir)
      modifies this, buffer, fs.sysbuf, fs.dev
      ensures Ready() && Disk() == old(Disk()) && chain == old(chain) && dir == old(dir)
      ensures Snap() == old(Snap()).(buffer := buffer[..], entrySector := entrySector, entryNumber := entryNumber)
      ensures SearchEnds(fs.g, Disk(), dir, entrySector, entryNumber)
      ensures entrySector < |Disk()| && buffer[..] == Disk()[entrySector]
      decreases 0, 1, 8
    {
      hide VolumeOk, Table, HasSlot, HasRoom, RunsOver, SearchEnds, ValidDisk, FatInfo.Ready;
      var tempSectorsLeft, tempFileSector := sectorsLeft, fileSector;
      var tempCluster, tempSector, tempCursor := cluster, sector, cursor;
      var n := SearchParent();
      entrySector := sector;
      entryNumber := n;
      sectorsLeft, fileSector := tempSectorsLeft, tempFileSector;
      cluster, sector, cursor := tempCluster, tempSector, tempCursor;
    }

    /** Looks for the first empty slot of the parent directory, sector by sector. */
    method SearchParent() returns (n: nat)
      requires Ready() && !flags.dirty && entrySector == 0
      requires HasRoom(fs.g, Disk(), Snap(), chain, dir) || RunsOver(fs.g, Disk(), Snap(), chain, dir)
      modifies this, buffer, fs.sysbuf, fs.dev
      ensures Ready() && Disk() == old(Disk()) && chain == old(chain) && dir == old(dir)
      ensures Snap() == old(Snap()).(buffer := buffer[..], sector := sector, cluster := cluster,
                                     sectorsLeft := sectorsLeft, fileSector := fileSector, cursor := cursor)
      ensures SearchEnds(fs.g, Disk(), dir, sector, n)
      ensures sector < |Disk()| && buffer[..] == Disk()[sector]
      decreases 0, 1, 7
    {
      hide VolumeOk, Table, HasSlot, HasRoom, RunsOver, Track, RoomAt, RoomFrom, SectorOf, ClusterOf, Sectors, LeftAt,
        Wrap32, Inv, Kept, CanGrow, Spent, Full, SearchEnds, FirstEmpty, At, ValidDisk;
      ghost var d, f := Disk(), Snap();
      ghost var i: nat := 0;
      VolumeSpc(fs.g, d);
      var _ := SelectCluster(parent);
      RoomStart(fs.g, d, Snap(), f, chain, dir);
      n := EmptySlot();
      while n == 16
        invariant Ready() && !flags.dirty && entrySector == 0 && Disk() == d && chain == old(chain) && dir == old(dir)
        invariant Snap() == f.(buffer := buffer[..], sector := sector, cluster := cluster,
                               sectorsLeft := sectorsLeft, fileSector := fileSector, cursor := cursor)
        invariant At(fs.g, Snap(), dir, i) && sector < |d| && buffer[..] == d[sector]
        invariant n == FirstEmpty(buffer[..], 0)
        invariant RoomFrom(fs.g, d, dir, i)
        decreases Sectors(fs.g, dir) - i
      {
        RoomAhead(fs.g, d, Snap(), dir, i);
        var _ := NextSector(dir, i, false);
        i := i + 1;
        n := EmptySlot();
      }
      RoomHere(fs.g, d, Snap(), dir, i, n);
    }

    /** The buffer holds the FAT sector with the entry of the cluster. */
    ghost predicate ShowsFat()
      reads this, buffer, fs, fs.dev
    {
      FatShown(fs.g, Disk(), Snap())
    }

    /** The cluster behind the current one; a writable file is extended at its end. -1 when there is none. */
    method NextCluster(ghost walk: seq<nat>, ghost j: nat, ghost c0: nat, ghost own: bool) returns (r: int)
      requires Ready()
      requires !flags.dirty ==>
        && Track(fs.g, Table(fs.g, Disk()), walk) && j < |walk| && cluster == walk[j]
        && (own ==> walk == chain && 0 < sector < |Disk()| && Inv(fs.g, Disk(), Parked(Disk(), Snap(), c0), chain, dir))
        && (own && IsDirectory() && flags.canWrite ==> j + 1 < |walk|)
        && (!own ==> j + 1 < |walk|)
      requires flags.dirty ==> Ok() && NoRoom(fs.g, Disk(), Snap())
      modifies this, buffer, fs.sysbuf, fs.dev
      ensures Ready() && dir == old(dir) && (r == -1 || r >= 2)
      ensures old(flags.dirty) ==>
        r == -1 && Snap() == old(Snap()) && Disk() == old(Disk()) && chain == old(chain)
      ensures !old(flags.dirty) && (j + 1 < |walk| || !CanGrow(fs.g, Table(fs.g, old(Disk())), old(Snap()), walk)) ==>
        && r == (if j + 1 < |walk| then walk[j + 1] else -1)
        && (j + 1 < |walk| ==>
              && walk[j] < EntryCount(fs.g.fat32, 512 * fs.g.spf)
              && r == Value(Piece(fs.g.fat32, FatRaw(fs.g, old(Disk())), walk[j])))
        && Disk() == old(Disk()) && chain == old(chain) && Snap() == old(Snap()).(buffer := buffer[..])
      ensures !old(flags.dirty) && j + 1 == |walk| && CanGrow(fs.g, Table(fs.g, old(Disk())), old(Snap()), walk) ==>
        && 0 < sector < |Disk()| == |old(Disk())| && r >= 2
        && Grown(fs.g, old(Disk()), old(Snap()), old(chain), old(dir), Disk(), Snap(), chain, c0, r)
      ensures !old(flags.dirty) && j + 1 == |walk| && (IsRoot(fs.g, walk) || !old(flags).canWrite) ==>
        error == FAT_END_OF_FILE
      ensures !old(flags.dirty) && r == -1 && !IsRoot(fs.g, walk) ==> ShowsFat()
      decreases if flags.dirty then 1 else 0, if entrySector == 0 then 1 else 0, 4
    {
      hide VolumeOk, Table, Inv, Kept, Track, Full, ValidDisk, Grown, Decode, IsRoot, EntrySector, EntryOffset,
        FirstPlaced, Value, Piece, FatRaw;
      ghost var d, f, chain0, full := Disk(), Snap(), chain, Full(Table(fs.g, Disk()));
      if !flags.dirty {
        LinkOf(fs.g, Disk(), walk, j);
        LinkRaw(fs.g, Disk(), walk, j);
        GrowTest(fs.g, Disk(), Snap(), walk);
      }
      var err := Flush();
      if err {
        return -1;
      }
      if cluster == 1 {
        // the fixed root directory has no further cluster
        error := FAT_END_OF_FILE;
        return -1;
      }
      EntryDecodes(fs.g, Disk(), cluster);
      err := fs.dev.BlockRead(EntrySector(fs.g, cluster), buffer);
      if err {
        return -1;
      }
      var v := LoadEntry(fs.g, buffer, EntryOffset(fs.g, cluster));
      error := if v < 2 then FAT_ERROR_CLUSTER else error;
      if v < 2 {
        return -1;
      } else if v >= fs.g.EndMarker() {
        if flags.canWrite {
          ghost var b := buffer[..];
          r := Extend(c0);
          if !full {
            GrownAnyBuffer(fs.g, d, f, b, chain0, dir, Disk(), Snap(), chain, c0, r);
          }
        } else {
          error := FAT_END_OF_FILE;
          return -1;
        }
      } else {
        return v;
      }
    }

    /** Takes the first available cluster and links it behind the last one of the file. */
    method Extend(ghost c0: nat) returns (r: int)
      requires Ready() && AtTail(fs.g, Disk(), Snap(), chain, dir, c0) && cluster == chain[|chain| - 1]
      requires !IsRoot(fs.g, chain)
      modifies this, buffer, fs.sysbuf, fs.dev
      ensures Ready() && dir == old(dir) && (r == -1 || r >= 2)
      ensures Full(Table(fs.g, old(Disk()))) ==>
        r == -1 && Disk() == old(Disk()) && chain == old(chain) && Snap() == old(Snap())
      ensures !Full(Table(fs.g, old(Disk()))) ==>
        && 0 < sector < |Disk()| == |old(Disk())| && r >= 2
        && Grown(fs.g, old(Disk()), old(Snap()), old(chain), old(dir), Disk(), Snap(), chain, c0, r)
      decreases 0, if entrySector == 0 then 1 else 0, 3
    {
      hide VolumeOk, Table, Inv, Kept, Track, Full, LeastFree, ValidDisk, Grown, Decode, IsRoot, EntrySector,
        EntryOffset, Allocated, WithEntry, Linked, Saved, HasSlot, HasRoom, Frame, SlotFields, Patch, Encode,
        TakenRaw, FatRaw;
      ghost var d, f, ch := Disk(), Snap(), chain;
      var k := fs.GetFreeCluster();
      Taken(fs.g, d, Disk(), k);
      if k == 0 {
        return -1;
      }
      if k == 0xFFFF_FFFF {
        return -1;
      }
      GrowLinked(fs.g, d, f, ch, dir, c0, k);
      // the entry may share its sector with the one just taken, so the sector is read again
      var i := EntrySector(fs.g, cluster);
      StoredEntry(fs.g, Disk(), cluster, k);
      var err := fs.dev.BlockRead(i, buffer);
      if err {
        return -1;
      }
      StoreEntry(fs.g, buffer, EntryOffset(fs.g, cluster), k);
      err := fs.dev.BlockWrite(i, buffer);
      if err {
        return -1;
      }
      chain := chain + [k];
      ghost var d1 := Disk();
      SlotAnyBuffer(fs.g, d1, f, buffer[..], chain);
      assert Snap() == f.(buffer := buffer[..]);
      var _ := SaveInfo();
      GrowSaved(fs.g, d, f, ch, dir, c0, k, d1, Disk(), Snap());
      return k;
    }

    /**
     Moves to the next sector. With own the walk is that of the file and the cursor has rolled
     off its sector; otherwise the walk is another one, now at its i-th sector.
     */
    method NextSector(ghost walk: seq<nat>, ghost i: nat, ghost own: bool) returns (err: bool)
      requires Ready()
      requires !own ==>
        && !flags.dirty && At(fs.g, Snap(), walk, i)
        && Track(fs.g, Table(fs.g, Disk()), walk) && i + 1 < Sectors(fs.g, walk)
      requires own ==> Ok() && cursor == 512
      requires own && IsDirectory() && flags.canWrite ==> fileSector + 1 < Sectors(fs.g, chain)
      modifies this, buffer, fs.sysbuf, fs.dev
      ensures Ready() && dir == old(dir)
      ensures !own ==>
        && !err && Disk() == old(Disk()) && chain == old(chain)
        && Snap() == old(Snap()).(buffer := buffer[..], sector := sector, cluster := cluster,
                                  sectorsLeft := sectorsLeft, fileSector := fileSector, cursor := cursor)
        && At(fs.g, Snap(), walk, i + 1) && sector < |Disk()| && buffer[..] == Disk()[sector]
      ensures own ==> Kept(fs.g, old(Disk()), old(Snap()), old(chain), old(dir), Disk(), Snap(), chain, dir)
      ensures own && !err ==>
        && !flags.dirty && 0 < sector < |Disk()| && buffer[..] == Disk()[sector]
        && cursor == 0 && fileSector == old(fileSector) + 1
      ensures own && err ==>
        && cursor == 512 && fileSector == old(fileSector)
        && (if flags.dirty
            then NoRoom(fs.g, Disk(), Snap()) && Snap() == old(Snap()) && Disk() == old(Disk()) && chain == old(chain)
            else sector != 0 && Stuck(fs.g, Disk(), Snap(), chain) && (!IsRoot(fs.g, chain) ==> ShowsFat()))
      ensures own && old(flags.dirty && sector == 0) && Full(Table(fs.g, old(Disk()))) ==> flags.dirty && err
      ensures own ==> Needed(fs.g, old(chain), fileSector, chain)
      ensures own && !old(flags.dirty) ==>
        && Crossed(fs.g, old(Disk()), old(Snap()), old(chain), Disk(), chain, err)
        && (err ==> Snap() == old(Snap()).(buffer := buffer[..]))
      decreases if flags.dirty then 1 else 0, if entrySector == 0 then 1 else 0, 6
    {
      hide VolumeOk, Table, Inv, Kept, Content, Track, Full, LeastFree, ValidDisk, Grown, IsRoot, HasSlot, HasRoom,
        Frame, At, Sectors, CanGrow, Wrap32, Quot, Stuck, Crossed, FatShown, Roomy;
      ghost var d0, f0, ch0 := Disk(), Snap(), chain;
      err := Flush();
      if err {
        return true;
      }
      ghost var d, f, ch := Disk(), Snap(), chain;
      if own {
        FlushedOwn(fs.g, d0, f0, ch0, d, f, ch, dir);
        assert f.IsDir() && f.flags.canWrite ==> fileSector + 1 < Sectors(fs.g, chain);
      }
      if sectorsLeft > 0 {
        err := StepInCluster(walk, i, own);
      } else {
        err := CrossCluster(walk, i, own);
      }
      if own {
        KeptTrans(fs.g, d0, f0, ch0, d, f, ch, Disk(), Snap(), chain, dir);
      }
    }

    /** The part of NextSector that stays inside the cluster. */
    method StepInCluster(ghost walk: seq<nat>, ghost i: nat, ghost own: bool) returns (err: bool)
      requires Ready() && !flags.dirty && sectorsLeft > 0
      requires !own ==>
        && At(fs.g, Snap(), walk, i) && Track(fs.g, Table(fs.g, Disk()), walk) && i + 1 < Sectors(fs.g, walk)
      requires own ==> Ok() && cursor == 512 && sector != 0
      modifies this`sectorsLeft, this`fileSector, this`cursor, this`sector, buffer
      ensures !err && Snap() == NextInside(old(Snap()), buffer[..]) && sector < |Disk()| && buffer[..] == Disk()[sector]
      ensures !own ==> At(fs.g, Snap(), walk, i + 1)
      ensures own ==>
        && Kept(fs.g, Disk(), old(Snap()), chain, dir, Disk(), Snap(), chain, dir) && 0 < sector
        && Crossed(fs.g, Disk(), old(Snap()), chain, Disk(), chain, err)
    {
      hide VolumeOk, Table, Inv, Kept, Content, Track, ValidDisk, IsRoot, Frame, At, Sectors, Crossed;
      ghost var d, f := Disk(), Snap();
      if own {
        InsideOwn(fs.g, d, f, chain, dir);
      } else {
        WalkInside(fs.g, d, f, walk, i);
      }
      sectorsLeft := sectorsLeft - 1;
      fileSector := fileSector + 1;
      cursor := 0;
      sector := sector + 1;
      err := fs.dev.BlockRead(sector, buffer);
    }

    /** The part of NextSector that needs another cluster. */
    method CrossCluster(ghost walk: seq<nat>, ghost i: nat, ghost own: bool) returns (err: bool)
      requires Ready() && !flags.dirty && sectorsLeft == 0
      requires !own ==>
        && At(fs.g, Snap(), walk, i) && Track(fs.g, Table(fs.g, Disk()), walk) && i + 1 < Sectors(fs.g, walk)
      requires own ==> Ok() && cursor == 512 && sector != 0
      requires own && IsDirectory() && flags.canWrite ==> fileSector + 1 < Sectors(fs.g, chain)
      modifies this, buffer, fs.sysbuf, fs.dev
      ensures Ready() && dir == old(dir)
      ensures !own ==>
        && !err && Disk() == old(Disk()) && chain == old(chain)
        && Snap() == old(Snap()).(buffer := buffer[..], sector := sector, cluster := cluster,
                                  sectorsLeft := sectorsLeft, fileSector := fileSector, cursor := cursor)
        && At(fs.g, Snap(), walk, i + 1) && sector < |Disk()| && buffer[..] == Disk()[sector]
      ensures own ==> Kept(fs.g, old(Disk()), old(Snap()), old(chain), old(dir), Disk(), Snap(), chain, dir)
      ensures own && !err ==>
        && !flags.dirty && 0 < sector < |Disk()| && buffer[..] == Disk()[sector]
        && cursor == 0 && fileSector == old(fileSector) + 1
      ensures own && err ==>
        && !flags.dirty && sector != 0 && Snap() == old(Snap()).(buffer := buffer[..])
        && Stuck(fs.g, Disk(), Snap(), chain) && (!IsRoot(fs.g, chain) ==> ShowsFat())
      ensures own ==> Crossed(fs.g, old(Disk()), old(Snap()), old(chain), Disk(), chain, err)
      ensures own ==> Needed(fs.g, old(chain), fileSector, chain)
      decreases 0, if entrySector == 0 then 1 else 0, 5
    {
      hide VolumeOk, Table, Inv, Kept, Content, Track, Full, LeastFree, ValidDisk, Grown, IsRoot, HasSlot, HasRoom,
        Frame, At, Sectors, Wrap32, Quot, Stuck, Crossed, Needed, Value, Piece, FatRaw;
      ghost var d, f, ch := Disk(), Snap(), chain;
      ghost var w, x := if own then chain else walk, if own then fileSector else i;
      if own {
        OwnWalk(fs.g, d, f, ch, dir);
      }
      ghost var j := Boundary(fs.g, d, f, w, x);
      var c := NextCluster(w, j, cluster, own);
      if c > -1 {
        ghost var d1, f1 := Disk(), Snap();
        err := EnterCluster(c);
        if own {
          NextOwn(fs.g, d, f, ch, dir, d1, f1, chain, c, Snap());
        } else {
          assert Snap() == NextAcross(fs.g, f, c, d[sector]);
        }
      } else {
        AcrossEnd(fs.g, d, f, ch, dir, buffer[..]);
        err := true;
      }
    }

    /** Goes on to cluster c, which follows the current one. */
    method EnterCluster(c: nat) returns (err: bool)
      requires buffer.Length == 512 && fs.dev.Valid() && fs.g.spc > 0 && c != 1
      modifies this`sector, this`sectorsLeft, this`cluster, this`cursor, this`fileSector, buffer
      ensures Snap() == NextAcross(fs.g, old(Snap()), c, buffer[..])
      ensures err <==> sector >= |Disk()|
      ensures !err ==> buffer[..] == Disk()[sector]
    {
      hide Wrap32;
      fileSector := fileSector + 1;
      err := SelectCluster(c);
    }

    /** Loads the next sector when the cursor has rolled off the buffered one. */
    method RollOver(ghost d0: Disk, ghost f0: Desc, ghost ch0: seq<nat>, ghost c: seq<byte>, ghost pos: nat)
      returns (err: bool)
      requires Ready() && cursor == 512 && Worked(fs.g, d0, f0, ch0, dir, Disk(), Snap(), chain, c, pos)
      requires Roomy(fs.g, d0, f0, dir) && (IsDirectory() && flags.canWrite ==> pos < |c|)
      modifies this, buffer, fs.sysbuf, fs.dev
      ensures Ready() && dir == old(dir) && Worked(fs.g, d0, f0, ch0, dir, Disk(), Snap(), chain, c, pos)
      ensures |buffer[..]| == 512 && meta.attributes == old(meta).attributes && size == old(size)
      ensures flags.canWrite == old(flags).canWrite && |meta.accessed| == 2 && |meta.modified| == 4
      ensures !err ==> cursor == 0 && (IsDirectory() ==> pos < |c|)
      ensures err ==> cursor == 512 && pos == |c| && Blocked(fs.g, Disk(), Snap(), chain)
      ensures fileSector >= old(fileSector) && Needed(fs.g, old(chain), fileSector, chain)
      ensures !flags.canWrite ==> Disk() == old(Disk()) && chain == old(chain)
    {
      hide VolumeOk, Table, Inv, Kept, Content, Full, ValidDisk, Frame, Worked, Stuck, SameFile, Crossed, Roomy,
        Sectors;
      WorkedFacts(fs.g, d0, f0, ch0, dir, Disk(), Snap(), chain, c, pos);
      ghost var d1, f1, ch1 := Disk(), Snap(), chain;
      if IsDirectory() && flags.canWrite {
        MoreAhead(fs.g, d1, f1, ch1, dir);
      }
      err := NextSector([], 0, true);
      if !f1.flags.canWrite {
        ReadOnlyClean(fs.g, d1, f1, ch1, dir);
        ReadOnlyCross(fs.g, d1, f1, ch1, dir, Disk(), chain, err);
      }
      WorkedKept(fs.g, d0, f0, ch0, dir, d1, f1, ch1, c, pos, Disk(), Snap(), chain);
      WorkedFacts(fs.g, d0, f0, ch0, dir, Disk(), Snap(), chain, c, pos);
      if err {
        EndOfFile(fs.g, Disk(), Snap(), chain, dir);
      }
    }

    predicate IsDirectory()
      reads this
    {
      meta.attributes / 0x10 % 2 == 1
    }

    /** Reads up to count bytes at the position; -1 when the file is not open for reading. */
    method Read(out: array<byte>, count: nat, today: seq<byte>) returns (n: int)
      requires Ready() && (Ok() || Rests()) && out != buffer && out != fs.sysbuf
      requires count <= out.Length && count < 0x8000_0000 && |today| == 2
      requires IsDirectory() && flags.canWrite ==> Snap().Pos() + count <= Length(fs.g, Snap(), chain)
      modifies this, buffer, fs.sysbuf, fs.dev, out
      ensures Ready() && dir == old(dir)
      ensures n == -1 <==> !(old(flags).isOpen && old(flags).canRead)
      ensures n == -1 || old(Rests()) ==>
        -1 <= n <= 0 && Snap() == old(Snap()) && Disk() == old(Disk()) && chain == old(chain) && out[..] == old(out[..])
      ensures n != -1 && old(Ok()) ==>
        var c, pos := old(Content(fs.g, Disk(), Snap(), chain, dir)), old(Snap().Pos());
        && pos <= |c| && n == (if count <= |c| - pos then count else |c| - pos)
        && Filled(out[..], c, pos, n, old(out[..]))
        && Worked(fs.g, old(Disk()), old(Snap()), old(chain), old(dir), Disk(), Snap(), chain, c, pos + n)
      ensures !flags.canWrite ==> Disk() == old(Disk()) && chain == old(chain)
      ensures n > 0 ==> meta.accessed == today
    {
      hide VolumeOk, Table, Inv, Kept, Content, Full, ValidDisk, Frame, Worked, Stuck, SameFile, Resting, View, Roomy;
      if !(flags.isOpen && flags.canRead) {
        return -1;
      }
      ghost var d0, f0, ch0, ok := Disk(), Snap(), chain, Ok();
      ghost var c, pos := if ok then Content(fs.g, d0, f0, ch0, dir) else [], f0.Pos();
      n := CopyOut(out, count);
      if n > 0 {
        WorkedFacts(fs.g, d0, f0, ch0, dir, Disk(), Snap(), chain, c, pos + n);
        WorkedDated(fs.g, d0, f0, ch0, dir, Disk(), Snap(), chain, c, pos + n, today, meta.modified);
        UpdateAtime(today);
      }
    }

    /** The copying loop of Read. */
    method CopyOut(out: array<byte>, count: nat) returns (i: int)
      requires Ready() && (Ok() || Rests()) && out != buffer && out != fs.sysbuf && count <= out.Length
      requires IsDirectory() && flags.canWrite ==> Snap().Pos() + count <= Length(fs.g, Snap(), chain)
      modifies this, buffer, fs.sysbuf, fs.dev, out
      ensures Ready() && dir == old(dir)
      ensures old(Rests()) ==>
        i == 0 && Snap() == old(Snap()) && Disk() == old(Disk()) && chain == old(chain) && out[..] == old(out[..])
      ensures old(Ok()) ==>
        var c, pos := old(Content(fs.g, Disk(), Snap(), chain, dir)), old(Snap().Pos());
        && pos <= |c| && i == (if count <= |c| - pos then count else |c| - pos)
        && Filled(out[..], c, pos, i, old(out[..]))
        && Worked(fs.g, old(Disk()), old(Snap()), old(chain), old(dir), Disk(), Snap(), chain, c, pos + i)
      ensures !flags.canWrite ==> Disk() == old(Disk()) && chain == old(chain)
    {
      hide VolumeOk, Table, Inv, Kept, Content, Full, ValidDisk, Frame, Worked, Stuck, SameFile, Blocked, Filled,
        Resting, View, Roomy, Copied;
      ghost var d0, f0, ch0, out0, ok := Disk(), Snap(), chain, out[..], Ok();
      ghost var c := if ok then Content(fs.g, d0, f0, ch0, dir) else [];
      CopyStart(fs.g, ok, d0, f0, ch0, dir, c, out0);
      i := 0;
      while i < count
        invariant Ready() && dir == old(dir) && 0 <= i <= count
        invariant Copied(fs.g, ok, d0, f0, ch0, dir, Disk(), Snap(), chain, c, i, out0, out[..])
        invariant !flags.canWrite ==> Disk() == d0 && chain == ch0
        invariant IsDirectory() == f0.IsDir() && flags.canWrite == f0.flags.canWrite
      {
        ghost var d, f, ch, copied := Disk(), Snap(), chain, out[..];
        CopyHere(fs.g, ok, d0, f0, ch0, dir, d, f, ch, c, i, out0, copied);
        if !IsDirectory() {
          // directories do not have a length
          if cursor + fileSector * 512 >= size {
            break;
          }
        }
        var err, b := NextByte(d0, f0, ch0, c, f0.Pos() + i);
        CopyNext(fs.g, d0, f0, ch0, dir, d, f, ch, c, i, out0, copied, Disk(), Snap(), chain);
        if err {
          break;
        }
        out[i] := b;
        assert out[..] == copied[i := b];
        i := i + 1;
      }
      CopyDone(fs.g, ok, d0, f0, ch0, dir, Disk(), Snap(), chain, c, i, out0, out[..]);
    }

    /** One turn of the copying loop: the next byte of the file, from the next sector if the cursor has rolled off. */
    method NextByte(ghost d0: Disk, ghost f0: Desc, ghost ch0: seq<nat>, ghost c: seq<byte>, ghost pos: nat)
      returns (err: bool, b: byte)
      requires Ready() && Worked(fs.g, d0, f0, ch0, dir, Disk(), Snap(), chain, c, pos) && Roomy(fs.g, d0, f0, dir)
      requires cursor <= 512 && (cursor < 512 || flags.canWrite || !IsDirectory() ==> pos < |c|)
      modifies this, buffer, fs.sysbuf, fs.dev
      ensures Ready() && dir == old(dir) && IsDirectory() == old(IsDirectory()) && flags.canWrite == old(flags).canWrite
      ensures err ==> pos == |c| && Worked(fs.g, d0, f0, ch0, dir, Disk(), Snap(), chain, c, pos)
      ensures !err ==>
        pos < |c| && b == c[pos] && Worked(fs.g, d0, f0, ch0, dir, Disk(), Snap(), chain, c, pos + 1)
      ensures !flags.canWrite ==> Disk() == old(Disk()) && chain == old(chain)
    {
      hide VolumeOk, Table, Inv, Kept, Content, Full, ValidDisk, Frame, Worked, Stuck, SameFile, Blocked, Roomy;
      err := false;
      if cursor == 512 {
        err := RollOver(d0, f0, ch0, c, pos);
        if err {
          return true, 0;
        }
      }
      b := GetByte(d0, f0, ch0, c, pos);
    }

    /** One step of the copying loop: the byte under the cursor is the next one of the file. */
    method GetByte(ghost d0: Disk, ghost f0: Desc, ghost ch0: seq<nat>, ghost c: seq<byte>, ghost pos: nat)
      returns (b: byte)
      requires cursor < 512 && pos < |c| && Worked(fs.g, d0, f0, ch0, dir, Disk(), Snap(), chain, c, pos)
      modifies this`cursor
      ensures b == c[pos] && Worked(fs.g, d0, f0, ch0, dir, Disk(), Snap(), chain, c, pos + 1)
    {
      hide VolumeOk, Table, Inv, Content, Worked;
      WorkedRead(fs.g, d0, f0, ch0, dir, Disk(), Snap(), chain, c, pos);
      b := buffer[cursor];
      cursor := cursor + 1;
    }

    method UpdateAtime(today: seq<byte>)
      modifies this`meta, this`flags
      ensures meta == old(meta).(accessed := today)
      ensures flags == if old(meta).accessed == today then old(flags) else old(flags).(fsDirty := true)
    {
      if meta.accessed != today {
        meta := meta.(accessed := today);
        flags := flags.(fsDirty := true);
      }
    }

    /** The flush a seek starts with: it succeeds unless unsaved data has no cluster to go to. */
    method FlushForSeek(ghost c: seq<byte>)
      requires Ready() && Sound() && !IsDirectory() && c == Content(fs.g, Disk(), Viewed(), chain, dir)
      modifies this, buffer, fs.sysbuf, fs.dev
      ensures Ready() && dir == old(dir) && !IsDirectory()
      ensures cursor == old(cursor) && fileSector == old(fileSector) && size == old(size)
      ensures Stands(fs.g, old(Disk()), old(Viewed()), old(chain), dir, Disk(), Snap(), chain, c, old(Snap()).Pos())
      ensures flags.canWrite == old(flags).canWrite
      ensures flags.dirty ==> NoRoom(fs.g, Disk(), Snap())
      ensures flags.dirty <==> NoRoom(fs.g, old(Disk()), old(Snap()))
      ensures forall t: nat :: t <= size ==>
        && (SeekWorks(fs.g, old(Disk()), old(Snap()), old(chain), t) <==> Arrives(fs.g, Disk(), Snap(), chain, t))
        && (SeekOk(fs.g, old(Disk()), old(Viewed()), old(chain), t) ==> !flags.dirty)
    {
      hide VolumeOk, Table, Inv, Kept, Content, Full, ValidDisk, Frame, Worked, SeekOk, SeekWorks, Arrives, Reachable,
        NoRoom, FirstPlaced, Roomy, Resting, View, Stands, Shows;
      ghost var d, f, v, ch := Disk(), Snap(), Viewed(), chain;
      StandsNothing(fs.g, d, f, ch, dir);
      RestFlags(fs.g, d, f, ch);
      var _ := Flush();
      if f.flags.dirty {
        WorkedNothing(fs.g, d, f, ch, dir);
        WorkedKept(fs.g, d, f, ch, dir, d, f, ch, c, f.Pos(), Disk(), Snap(), chain);
        WorkedFacts(fs.g, d, f, ch, dir, Disk(), Snap(), chain, c, Snap().Pos());
        ViewSame(fs.g, Disk(), Snap(), chain, dir);
        StandsPlain(fs.g, d, v, ch, dir, Disk(), Snap(), chain, c, f.Pos());
      }
      SeekAfterFlush(fs.g, d, f, ch, dir, Disk(), Snap(), chain, 0);
      if flags.dirty {
        assert Snap() == f && Disk() == d;
      }
      forall t: nat | t <= size
        ensures SeekWorks(fs.g, d, f, ch, t) <==> Arrives(fs.g, Disk(), Snap(), chain, t)
        ensures SeekOk(fs.g, d, v, ch, t) ==> !flags.dirty
      {
        SeekAfterFlush(fs.g, d, f, ch, dir, Disk(), Snap(), chain, t);
      }
    }

    /** The body of Lseek once the target is known to be in the file. */
    method Reposition(oldPos: nat, newPos: nat, ghost d0: Disk, ghost f0: Desc, ghost ch0: seq<nat>, ghost c: seq<byte>)
      returns (err: bool)
      requires Ready() && !IsDirectory() && newPos <= |c| && oldPos == Snap().Pos()
      requires Stands(fs.g, d0, f0, ch0, dir, Disk(), Snap(), chain, c, oldPos) && Roomy(fs.g, d0, f0, dir)
      requires flags.dirty ==> NoRoom(fs.g, Disk(), Snap())
      modifies this, buffer, fs.sysbuf, fs.dev
      ensures Ready() && dir == old(dir) && flags.dirty == old(flags.dirty) && (err <==> sector >= |Disk()|)
      ensures cursor == newPos % 512
      ensures Arrives(fs.g, old(Disk()), old(Snap()), old(chain), newPos) ==>
        !err && Stands(fs.g, d0, f0, ch0, dir, Disk(), Snap(), chain, c, newPos)
      ensures !Arrives(fs.g, old(Disk()), old(Snap()), old(chain), newPos) ==>
        && Disk() == old(Disk()) && chain == old(chain)
        && !Stands(fs.g, d0, f0, ch0, dir, Disk(), Snap(), chain, c, newPos)
        && Lost(fs.g, flags.dirty, old(Snap()), newPos, Snap(), chain)
        && (oldPos == newPos ==>
              && old(cursor) == 512 && newPos == |c| && !err && (flags.dirty || ShowsFat())
              && (old(flags).canWrite ==> Torn(fs.g, d0, f0, ch0, dir, Disk(), Snap(), chain, c)))
    {
      hide VolumeOk, Table, Inv, Kept, Content, Full, ValidDisk, Frame, Worked, Reachable, Stuck, Crossed, CanGrow,
        NoRoom, Torn, Arrives, Roomy, Adrift, LostSector, Stands, View, Resting;
      ghost var d, f, ch := Disk(), Snap(), chain;
      StandsFacts(fs.g, d0, f0, ch0, dir, d, f, ch, c, oldPos);
      // the cursor may have rolled off a sector whose successor is not loaded yet
      if cursor == 512 {
        StandsRolled(fs.g, d0, f0, ch0, dir, d, f, ch, c, oldPos);
        WorkedFacts(fs.g, d0, f0, ch0, dir, d, f, ch, c, oldPos);
        NoRoomTest(fs.g, d, f);
        err := NextSector([], 0, true);
        Rolled(fs.g, d0, f0, ch0, dir, d, f, ch, c, oldPos, Disk(), Snap(), chain, err, newPos);
        WorkedFacts(fs.g, d0, f0, ch0, dir, Disk(), Snap(), chain, c, oldPos);
        NotTheRoot(fs.g, Disk(), Snap(), chain, dir);
        StandsPlain(fs.g, d0, f0, ch0, dir, Disk(), Snap(), chain, c, oldPos);
      }
      err := MoveTo(oldPos, newPos, d0, f0, ch0, c);
    }

    /** The three ways to move, once the cursor is not off its sector unless it cannot be helped. */
    method MoveTo(oldPos: nat, newPos: nat, ghost d0: Disk, ghost f0: Desc, ghost ch0: seq<nat>, ghost c: seq<byte>)
      returns (err: bool)
      requires Ready() && !IsDirectory() && newPos <= |c| && oldPos == Snap().Pos()
      requires Stands(fs.g, d0, f0, ch0, dir, Disk(), Snap(), chain, c, oldPos) && Roomy(fs.g, d0, f0, dir)
      requires if flags.dirty then NoRoom(fs.g, Disk(), Snap())
               else cursor < 512 || (sector != 0 && Stuck(fs.g, Disk(), Snap(), chain) && ShowsFat())
      modifies this, buffer, fs.sysbuf, fs.dev
      ensures Ready() && dir == old(dir) && flags.dirty == old(flags.dirty) && (err <==> sector >= |Disk()|)
      ensures cursor == newPos % 512
      ensures Arrives(fs.g, old(Disk()), old(Snap()), old(chain), newPos) ==>
        !err && Stands(fs.g, d0, f0, ch0, dir, Disk(), Snap(), chain, c, newPos)
      ensures !Arrives(fs.g, old(Disk()), old(Snap()), old(chain), newPos) ==>
        && Disk() == old(Disk()) && chain == old(chain)
        && !Stands(fs.g, d0, f0, ch0, dir, Disk(), Snap(), chain, c, newPos)
        && Lost(fs.g, flags.dirty, old(Snap()), newPos, Snap(), chain)
        && (oldPos == newPos ==>
              && old(cursor) == 512 && newPos == |c| && !err && (flags.dirty || ShowsFat())
              && (old(flags).canWrite ==> Torn(fs.g, d0, f0, ch0, dir, Disk(), Snap(), chain, c)))
    {
      hide VolumeOk, Table, Inv, Kept, Content, Full, ValidDisk, Frame, Worked, Reachable, Stuck, CanGrow,
        ClusterIndex, NoRoom, Torn, Arrives, Roomy, Adrift, LostSector, Stands, View, Resting;
      ghost var d, f, ch, rest := Disk(), Snap(), chain, cluster == 0xFFFF_FFFF;
      StandsFacts(fs.g, d0, f0, ch0, dir, d, f, ch, c, oldPos);
      VolumeSpc(fs.g, d);
      if rest {
        RestPlace(fs.g, d, f, ch, dir, newPos);
      } else {
        WorkedFacts(fs.g, d0, f0, ch0, dir, d, f, ch, c, oldPos);
      }
      if oldPos / 512 == newPos / 512 {
        // case 1: seeking within a disk block
        if !rest {
          InSectorDone(fs.g, d0, f0, ch0, dir, d, f, ch, c, oldPos, newPos);
        }
        cursor := newPos % 512;
        err := false;
        StandsPlain(fs.g, d0, f0, ch0, dir, Disk(), Snap(), chain, c, newPos);
      } else if ClusterIndex(newPos, fs.g.spc) == ClusterIndex(oldPos, fs.g.spc) {
        // case 2: seeking within the cluster
        err := Hop(oldPos, newPos, d0, f0, ch0, c);
        StandsPlain(fs.g, d0, f0, ch0, dir, Disk(), Snap(), chain, c, newPos);
      } else {
        if flags.dirty {
          NoRoomMoves(fs.g, d, f, ch, dir, newPos);
        }
        if !rest {
          EmptyStays(fs.g, d, f, ch, dir, newPos);
        }
        err := WalkChain(newPos, d0, f0, ch0, c);
      }
    }

    /** Moves to another sector of the cluster. */
    method Hop(oldPos: nat, newPos: nat, ghost d0: Disk, ghost f0: Desc, ghost ch0: seq<nat>, ghost c: seq<byte>)
      returns (err: bool)
      requires Ready() && !IsDirectory() && newPos <= |c| && newPos / 512 != oldPos / 512
      requires ClusterIndex(newPos, fs.g.spc) == ClusterIndex(oldPos, fs.g.spc)
      requires Worked(fs.g, d0, f0, ch0, dir, Disk(), Snap(), chain, c, oldPos)
      requires if flags.dirty then NoRoom(fs.g, Disk(), Snap())
               else cursor < 512 || (sector != 0 && Stuck(fs.g, Disk(), Snap(), chain))
      modifies this`fileSector, this`sector, this`sectorsLeft, this`cursor, buffer
      ensures Ready() && (err <==> sector >= |Disk()|) && cursor == newPos % 512
      ensures !flags.dirty ==>
        && !err && Arrives(fs.g, Disk(), old(Snap()), chain, newPos)
        && Worked(fs.g, d0, f0, ch0, dir, Disk(), Snap(), chain, c, newPos)
      ensures flags.dirty ==>
        && !Arrives(fs.g, Disk(), old(Snap()), chain, newPos)
        && !Worked(fs.g, d0, f0, ch0, dir, Disk(), Snap(), chain, c, newPos)
        && Lost(fs.g, true, old(Snap()), newPos, Snap(), chain)
    {
      hide VolumeOk, Table, Inv, Kept, Content, Full, ValidDisk, Frame, Worked, Arrives, Stuck, ClusterIndex, NoRoom,
        Lost;
      ghost var d, f := Disk(), Snap();
      VolumeSpc(fs.g, d);
      if !flags.dirty {
        HopDone(fs.g, d0, f0, ch0, dir, d, f, chain, c, oldPos, newPos);
      }
      fileSector, cursor := newPos / 512, newPos % 512;
      sector := Wrap32(sector + newPos / 512 - oldPos / 512);
      sectorsLeft := (sectorsLeft - newPos / 512 + oldPos / 512) % 256;
      err := fs.dev.BlockRead(sector, buffer);
      if flags.dirty {
        NoRoomHop(fs.g, d0, f0, ch0, dir, d, f, chain, c, oldPos, newPos, Snap());
      }
    }

    /** Walks the cluster chain from its start to the position; a writable file can grow at its end. */
    method WalkChain(newPos: nat, ghost d0: Disk, ghost f0: Desc, ghost ch0: seq<nat>, ghost c: seq<byte>)
      returns (err: bool)
      requires Ready() && (Ok() || Rests()) && !IsDirectory()
      requires newPos <= |c| == size && newPos / 512 != Snap().Pos() / 512
      requires Stands(fs.g, d0, f0, ch0, dir, Disk(), Snap(), chain, c, Snap().Pos())
      requires if flags.dirty then
                 && NoRoom(fs.g, Disk(), Snap()) && fs.g.spc == 1
                 && ClusterIndex(newPos, 1) == if newPos < 512 then 0 else 1
               else cluster != 0xFFFF_FFFF ==> sector != 0
      modifies this, buffer, fs.sysbuf, fs.dev
      ensures Ready() && dir == old(dir) && (err <==> sector >= |Disk()|)
      ensures flags.dirty == old(flags.dirty) && cursor == newPos % 512
      ensures Arrives(fs.g, old(Disk()), old(Snap()), old(chain), newPos) ==>
        !err && Stands(fs.g, d0, f0, ch0, dir, Disk(), Snap(), chain, c, newPos)
      ensures !Arrives(fs.g, old(Disk()), old(Snap()), old(chain), newPos) ==>
        && Disk() == old(Disk()) && chain == old(chain)
        && !Stands(fs.g, d0, f0, ch0, dir, Disk(), Snap(), chain, c, newPos)
        && Lost(fs.g, flags.dirty, old(Snap()), newPos, Snap(), chain)
    {
      hide VolumeOk, Table, Inv, Kept, Content, Full, ValidDisk, Frame, Worked, Reachable, Stuck, NoRoom, Grown,
        Extended, IsChain, Track, IsRoot, Wrap32, Rem, Quot, ClusterIndex, Lost, Roomy, Lucky, Stands, View, Resting,
        RestsAt;
      ghost var d, f, ch, grow := Disk(), Snap(), chain, CanGrow(fs.g, Table(fs.g, Disk()), Snap(), chain);
      ghost var v, rest := Viewed(), cluster == 0xFFFF_FFFF;
      RestFlags(fs.g, d, f, ch);
      StandsFacts(fs.g, d0, f0, ch0, dir, d, f, ch, c, f.Pos());
      ViewFlags(fs.g, f, ch);
      if flags.dirty {
        NoRoomPlace(fs.g, d, f, ch, dir);
      } else {
        if rest { RestPlace(fs.g, d, f, ch, dir, newPos); RestFacts(fs.g, d, f, ch, dir); }
        WalkStart(fs.g, d, v, ch, dir, newPos);
      }
      VolumeSpc(fs.g, d);
      var fileCluster := ClusterIndex(newPos, fs.g.spc);
      FollowChain(fileCluster);
      ghost var d1, f2 := Disk(), Snap();
      err := Land(newPos, fileCluster);
      StandsPlain(fs.g, d0, f0, ch0, dir, Disk(), Snap(), chain, c, newPos);
      if flags.dirty {
        NoRoomWalked(fs.g, d0, f0, ch0, dir, d, f, ch, c, f.Pos(), newPos, Snap());
      } else if rest {
        RestWalked(fs.g, d0, f0, ch0, dir, d, f, ch, c, newPos, f2, Snap());
      } else if Reachable(fs.g, d, f, ch, newPos) {
        WalkDone(fs.g, d0, f0, ch0, dir, d, f, ch, c, f.Pos(), d1, f2, chain, newPos, fileCluster, Snap());
      } else {
        LostWalk(fs.g, d0, f0, ch0, dir, d, f, ch, c, f.Pos(), newPos, Snap());
      }
    }

    /**
     Goes n clusters along the chain from its start: to a cluster of the chain, to one it has been
     extended by, or past its end to cluster number 0xFFFF_FFFF.
     */
    method FollowChain(n: nat)
      requires Ready() && (Ok() || Rests()) && !IsDirectory()
      requires if flags.dirty then
                 NoRoom(fs.g, Disk(), Snap()) && n <= 1 && first == cluster == 0
               else
                 && Track(fs.g, Table(fs.g, Disk()), chain) && |chain| > 0 && first == chain[0]
                 && if cluster == 0xFFFF_FFFF then n < |chain|
                    else n <= |chain| && 0 < sector < |Disk()|
                         && Inv(fs.g, Disk(), Parked(Disk(), Snap(), cluster), chain, dir)
      modifies this, buffer, fs.sysbuf, fs.dev
      ensures Ready() && dir == old(dir) && flags.dirty == old(flags.dirty)
      ensures old(flags.dirty) ==>
        && Snap() == old(Snap()).(cluster := if n == 0 then 0 else 0xFFFF_FFFF)
        && Disk() == old(Disk()) && chain == old(chain)
      ensures !old(flags.dirty) && n < |old(chain)| ==>
        Walking(fs.g, old(Disk()), old(Snap()), old(chain), Disk(), Snap(), chain, n)
      ensures !old(flags.dirty) && n == |old(chain)| ==>
        if CanGrow(fs.g, Table(fs.g, old(Disk())), old(Snap()), old(chain)) then
          && 0 < old(sector) < |old(Disk())|
          && Extended(fs.g, old(Disk()), old(Snap()), old(chain), dir, Disk(), Snap(), chain)
        else
          && Snap() == old(Snap()).(cluster := 0xFFFF_FFFF, buffer := buffer[..])
          && Disk() == old(Disk()) && chain == old(chain)
    {
      hide VolumeOk, Table, Inv, Kept, Content, Full, ValidDisk, Frame, Stuck, NoRoom, Grown, Extended, IsChain, Track,
        IsRoot, Roomy, View, Resting;
      ghost var d, f, ch, grow := Disk(), Snap(), chain, CanGrow(fs.g, Table(fs.g, Disk()), Snap(), chain);
      ghost var rest := cluster == 0xFFFF_FFFF;
      RestFlags(fs.g, d, f, ch);
      cluster := first;
      var i := 0;
      while i < n
        invariant Ready() && dir == old(dir) && 0 <= i <= n && flags.dirty == f.flags.dirty
        invariant f.flags.dirty ==>
          Snap() == f.(cluster := if i == 0 then 0 else 0xFFFF_FFFF) && Disk() == d && chain == ch
        invariant !f.flags.dirty && i < |ch| ==> Walking(fs.g, d, f, ch, Disk(), Snap(), chain, i)
        invariant !f.flags.dirty && i == |ch| && grow ==> Extended(fs.g, d, f, ch, dir, Disk(), Snap(), chain)
        invariant !f.flags.dirty && i == |ch| && !grow ==>
          Disk() == d && chain == ch && Snap() == f.(cluster := 0xFFFF_FFFF, buffer := buffer[..])
      {
        ghost var f1 := Snap();
        var next := NextCluster(ch, i, f.cluster, !rest);
        if !f.flags.dirty && i + 1 == |ch| && grow {
          ExtendedBy(fs.g, d, f, ch, dir, f1, Disk(), Snap(), chain, next);
        }
        cluster := if next < 0 then 0xFFFF_FFFF else next;
        i := i + 1;
      }
    }

    /** Puts the descriptor on position newPos, which the walk has found in the current cluster. */
    method Land(newPos: nat, fileCluster: nat) returns (err: bool)
      requires buffer.Length == 512 && fs.dev.Valid() && fs.g.spc > 0 && fileCluster == ClusterIndex(newPos, fs.g.spc)
      modifies this`fileSector, this`cursor, this`sector, this`sectorsLeft, buffer
      ensures Snap() == SeekTo(fs.g, old(Snap()), newPos, cluster, buffer[..])
      ensures err <==> sector >= |Disk()|
      ensures !err ==> buffer[..] == Disk()[sector]
    {
      hide Wrap32, Rem, Quot, ClusterIndex, SectorIndex;
      SeekMath(newPos, fs.g.spc);
      fileSector := newPos / 512;
      cursor := newPos % 512;
      var newSec := SectorIndex(newPos, fileCluster, fs.g.spc);
      sector := Wrap32(Wrap32(cluster * fs.g.spc) + fs.g.cluster0 + newSec);
      sectorsLeft := fs.g.spc - newSec - 1;
      err := fs.dev.BlockRead(sector, buffer);
    }

    /** Moves to the position ptr away from the start, the position or the end; ptr - 1 when that is outside the
        file. */
    method Lseek(ptr: int, whence: int) returns (r: int)
      requires Ready() && Sound() && !IsDirectory() && -0x8000_0000 <= ptr < 0x8000_0000
      modifies this, buffer, fs.sysbuf, fs.dev
      ensures Ready() && dir == old(dir)
      ensures !old(flags).isOpen ==>
        r == ptr - 1 && Snap() == old(Snap()) && Disk() == old(Disk()) && chain == old(chain)
      ensures old(flags).isOpen ==>
        var d0, f0, v0, ch0 := old(Disk()), old(Snap()), old(Viewed()), old(chain);
        var c, pos := old(Content(fs.g, Disk(), Viewed(), chain, dir)), old(Snap().Pos());
        var t := Target(pos, |c|, ptr, whence);
        if !(0 <= t <= |c|) then
          r == ptr - 1 && Stands(fs.g, d0, v0, ch0, dir, Disk(), Snap(), chain, c, pos)
        else
          && r == (if sector < |Disk()| then t else ptr - 1) && cursor == t % 512
          && (SeekOk(fs.g, d0, v0, ch0, t) ==> !flags.dirty)
          && if SeekWorks(fs.g, d0, f0, ch0, t) then
               r == t && Stands(fs.g, d0, v0, ch0, dir, Disk(), Snap(), chain, c, t)
             else Missed(fs.g, d0, f0, ch0, dir, Disk(), Snap(), chain, c, t)
    {
      hide VolumeOk, Table, Inv, Kept, Content, Full, ValidDisk, Frame, Worked, SameFile, SeekOk, SeekWorks, Arrives,
        Reachable, NoRoom, Wrap32, Torn, Lost, Missed, Roomy, Stands, View, Resting;
      if !flags.isOpen {
        return ptr - 1;
      }
      ghost var d0, f0, v0, ch0 := Disk(), Snap(), Viewed(), chain;
      StandsNothing(fs.g, d0, f0, ch0, dir);
      ghost var c, pos := Content(fs.g, d0, v0, ch0, dir), f0.Pos();
      StandsFacts(fs.g, d0, v0, ch0, dir, d0, f0, ch0, c, pos);
      FlushForSeek(c);
      var oldPos := fileSector * 512 + cursor;
      var newPos := Wrap32(if whence == 0 then ptr else if whence == 1 then oldPos + ptr else size + ptr);
      TargetWraps(pos, |c|, ptr, whence);
      if newPos > size {
        return ptr - 1;
      }
      ghost var f1 := Snap();
      StandsFacts(fs.g, d0, v0, ch0, dir, Disk(), f1, chain, c, pos);
      var err := Reposition(oldPos, newPos, d0, v0, ch0, c);
      if v0 != f0 {
        RestSeeks(fs.g, d0, f0, ch0, dir, newPos);
      }
      if !SeekWorks(fs.g, d0, f0, ch0, newPos) {
        MissedSeek(fs.g, d0, f0, ch0, dir, f1, Disk(), Snap(), chain, c, newPos);
      }
      return if err then ptr - 1 else newPos;
    }

    /** There is room for n bytes: below 2 GiB in a file, in front of the end of a directory. */
    ghost predicate Fits(n: nat)
      reads this, buffer
    {
      if IsDirectory() then Snap().Pos() + n <= Length(fs.g, Snap(), chain) else size + n < 0x8000_0000
    }

    /** Appending would leave the file: the seek to its end goes to a sector that is not its own. */
    ghost predicate Strays()
      reads this, buffer, fs, fs.dev
    {
      flags.append && !SeekWorks(fs.g, Disk(), Snap(), chain, size) && Snap().Pos() != size
    }

    /**
     Writes data at the position, or at the end of a file opened for appending; -1 when the file is
     not open for writing, or when the volume fills up after k bytes.
     */
    method Write(data: seq<byte>, now: seq<byte>) returns (n: int, ghost k: nat)
      requires Ready() && (Ok() || Rests()) && |now| == 4 && Fits(|data|)
      requires flags.append ==> !IsDirectory()
      requires Strays() ==> |data| <= 512
      modifies this, buffer, fs.sysbuf, fs.dev
      ensures Ready() && dir == old(dir) && k <= |data|
      ensures n == if old(flags).isOpen && old(flags).canWrite && k == |data| then |data| else -1
      ensures !(old(flags).isOpen && old(flags).canWrite) ==>
        Snap() == old(Snap()) && Disk() == old(Disk()) && chain == old(chain)
      ensures old(flags).isOpen && old(flags).canWrite ==>
        var d0, f0, ch0 := old(Disk()), old(Snap()), old(chain);
        var c, pos := old(Content(fs.g, Disk(), Snap(), chain, dir)), old(Snap().Pos());
        var start := if f0.flags.append then |c| else pos;
        && start <= |c| && (n > 0 ==> meta.modified == now && flags.fsDirty)
        && (!f0.flags.append || SeekWorks(fs.g, d0, f0, ch0, |c|) ==>
          && (k < |data| ==> Blocked(fs.g, Disk(), Snap(), chain) && start + k == |Splice(c, start, data[..k])|)
          && Worked(fs.g, d0, f0, ch0, dir, Disk(), Snap(), chain, Splice(c, start, data[..k]), start + k)
          && (k > 0 ==> cursor > 0))
        && (!f0.flags.append ==>
          && Needed(fs.g, ch0, fileSector, chain) && fileSector >= f0.fileSector
          && (k == 0 ==> cursor == f0.cursor) && (data == [] ==> chain == ch0))
        && (f0.flags.append && !SeekWorks(fs.g, d0, f0, ch0, |c|) && data != [] ==>
          Misplaced(fs.g, d0, f0, ch0, dir, Disk(), Snap(), chain, c, data, k))
    {
      hide VolumeOk, Table, Inv, Kept, Content, Full, ValidDisk, Frame, Worked, Stuck, SameFile, SeekOk, SeekWorks,
        NoRoom, Blocked, Splice, Roomy, Missed, Misplaced, Lost, LostSector, Torn, Synced,
        Resting, View, Intact;
      RestFlags(fs.g, Disk(), Snap(), chain);
      k := 0;
      if !(flags.isOpen && flags.canWrite) {
        return -1, 0;
      }
      ghost var d0, f0, ch0 := Disk(), Snap(), chain;
      ghost var c, pos := Content(fs.g, d0, f0, ch0, dir), f0.Pos();
      WorkedNothing(fs.g, d0, f0, ch0, dir);
      WorkedFacts(fs.g, d0, f0, ch0, dir, d0, f0, ch0, c, pos);
      ghost var how, c1, start := Firm, c, pos;
      if flags.append {
        how, c1, start := ToEnd(c);
      }
      ghost var b := buffer[..];
      var copied := CopyIn(data, how, d0, f0, ch0, c1, start);
      k := copied;
      n := if copied < |data| then -1 else |data|;
      if n > 0 {
        UpdateMtime(now, how, d0, f0, ch0, Splice(c1, start, data[..k]), start + k);
      }
      if data != [] && how.Slipped? {
        MisplacedIn(fs.g, d0, f0, ch0, dir, Disk(), Snap(), chain, c, b, data, k);
      } else if data != [] && how.Gone? {
        MisplacedOut(fs.g, d0, f0, ch0, dir, Disk(), Snap(), chain, c, data);
      }
    }

    method UpdateMtime(now: seq<byte>, ghost how: Footing, ghost d0: Disk, ghost f0: Desc, ghost ch0: seq<nat>,
                       ghost c: seq<byte>, ghost pos: nat)
      requires |now| == 4
      requires !how.Gone? ==> Worked(fs.g, d0, f0, ch0, dir, Disk(), Snap(), chain, c, pos)
      modifies this`meta, this`flags
      ensures meta == old(meta).(modified := now) && flags == old(flags).(fsDirty := true)
      ensures !how.Gone? ==> Worked(fs.g, d0, f0, ch0, dir, Disk(), Snap(), chain, c, pos)
    {
      hide VolumeOk, Inv, Worked;
      if !how.Gone? {
        WorkedFacts(fs.g, d0, f0, ch0, dir, Disk(), Snap(), chain, c, pos);
        WorkedDated(fs.g, d0, f0, ch0, dir, Disk(), Snap(), chain, c, pos, meta.accessed, now);
      }
      meta := meta.(modified := now);
      flags := flags.(fsDirty := true);
    }

    /** Goes to the end of the file before an append, and tells what the append then works on. */
    method ToEnd(ghost c: seq<byte>) returns (ghost how: Footing, ghost c1: seq<byte>, ghost start: nat)
      requires Ready() && Ok() && !IsDirectory() && flags.isOpen && flags.canWrite
      requires c == Content(fs.g, Disk(), Snap(), chain, dir)
      modifies this, buffer, fs.sysbuf, fs.dev
      ensures Ready() && dir == old(dir) && flags.canWrite && !IsDirectory() && |c| == old(size) < 0x8000_0000
      ensures how == if SeekWorks(fs.g, old(Disk()), old(Snap()), old(chain), |c|) then Firm
                     else if old(Snap()).Pos() == |c| then Slipped else Gone
      ensures !how.Gone? ==>
        Worked(fs.g, old(Disk()), old(Snap()), old(chain), dir, Disk(), Shown(how, 0, Snap()), chain, c1, start)
      ensures if how.Slipped? then 512 <= |c| && c1 == c[..|c| - 512] + buffer[..] && start == |c| - 512
              else c1 == c && start == |c|
      ensures how.Slipped? ==> |buffer[..]| == 512 && cursor < 512
      ensures how.Gone? ==>
        && Adrift(Snap(), chain) && cursor == 0 && size == fileSector * 512 == |c|
        && sector == LostSector(fs.g, NoRoom(fs.g, old(Disk()), old(Snap())), |c|)
        && Intact(fs.g, old(Disk()), old(Snap()), old(chain), dir, Disk(), chain, c)
    {
      hide VolumeOk, Table, Inv, Content, Full, ValidDisk, Worked, SeekOk, SeekWorks, Roomy, Missed, Lost, LostSector,
        Adrift, Torn, NoRoom, Synced, Stands, View, Resting, Intact;
      ghost var d0, f0, ch0 := Disk(), Snap(), chain;
      ViewSame(fs.g, d0, f0, ch0, dir);
      WorkedNothing(fs.g, d0, f0, ch0, dir);
      WorkedFacts(fs.g, d0, f0, ch0, dir, d0, f0, ch0, c, f0.Pos());
      ShortFile(fs.g, d0, f0, ch0, dir);
      var _ := Lseek(0, 2);
      how, c1, start := Firm, c, |c|;
      if SeekWorks(fs.g, d0, f0, ch0, |c|) {
        StandsFacts(fs.g, d0, f0, ch0, dir, Disk(), Snap(), chain, c, |c|);
        WorkedFacts(fs.g, d0, f0, ch0, dir, Disk(), Snap(), chain, c, |c|);
      } else if f0.Pos() == |c| {
        MissedIn(fs.g, d0, f0, ch0, dir, Disk(), Snap(), chain, c);
        how, c1, start := Slipped, c[..|c| - 512] + buffer[..], |c| - 512;
      } else {
        MissedOut(fs.g, d0, f0, ch0, dir, Disk(), Snap(), chain, c);
        how := Gone;
      }
    }

    /** The copying loop of Write: k bytes are copied, all of them unless the volume is full. */
    method CopyIn(data: seq<byte>, ghost how: Footing, ghost d0: Disk, ghost f0: Desc, ghost ch0: seq<nat>,
                  ghost c: seq<byte>, ghost pos: nat) returns (k: nat)
      requires Ready() && flags.canWrite && pos <= |c|
      requires how.Gone? ==> !IsDirectory() && |data| <= 512 && cursor == 0 && size == fileSector * 512
      requires how.Slipped? ==> cursor < 512
      requires !how.Gone? ==>
        && Worked(fs.g, d0, f0, ch0, dir, Disk(), Shown(how, 0, Snap()), chain, c, pos) && Roomy(fs.g, d0, f0, dir)
        && if IsDirectory() then pos + |data| <= |c| else |c| + |data| < 0x8000_0000
      modifies this, buffer, fs.sysbuf, fs.dev
      ensures Ready() && dir == old(dir) && k <= |data|
      ensures !how.Gone? ==>
        && (k < |data| ==> Blocked(fs.g, Disk(), Snap(), chain) && pos + k == |Splice(c, pos, data[..k])|)
        && Worked(fs.g, d0, f0, ch0, dir, Disk(), Shown(how, k, Snap()), chain, Splice(c, pos, data[..k]), pos + k)
        && Needed(fs.g, old(chain), fileSector, chain)
        && fileSector >= old(fileSector) && (if k > 0 then cursor > 0 else cursor == old(cursor))
        && (data == [] ==> chain == old(chain)) && (how.Slipped? && data != [] ==> k > 0)
      ensures how.Gone? ==>
        && k == |data| && Disk() == old(Disk()) && chain == old(chain) && (data != [] ==> flags.dirty)
        && buffer[..k] == data && size == old(size) + k && cursor == k
        && sector == old(sector) && cluster == old(cluster) && fileSector == old(fileSector)
    {
      hide VolumeOk, Table, Inv, Kept, Content, Full, ValidDisk, Frame, Worked, Stuck, SameFile, Blocked, Splice, Roomy,
        BytePut;
      ghost var ch1, s1, cursor1, size1, sector1, cluster1 := chain, fileSector, cursor, size, sector, cluster;
      SpliceNothing(c, pos);
      assert data[..0] == [];
      k := 0;
      while k < |data|
        invariant Ready() && dir == old(dir) && k <= |data| && flags.canWrite
        invariant how.Slipped? && k == 0 ==> cursor < 512
        invariant !how.Gone? ==>
          && Worked(fs.g, d0, f0, ch0, dir, Disk(), Shown(how, k, Snap()), chain, Splice(c, pos, data[..k]), pos + k)
          && if IsDirectory() then pos + |data| <= |c| else |c| + |data| < 0x8000_0000
        invariant !how.Gone? ==>
          && Needed(fs.g, ch1, fileSector, chain) && (data == [] ==> chain == ch1)
          && fileSector >= s1 && (if k > 0 then cursor > 0 else cursor == cursor1)
        invariant how.Gone? ==>
          && Disk() == old(Disk()) && chain == ch1 && fileSector == s1 && sector == sector1 && cluster == cluster1
          && !IsDirectory() && cursor == k && size == size1 + k && (k > 0 ==> flags.dirty)
          && buffer[..k] == data[..k]
      {
        if !how.Gone? {
          WorkedFacts(fs.g, d0, f0, ch0, dir, Disk(), Shown(how, k, Snap()), chain, Splice(c, pos, data[..k]), pos + k);
        }
        ghost var s2, ch2 := fileSector, chain;
        SpliceStep(c, pos, data, k);
        var err := PutNext(data[k], how, k, d0, f0, ch0, Splice(c, pos, data[..k]), pos + k);
        NeededTrans(fs.g, ch1, s2, ch2, fileSector, chain);
        if err {
          return;
        }
        k := k + 1;
      }
    }

    /** One turn of the copying loop: the byte goes where the cursor is, or to the next sector if it has rolled off. */
    method PutNext(b: byte, ghost how: Footing, ghost k: nat, ghost d0: Disk, ghost f0: Desc, ghost ch0: seq<nat>,
                   ghost c: seq<byte>, ghost pos: nat) returns (err: bool)
      requires Ready() && cursor <= 512 && flags.canWrite
      requires how.Gone? || (how.Slipped? && k == 0) ==> cursor < 512
      requires !how.Gone? ==>
        && Worked(fs.g, d0, f0, ch0, dir, Disk(), Shown(how, k, Snap()), chain, c, pos) && Roomy(fs.g, d0, f0, dir)
        && pos <= |c| && if IsDirectory() then pos < |c| else |c| + 1 < 0x8000_0000
      modifies this, buffer, fs.sysbuf, fs.dev
      ensures Ready() && dir == old(dir) && flags.canWrite && IsDirectory() == old(IsDirectory())
      ensures !how.Gone? ==>
        && Needed(fs.g, old(chain), fileSector, chain) && fileSector >= old(fileSector)
        && if err then
             && Worked(fs.g, d0, f0, ch0, dir, Disk(), Shown(how, k, Snap()), chain, c, pos)
             && Blocked(fs.g, Disk(), Snap(), chain) && pos == |c| && cursor == old(cursor) == 512
           else cursor > 0 && Worked(fs.g, d0, f0, ch0, dir, Disk(), Snap(), chain, Splice(c, pos, [b]), pos + 1)
      ensures how.Gone? ==>
        && !err && Disk() == old(Disk()) && chain == old(chain) && fileSector == old(fileSector)
        && sector == old(sector) && cluster == old(cluster) && flags.dirty && cursor == old(cursor) + 1
        && buffer[..] == old(buffer[..])[old(cursor) := b]
        && (!IsDirectory() && old(cursor) + fileSector * 512 == old(size) ==> size == old(size) + 1)
    {
      hide VolumeOk, Table, Inv, Kept, Content, Full, ValidDisk, Frame, Worked, Stuck, SameFile, Blocked, Splice, Roomy,
        BytePut;
      err := false;
      if cursor == 512 {
        err := RollOver(d0, f0, ch0, c, pos);
        if err {
          return;
        }
      }
      PutByte(b, how, k, d0, f0, ch0, c, pos);
    }

    /** One step of the copying loop: the byte goes into the buffer, and the size grows at the end of the file. */
    method PutByte(b: byte, ghost how: Footing, ghost k: nat, ghost d0: Disk, ghost f0: Desc, ghost ch0: seq<nat>,
                   ghost c: seq<byte>, ghost pos: nat)
      requires buffer.Length == 512 && cursor < 512 && flags.canWrite
      requires !how.Gone? ==>
        && (IsDirectory() || (pos + 1 < 0x8000_0000 && |c| + 1 < 0x8000_0000)) && pos <= |c|
        && Worked(fs.g, d0, f0, ch0, dir, Disk(), Shown(how, k, Snap()), chain, c, pos)
      modifies this`size, this`flags, this`cursor, buffer
      ensures !how.Gone? ==> Worked(fs.g, d0, f0, ch0, dir, Disk(), Snap(), chain, Splice(c, pos, [b]), pos + 1)
      ensures flags.dirty && flags.canWrite && cursor == old(cursor) + 1
      ensures buffer[..] == old(buffer[..])[old(cursor) := b]
      ensures !IsDirectory() && cursor - 1 + fileSector * 512 == old(size) ==> size == old(size) + 1
    {
      hide VolumeOk, Table, Inv, Content, ValidDisk, Worked, Splice;
      if !how.Gone? {
        WorkedPutShown(fs.g, d0, f0, ch0, dir, how, k, Disk(), Snap(), chain, c, pos, b);
      }
      if !IsDirectory() {
        if cursor + fileSector * 512 == size {
          size := size + 1;
          flags := flags.(fsDirty := true);
        }
      }
      buffer[cursor] := b;
      cursor := cursor + 1;
      flags := flags.(dirty := true);
    }

    /** Writes everything that is unsaved and gives the descriptor up; -1 when unsaved data has no room. */
    method Close() returns (r: int)
      requires Ready() && Sound() && !IsDirectory()
      modifies this, buffer, fs.sysbuf, fs.dev
      ensures Ready() && dir == old(dir)
      ensures r == 0 <==> old(flags).isOpen && !NoRoom(fs.g, old(Disk()), old(Snap()))
      ensures r != 0 ==> r == -1 && Snap() == old(Snap()) && Disk() == old(Disk()) && chain == old(chain)
      ensures r == 0 ==>
        flags == Flags(false, false, false, false, false, false) && Needed(fs.g, old(chain), fileSector, chain)
      ensures cursor == old(cursor) && fileSector == old(fileSector) && (!old(flags.dirty) ==> chain == old(chain))
      ensures r == 0 ==>
        var c := old(Content(fs.g, Disk(), Viewed(), chain, dir));
        && Closed(fs.g, old(Disk()), old(Viewed()), old(chain), old(dir), Disk(), Viewed(), chain, c)
        && Shows(fs.g, Disk(), Snap(), chain) && (old(Ok()) ==> Viewed() == Snap())
      ensures r == 0 && old(first) == 0 && !old(flags.dirty) ==> first == 0 && Disk() == old(Disk())
      ensures r == 0 && old(entrySector) != 0 ==>
        && entrySector == old(entrySector) && entryNumber == old(entryNumber)
        && (Synced(fs.g, Disk(), Snap()) <==> old(first != 0 || flags.dirty || Synced(fs.g, Disk(), Snap())))
    {
      hide VolumeOk, Table, Inv, Kept, Content, Full, ValidDisk, Frame, Worked, HasSlot, HasRoom, Saved, OnDisk,
        SlotFields, Synced, Closed, FirstPlaced, Stands, Resting, View, Roomy, Shows;
      if !flags.isOpen {
        return -1;
      }
      ghost var d0, f0, v0, ch0 := Disk(), Snap(), Viewed(), chain;
      StandsNothing(fs.g, d0, f0, ch0, dir);
      RestFlags(fs.g, d0, f0, ch0);
      ghost var c := Content(fs.g, d0, v0, ch0, dir);
      if flags.dirty {
        WorkedNothing(fs.g, d0, f0, ch0, dir);
        NoRoomTest(fs.g, d0, f0);
        var err := Flush();
        if err {
          return -1;
        }
        WorkedKept(fs.g, d0, f0, ch0, dir, d0, f0, ch0, c, f0.Pos(), Disk(), Snap(), chain);
        CleanPlaced(fs.g, d0, f0, ch0, Disk(), Snap(), chain);
        WorkedFacts(fs.g, d0, f0, ch0, dir, Disk(), Snap(), chain, c, Snap().Pos());
        PlacedFirst(fs.g, Disk(), Snap(), chain, dir);
        ViewSame(fs.g, Disk(), Snap(), chain, dir);
        StandsPlain(fs.g, d0, f0, ch0, dir, Disk(), Snap(), chain, c, Snap().Pos());
      }
      StandsFacts(fs.g, d0, v0, ch0, dir, Disk(), Snap(), chain, c, Snap().Pos());
      if flags.fsDirty {
        var err := SaveOnClose(d0, v0, ch0, c);
        if err {
          return -1;
        }
      }
      ShutView(fs.g, d0, f0, ch0, dir, Disk(), Snap(), chain, c);
      flags := Flags(false, false, false, false, false, false);
      return 0;
    }

    /** The saving of the entry before the file is given up; a file without a cluster is not saved. */
    method SaveOnClose(ghost d0: Disk, ghost v0: Desc, ghost ch0: seq<nat>, ghost c: seq<byte>) returns (err: bool)
      requires Ready() && !IsDirectory() && !flags.dirty
      requires Stands(fs.g, d0, v0, ch0, dir, Disk(), Snap(), chain, c, Snap().Pos())
      modifies this, buffer, fs.sysbuf, fs.dev
      ensures Ready() && !err && dir == old(dir) && chain == old(chain)
      ensures fileSector == old(fileSector) && cursor == old(cursor)
      ensures Stands(fs.g, d0, v0, ch0, dir, Disk(), Snap(), chain, c, Snap().Pos())
      ensures !IsDirectory() && !flags.dirty && cluster == old(cluster) && first == old(first)
      ensures if old(first) == 0 then Snap() == old(Snap()) && Disk() == old(Disk()) else !flags.fsDirty
    {
      hide VolumeOk, Table, Inv, Kept, Content, ValidDisk, Frame, Worked, SameFile, HasSlot, HasRoom, Saved,
        SlotFields, Synced, Stands, Resting, View, Shows;
      ghost var d1, f1, ch1, rest := Disk(), Snap(), chain, cluster == 0xFFFF_FFFF;
      StandsFacts(fs.g, d0, v0, ch0, dir, d1, f1, ch1, c, f1.Pos());
      if rest {
        RestReady(fs.g, d1, f1, ch1, dir);
      } else {
        WorkedFacts(fs.g, d0, v0, ch0, dir, d1, f1, ch1, c, f1.Pos());
        CloseReady(fs.g, d1, f1, ch1, dir);
      }
      err := SaveInfo();
      if rest {
        RestSaved(fs.g, d0, v0, ch0, dir, d1, f1, ch1, c, Disk(), Snap());
      } else if f1.sector != 0 {
        CloseSaved(fs.g, d1, f1, ch1, dir, Disk(), Snap());
        WorkedKept(fs.g, d0, v0, ch0, dir, d1, f1, ch1, c, f1.Pos(), Disk(), Snap(), chain);
        StandsPlain(fs.g, d0, v0, ch0, dir, Disk(), Snap(), chain, c, Snap().Pos());
      }
    }

    /** Takes a directory slot over into the descriptor, as the end of a path look-up and fat_open do. */
    method OpenSlot(es: nat, en: nat, read: bool, write: bool, append: bool, ghost ch: seq<nat>, ghost c: seq<byte>)
      returns (err: bool)
      requires Ready() && es < |Disk()| && en < 16
      modifies this, buffer
      ensures Ready() && Disk() == old(Disk()) && chain == ch
      ensures OnDisk(fs.g, Disk(), es, en, ch, c) ==>
        !err && Ok() && !IsDirectory() && Content(fs.g, Disk(), Snap(), chain, dir) == c && Snap().Pos() == 0
      ensures OpenedAt(fs.g, Disk(), es, en, Snap())
      ensures flags == Flags(true, read, write, append, false, false)
      ensures err <==> sector >= |Disk()|
      ensures SlotFirst(fs.g, Disk()[es], en) == 0 ==> first == fs.g.rootCluster
    {
      hide VolumeOk, Table, Wrap32, SlotFirst, SlotSize, OnDisk, Content, Inv, ValidDisk, SlotName, SlotAttributes,
        SlotFields;
      SectorSize(fs.g, Disk(), es);
      err := fs.dev.BlockRead(es, buffer);
      LoadSlot(es, en, Flags(true, read, write, append, false, false));
      ghost var f := Snap();
      err := SelectCluster(first);
      SameFields(f, Snap());
      chain := ch;
      if OnDisk(fs.g, Disk(), es, en, ch, c) {
        OpenedInv(fs.g, Disk(), es, en, ch, c, Snap(), dir);
      }
    }

    /** Takes name, attributes, dates, size and first cluster from slot en of the buffered sector es. */
    method LoadSlot(es: nat, en: nat, mode: Flags)
      requires buffer.Length == 512 && en < 16
      modifies this`meta, this`size, this`first, this`error, this`entrySector, this`entryNumber, this`fileSector,
          this`flags
      ensures SlotFields(Snap()) && meta.name == SlotName(buffer[..], en)
      ensures meta.attributes == SlotAttributes(buffer[..], en)
      ensures size == SlotSize(buffer[..], en)
      ensures first
           == if SlotFirst(fs.g, buffer[..], en) == 0 then fs.g.rootCluster else SlotFirst(fs.g, buffer[..], en)
      ensures entrySector == es && entryNumber == en && fileSector == 0 && flags == mode
    {
      hide SlotFirst, SlotSize;
      error := 0;
      var o := en * 32;
      meta := Meta(buffer[o..o + 11], buffer[o + 11], buffer[o + 13..o + 18], buffer[o + 18..o + 20],
          buffer[o + 22..o + 26]);
      size := SlotSize(buffer[..], en);
      first := SlotFirst(fs.g, buffer[..], en);
      if first == 0 {
        // a subdirectory's .. entry
        first := fs.g.rootCluster;
      }
      entrySector := es;
      entryNumber := en;
      fileSector := 0;
      flags := mode;
    }

    /** Makes the record that of a new, empty file in directory ch0: it gets its entry when it gets its first
        cluster. */
    method CreateEmpty(name: seq<byte>, readOnly: bool, read: bool, write: bool, append: bool, created: seq<byte>,
                       parentCluster: nat, ghost ch0: seq<nat>)
      requires Ready() && |name| == 11 && |created| == 5 && InUseMark(name[0])
      requires Track(fs.g, Table(fs.g, Disk()), ch0) && parentCluster == ch0[0]
      modifies this, buffer
      ensures Ready() && Inv(fs.g, Disk(), Snap(), chain, dir) && !IsDirectory() && Disk() == old(Disk())
      ensures !write || (exists i, n :: RoomAt(fs.g, Disk(), ch0, i, n)) ==> Ok()
      ensures Content(fs.g, Disk(), Snap(), chain, dir) == []
      ensures Snap() == NewRecord(name, if readOnly then 0x21 else 0x20,
                                  Flags(true, read, write, append, false, false), created, parentCluster)
      ensures chain == [] && dir == ch0
    {
      hide VolumeOk, Table, Track, RoomAt, Inv, Content, Unplaced;
      SetEmpty(name, if readOnly then 0x21 else 0x20, Flags(true, read, write, append, false, false), created,
          parentCluster);
      chain, dir := [], ch0;
      NewFileInv(fs.g, Disk(), Snap(), dir);
    }

    method SetEmpty(name: seq<byte>, attributes: byte, mode: Flags, created: seq<byte>, parentCluster: nat)
      requires buffer.Length == 512
      modifies this, buffer
      ensures Snap() == NewRecord(name, attributes, mode, created, parentCluster)
    {
      ClearPlace();
      ClearBuffer();
      flags := mode;
      meta := Meta(name, attributes, created, [0, 0], [0, 0, 0, 0]);
      parent := parentCluster;
    }

    method ClearPlace()
      modifies this`sector, this`cluster, this`sectorsLeft, this`cursor, this`error, this`size, this`first,
        this`entrySector, this`entryNumber, this`fileSector
      ensures sector == cluster == sectorsLeft == cursor == 0 && error == 0
      ensures size == first == entrySector == entryNumber == fileSector == 0
    {
      sector, cluster, sectorsLeft, cursor, error := 0, 0, 0, 0, 0;
      size, first, entrySector, entryNumber, fileSector := 0, 0, 0, 0, 0;
    }

    method ClearBuffer()
      requires buffer.Length == 512
      modifies buffer
      ensures buffer[..] == seq(512, _ => 0)
    {
      forall k | 0 <= k < 512 {
        buffer[k] := 0;
      }
      assert buffer[..] == seq(512, _ => 0);
    }

    /** Truncates a file that has just been opened: its clusters are freed, its directory entry is left for later. */
    method Truncate(created: seq<byte>, modified: seq<byte>)
      requires Ready() && Ok() && !IsDirectory() && flags.canWrite && !flags.dirty && !flags.fsDirty
      requires sector != 0 && cursor == 0
      requires |created| == 5 && |modified| == 4 && Walkable(Table(fs.g, Disk()), fs.g.EndMarker())
      modifies this, buffer, fs.sysbuf, fs.dev
      ensures Ready() && Ok() && chain == [] && Content(fs.g, Disk(), Snap(), chain, dir) == []
      ensures meta == old(meta).(created := created, modified := modified) && flags.fsDirty
      ensures Table(fs.g, Disk()) == Zeroed(old(Table(fs.g, Disk())), old(chain))
      ensures |Disk()| == |old(Disk())|
      ensures forall s :: 0 <= s < |Disk()| && !fs.g.InFat(s) ==> Disk()[s] == old(Disk()[s])
      ensures entrySector == old(entrySector) && entryNumber == old(entryNumber)
      ensures Touched(fs.g, old(Disk()), Disk(), old(chain), [], entrySector, entryNumber)
      ensures sector == 0 && first == 0 && size == 0 && Snap().Pos() == 0 && dir == old(dir)
      ensures flags == old(flags).(fsDirty := true)
      ensures 0 < entrySector < |Disk()| && entryNumber < 16 && |old(chain)| > 0 && old(chain)[0] < fs.g.Entries()
      ensures !Synced(fs.g, Disk(), Snap()) && SlotFirst(fs.g, Disk()[entrySector], entryNumber) == old(chain)[0]
    {
      hide VolumeOk, Table, Inv, Content, ValidDisk, HasSlot, HasRoom, Walkable, FreeWalk, SlotFirst, SlotSize,
        Quiet, Deletable;
      ghost var d, f, ch := Disk(), Snap(), chain;
      RegularDeletable(fs.g, d, f, ch, dir);
      FreeStart(fs.g, d, f, ch);
      var _ := fs.FreeClusters(first);
      ClearFields(created, modified);
      chain := [];
      TruncateDone(fs.g, d, f, ch, dir, Disk(), Snap());
      FreedTouched(fs.g, d, Disk(), ch, entrySector, entryNumber);
    }

    /** Makes the record that of a file without clusters. */
    method ClearFields(created: seq<byte>, modified: seq<byte>)
      requires |created| == 5 && |modified| == 4 && SlotFields(Snap())
      modifies this`size, this`first, this`sector, this`cluster, this`sectorsLeft, this`fileSector, this`meta,
          this`flags
      ensures Snap() == old(Snap()).(size := 0, first := 0, sector := 0, cluster := 0, sectorsLeft := 0,
                                     fileSector := 0, meta := meta, flags := old(flags).(fsDirty := true))
      ensures meta == old(meta).(created := created, modified := modified) && SlotFields(Snap())
    {
      size := 0;
      first := 0;
      sector := 0;
      cluster := 0;
      sectorsLeft := 0;
      fileSector := 0;
      meta := meta.(created := created, modified := modified);
      flags := flags.(fsDirty := true);
    }

    /** Deletes the file or directory: its entry is marked as deleted and its clusters are freed. */
    method Delete()
      requires Ready() && Deletable(fs.g, Disk(), Snap(), chain) && Walkable(Table(fs.g, Disk()), fs.g.EndMarker())
      modifies this`flags, buffer, fs.sysbuf, fs.dev
      ensures Ready() && |Disk()| == |old(Disk())|
      ensures Table(fs.g, Disk()) == Zeroed(old(Table(fs.g, Disk())), old(chain))
      ensures 0 < entrySector < |Disk()| && entryNumber < 16
      ensures |old(Disk()[entrySector])| == 512
      ensures Disk()[entrySector] == old(Disk()[entrySector])[entryNumber * 32 := 0xE5]
      ensures forall s :: 0 <= s < |Disk()| && !fs.g.InFat(s) && s != entrySector ==> Disk()[s] == old(Disk()[s])
      ensures Touched(fs.g, old(Disk()), Disk(), old(chain), [], entrySector, entryNumber)
      ensures flags == Flags(true, false, false, false, false, false)
    {
      hide VolumeOk, Table, Inv, Content, ValidDisk, HasRoom, Walkable, FreeWalk, SlotFirst, SlotSize, Quiet,
        Deletable;
      ghost var d, f, ch := Disk(), Snap(), chain;
      FreeStart(fs.g, d, f, ch);
      var _ := fs.dev.BlockRead(entrySector, buffer);
      buffer[entryNumber * 32] := 0xE5;
      DataWrite(fs.g, d, entrySector, buffer[..]);
      var _ := fs.dev.BlockWrite(entrySector, buffer);
      ghost var d1 := Disk();
      var _ := fs.FreeClusters(first);
      FreedVolume(fs.g, d1, Disk(), ch, entrySector, entryNumber);
      FreedTouched(fs.g, d, Disk(), ch, entrySector, entryNumber);
      flags := Flags(true, false, false, false, false, false);
    }
  }
}
