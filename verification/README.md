# Gristle in Dafny

Gristle is a small FAT16/FAT32 driver for microcontrollers, with a second driver for ext2 and an
MD5 implementation among its tests. This project models its stateful core and proves what it is
for: files behave as byte sequences, the file allocation table stays a set of disjoint chains, one
file never disturbs another, and stored structures read back as they were written.

The FAT driver (`src/gristle.c`) is modelled from the bottom up.

- `Bytes`, `Division`: bytes, 32-bit wrap-around, little-endian codecs, quotients and remainders.
- `Chains`: the FAT as a table of numbers; chains, the heap of chains, allocation and freeing.
- `Layout`, `Mount`, `Block`: the map from clusters and entries to sectors, the geometry a mount
  computes, the device as a sequence of 512-byte sectors.
- `RawFat`: the same table told in the bytes of the FAT, without sectors and offsets.
- `Allocator`: the cluster allocator and the chain freer with their shared sector buffer.
- `Tracks`: the sectors a descriptor walks over. The fixed FAT16 root directory is the walk `[1]`.
- `FileSpec`: the invariant `Inv` of an open file, the byte sequence `Content` it stands for, `Frame`, the
  part of the disk an operation on it may change, and `SlotStep`, how a new file comes by its directory entry.
- `FileSteps`, `FileBytes`, `FileView`, `FileSeek`, `FileStore`: what each elementary step does to these, and
  the one state outside the invariant in which a file is still itself: a reader resting behind its last cluster.
- `File`: the class `FileS` with the driver's methods, each proved against those predicates.
- `Sharing`, `Sessions`, `Driver`: files that share a volume, runs of calls on any number of them, and the
  table of descriptors through which the calls are made.
- `Positions`: the laws that tie seeking, reading and writing to each other, for runs and for the methods.
- `Sequential`, `Dirents`, `Listings`, `Names`: writing a new file or a new directory from start to end, listing
  a directory, what deleting and creating do to a listing, 8.3 names.
- `Example`: six-sector volumes with a file or a full root directory, which meet the invariants the rest
  starts from and show the cases in which the driver goes wrong, or only seems to.

`Md5Spec` and `Md5` (`test/hash.c`) hold the digest of RFC 1321 and the streaming context that computes it,
`Md5Vectors` works two digests of the test suite in that document out by hand; `Ext2Inode` and `Ext2Super`
(`src/embext.c`) hold inode addressing and the list of superblock copies.

The main results are `Sessions.RunRefines` (every run of creating, opening, truncating, reading, writing,
seeking, closing and deleting, on any number of files, is a run of independent byte sequences with positions;
the methods of `Driver.Files` are its steps), `Sessions.RunKeepsHeap` (over such a run no cluster is shared
between files and none is lost), `File.FileS.Lseek` and `Write` (a seek or an append arrives if and only if
`SeekWorks`, and what happens otherwise), the laws of `Positions` (a seek takes a read back, what is written
is read back), `Sharing.Bystander` and `ClosedFileKept` (work on one file, but for an append that has missed,
leaves every other one alone, new, truncated or closed), `Sequential.WriteNew` (writing a new file succeeds if
and only if the volume has the clusters its bytes need; it then has exactly those, and an empty slot of its
directory), `Allocator.FatInfo.FreeClusters` with `Chains.FreeWalkSparesEntry0` (what freeing does on any
table, circular chains included), `RawFat.FatAsBytes`, `Mount.MountFat16`, `MountFat32` and `MountExact`,
`Listings.DeleteListed` and `SaveListed`, `Dirents.RootListing`, `Md5.Context.Update` and `Finish` with
`Md5Vectors`, and `Ext2Inode.StoreThenLoad`.

Device errors are part of the model only as far as `BlockRead` and `BlockWrite` fail for sectors that
do not exist. The classes hold the driver's records and change them in place; the lemmas are about the
values (`Desc`, `Disk`) a method starts from and ends in.

## Where the code falls short

Each of these is stated with the exact condition under which the code does what is expected.

- A seek to the end of a file that ends with its last cluster needs a cluster behind it. On a full volume there
  is none for a writer. The walk then goes on to cluster number 0xFFFFFFFF, whose sector lies three clusters in
  front of the data region (`FileSeek.BogusPlace`), and the seek returns its target, as if it had arrived,
  whenever that sector exists: `Example.SeekToEnd`. `FileS.Lseek` arrives if and only if `SeekWorks`, which can
  be told before the call.
- A reader gets there too, but it is unharmed (`FileView.RestFacts`, `FileSeek.RestPlace`): from there it reads
  nothing, goes anywhere and closes, as `FileS.Read`, `Lseek` and `Close` say and `Example.SizeThenRead` shows.
  Its seek fails only when that sector does not exist, or when its cursor has just rolled off the last sector:
  then the position falls back by a sector, with a sector of the FAT in the buffer, although the result is the
  target (`FileSeek.ReadOnlySeek`, `Example.ReadThenSeek`).
- An append ignores the result of its seek: the bytes are reported as written and are in the buffer of a
  sector that is not the file's, or over its last sector. `FileS.Write` says so (`Misplaced`) for exactly the
  appends whose seek does not arrive; in `Example.AppendLost` the next flush writes over a sector of the FAT.
- Freeing a chain that is circular or runs into a free entry zeroes FAT entry 0:
  `Chains.FreeWalkSparesEntry0` says exactly when, `Chains.CircleCostsEntry0` gives an instance.
- The walk over the fixed FAT16 root directory goes one sector too far. A listing is the root's own entries
  if and only if one of them is unused or the sector behind lists nothing: `Dirents.RootListing` and
  `ListRoot`; `Example.RootOverrun` is a full root directory of 32 entries of which 48 are listed.
- Creation makes the same step. When that root is full and the sector behind it begins an entry with a zero, the
  entry of the new file is written there, over the file that owns the cluster: `FileS.SaveInfo` with `RunsOver`,
  `FileStore.OverrunHits`, `Example.CreationOverrun`.
- Truncating on open frees the clusters but leaves the directory slot naming them. Closing brings the slot up
  to date if and only if the file has a cluster, has unsaved data, or the slot was right before: `FileS.Close`.
  `Sequential.TruncateAndClose` leaves a slot that names a free cluster. In the abstract runs such a file is
  `stale` until it gets a byte.
- A file that is created and closed without a byte written never gets a directory entry: `FileS.Close`
  (`Closed`), and `listed` in the abstract runs.
- A file whose slot has first cluster 0, as other systems store empty files, is opened on the root directory,
  and a write to it goes there: `FileStore.ZeroClusterFile`. Truncating or deleting it frees the root
  directory's chain, or entry 1 of a FAT16 volume: `FileStore.ZeroClusterFreed`.
- `make_dos_name` leaves byte 1 of the name unset for a one-letter base with an extension, so looking such a
  name up gives the name if and only if that byte was a space before: `Names.LookupName`.
- `ext2_mount` calls `is_power` with its arguments exchanged, so the list of superblock copies is
  right only for volumes of at most nine block groups: `Ext2Super.ListExact`, `Ext2Super.MissedGroup`.

## Model

| member | source | states |
|---|---|---|
| Bytes.Le16Codec | src/gristle.c:578-580 | a 16-bit entry reads back as it was stored |
| Bytes.Le32Codec | src/gristle.c:578-584 | a 32-bit entry reads back as it was stored |
| Bytes.Le16Value | src/gristle.c:578-580 | the bytes of a 16-bit number on disk are its digits to the base 256, the lowest first |
| Bytes.Le32Value | src/gristle.c:578-584 | the bytes of a 32-bit number on disk are its digits to the base 256, the lowest first |
| Layout.EntryOwn | src/gristle.c:611-616 | an entry stored on disk decodes to the stored number, for both entry lengths |
| Layout.EntryOther | src/gristle.c:603-618 | storing one entry leaves every other entry as it was, those in the same sector included |
| Layout.TableWithEntry | src/gristle.c:603-618 | storing an entry on disk is an update of the table at one place |
| Layout.TableFrame | src/gristle.c:443-453 | the table depends on the FAT sectors only |
| RawFat.FatAsBytes | src/gristle.c:571-584 | entry c is the number whose digits are bytes 4c to 4c + 3, or 2c and 2c + 1 on FAT16, of the FAT sectors put together |
| RawFat.StoredBytes | src/gristle.c:603-618 | storing an entry replaces these bytes by the digits of the number, and no other byte of the FAT |
| RawFat.LinkBytes | src/gristle.c:571-589 | in these bytes each cluster of a chain names the next one, and the last one a number of at least 0xFFFFFF0, or 0xFFF0 on FAT16 |
| RawFat.FreedBytes | src/gristle.c:454-468 | freeing a chain zeroes the bytes of its entries and leaves those of all others |
| Layout.ClusterToSector | src/gristle.c:528-548 | the 32-bit sector computation gives the first sector of the cluster even when cluster0 has wrapped |
| Layout.ClustersDisjoint | src/gristle.c:540 | distinct clusters have no sector in common |
| Layout.ClusterInData | src/gristle.c:1052-1062 | no cluster reaches into the FAT or the fixed root directory, and all lie on the device |
| Mount.ClusterSizeOk | src/gristle.c:983-994 | accepts exactly the powers of two from 1 to 128 |
| Mount.MountVolume | src/gristle.c:958-1216 | a mount is refused exactly when a checked field is out of range, and otherwise yields the computed geometry |
| Mount.WrittenFields | src/gristle.h:72-123 | of a boot sector written field after field the mount reads the fields that were written |
| Mount.MountFat16 | src/gristle.c:958-1091 | a FAT16 boot sector with given fields is accepted exactly when they are in range, and the geometry is stated in them |
| Mount.MountFat32 | src/gristle.c:1093-1216 | the same for FAT32, with the sectors per FAT and the root cluster of the longer sector |
| Mount.MountExact | src/gristle.c:1052-1086 | an accepted volume has a well-formed geometry if and only if it has a cluster, no more clusters than FAT entries, and a root that fits |
| Mount.DataExact | src/gristle.c:1054-1062 | the data region begins right behind the other regions although cluster0 is kept modulo 2^32 |
| Mount.ClustersPlaced | src/gristle.c:1188-1197 | on a sound volume clusters lie behind every copy of the FAT and before the end of the volume |
| Mount.Cluster0Wraps | src/gristle.c:1190-1196 | there is a sound volume on which cluster0 does wrap below zero |
| Chains.ChainAcyclic | src/gristle.c:551-632 | a chain that ends never visits a cluster twice |
| Chains.ChainUnique | src/gristle.c:551-632 | the first cluster determines the whole chain |
| Chains.ExtendChain | src/gristle.c:593-618 | linking a free cluster behind the tail gives the old chain with that cluster appended |
| Chains.GrowthKeepsHeap | src/gristle.c:551-632 | growth of one chain keeps the clusters in use partitioned into disjoint chains: none shared, none lost |
| Chains.AllocateKeepsHeap | src/gristle.c:383-430 | giving an empty file its first cluster keeps the heap |
| Chains.ExtendKeepsHeap | src/gristle.c:551-632 | extending one chain keeps the heap and all other chains |
| Chains.NewFileKeepsHeap | src/gristle.c:1290-1311 | a file without clusters adds nothing to the heap |
| Chains.FreeKeepsHeap | src/gristle.c:436-476 | freeing a chain empties it in the heap: exactly its clusters become free |
| Chains.InUseUpdate | src/gristle.c:405-418 | storing an entry changes the number of entries in use by the difference that entry makes |
| Chains.TakenCount | src/gristle.c:405-418 | a file that has grown from nothing has taken as many free entries as it has clusters |
| Chains.FreedCount | src/gristle.c:436-476 | freeing a chain gives back as many entries as it has clusters |
| Chains.FreeWalk | src/gristle.c:442-468 | freeing entry by entry ends on every table whose links stay in range, circular chains included |
| Chains.FreeWalkOfChain | src/gristle.c:442-468 | on a well-formed chain exactly its entries are zeroed |
| Chains.FreeWalkSparesEntry0 | src/gristle.c:442-468 | entry 0 survives if and only if the chain is terminated |
| Chains.CircleCostsEntry0 | src/gristle.c:442-468 | freeing a circular chain zeroes entry 0: an instance |
| Allocator.ScannedSector | src/gristle.c:392-425 | scanning a sector up to its first free entry finds the lowest free entry of the table, or rules the sector out |
| Allocator.FatInfo.ScanSector | src/gristle.c:396-403 | the index of the first free entry of the buffered sector |
| Allocator.FatInfo.GetFreeCluster | src/gristle.c:383-430 | returns the lowest free entry, which alone changes, to an end mark; 0 and no change exactly when the FAT is full; in bytes, the first entry that is all zero gets F8 FF FF 0F, or F8 FF on FAT16 |
| Allocator.AllocateThenFree | src/gristle.c:383-476 | freeing a cluster just allocated restores the table; the count of entries in use goes up by one and down by one |
| Allocator.FreeStep | src/gristle.c:442-468 | zeroing the current entry is one step of the walk that frees a chain, and progress |
| Allocator.FatInfo.FreeClusters | src/gristle.c:436-476 | the one-sector window leaves the disk as zeroing the entries one at a time would, with nothing unwritten and no other sector changed, the entries being the numbers in the bytes of the FAT |
| Allocator.FatInfo.MoveWindow | src/gristle.c:443-452 | moving the window writes the old sector back and keeps the disk it stands for |
| Block.Device.BlockRead | src/block.h:75-85 | the buffer becomes the sector, or the call fails and changes nothing |
| Block.Device.BlockWrite | src/block.h:87-97 | the sector becomes the buffer and no other sector changes |
| Tracks.TrackSector | src/gristle.c:528-548 | every sector of a walk lies on the device outside the FAT, in a cluster of the chain |
| Tracks.SectorsDistinct | src/gristle.c:635-663 | a walk visits no sector twice |
| Tracks.StepInside | src/gristle.c:647-651 | inside a cluster the next sector of the walk is the next one on disk |
| Tracks.StepAcross | src/gristle.c:652-658 | behind the last sector of a cluster the walk goes on with the next cluster of the chain, if there is one |
| FileSpec.SlotRoundTrip | src/gristle.c:695-708 | a saved directory slot decodes to the file's name, attributes, first cluster and size |
| FileSpec.DirectoryBit | src/gristle.h:51 | a directory is an entry with the attribute bit 0x10 |
| FileSteps.FrameTrans | src/gristle.c:479-772 | what two operations may change together is what one may change |
| FileSteps.WriteBack | src/gristle.c:515-521 | writing the buffer to its sector keeps the invariant and the content |
| FileSteps.MoveKeeps | src/gristle.c:1554-1602 | moving a clean descriptor changes nothing but the position |
| FileSteps.SaveSlot | src/gristle.c:758-763 | saving rewrites exactly the 32 bytes of the slot, which then describe the file |
| FileSteps.SaveKeeps | src/gristle.c:666-772 | saving the slot leaves the data and the position alone |
| FileSteps.ExtendDisk | src/gristle.c:603-618 | linking a taken cluster extends one chain, within the file's frame |
| FileSteps.ExtendKeeps | src/gristle.c:589-623 | extending the chain leaves position and content alone |
| FileSteps.FirstCluster | src/gristle.c:492-510 | the first cluster of a file is linked and filled within the frame of the file |
| FileSteps.PlaceNew | src/gristle.c:489-510 | a file without a sector becomes a placed one with the same bytes |
| FileSteps.AcrossGrown | src/gristle.c:551-663 | stepping into a cluster the chain has just been extended by keeps content and invariant |
| FileBytes.ReadByte | src/gristle.c:1439-1440 | the byte under the cursor is the byte of the file at the position |
| FileBytes.PutByte | src/gristle.c:1472-1479 | storing a byte overwrites the byte at the position or appends it at the end |
| FileBytes.ReadOnlyCross | src/gristle.c:1434-1438 | reading on through a read-only descriptor writes nothing |
| FileSeek.TargetWraps | src/gristle.c:1538-1554 | in 32-bit arithmetic a target outside the file always reads as one behind its end |
| FileSeek.SeekSector | src/gristle.c:1594-1597 | the sector computed from cluster and offset is the right one in spite of wrap-around |
| FileSeek.SeekAfterFlush | src/gristle.c:1536 | whether a seek arrives can be told before its flush, whose result the code ignores: by reaching the target when the flush succeeds, by staying in the buffered sector when it does not |
| FileView.RestFacts | src/gristle.c:1430-1433 | a reader left behind its last cluster is at the end of its file, and acts as one whose cursor has just rolled off |
| FileSeek.BogusPlace | src/gristle.c:1591-1598 | the sector of cluster number 0xFFFFFFFF is the one three clusters in front of the data region |
| FileSeek.ReadOnlySeek | src/gristle.c:1558-1602 | a reader's seek arrives unless its target is behind the last cluster and the cursor has rolled off to there already or the sector of cluster number 0xFFFFFFFF does not exist |
| FileSeek.RestReached | src/gristle.c:1588-1602 | a reader that walks past its last cluster still stands for its file, at the target |
| FileSeek.RestPlace | src/gristle.c:1562-1591 | from behind its last cluster a reader's seek arrives at every position of the file |
| FileSeek.SamePlace | src/gristle.c:1555-1602 | the position determines cluster, sector, sectors left and buffer, so the three ways to seek agree |
| File.FileS.SelectCluster | src/gristle.c:528-548 | the descriptor stands on the first sector of the cluster, or of the fixed root for cluster 1 |
| File.FileS.Flush | src/gristle.c:479-525 | flushing keeps content, position and invariant; a slot it takes for a new file was empty; it fails exactly when unsaved data has no cluster to go to; a buffer that is not the file's is written to its sector all the same |
| File.FileS.PlaceFirst | src/gristle.c:489-511 | a file without clusters gets the lowest free one with its data, and is entered in its slot, or in one that was empty in its directory before |
| FileSteps.FirstSlotStep | src/gristle.c:492-743 | the slot found after the first cluster has been filled was an empty one of the parent directory on the disk before |
| File.FileS.SaveInfo | src/gristle.c:666-772 | only the 32 bytes of the slot change on disk, and they describe the file; a slot newly taken is the first empty one the search meets, of the parent directory or, behind a full fixed root, of the sector that follows it; buffer and position are as before; the recursion with Flush ends |
| File.FileS.PutSlot | src/gristle.c:758-759 | the buffered slot becomes the entry of the file |
| File.FileS.FindSlot | src/gristle.c:714-751 | finds the first empty slot of the walk over the parent directory and puts the position back |
| FileSteps.SearchPlace | src/gristle.c:724-740 | the first empty slot of that walk is one of the directory if it has one, and otherwise, for the fixed root, in the first sector behind it |
| File.FileS.NextCluster | src/gristle.c:551-632 | the next cluster of the chain, which is the number in the bytes of the entry, a newly linked one at the end of a writable file, or -1 |
| File.FileS.Extend | src/gristle.c:589-623 | exactly one free cluster is linked behind the tail although both entries may share a sector |
| File.FileS.NextSector | src/gristle.c:635-663 | goes on to the next sector, keeps the content, and fails only at the end of a chain that cannot grow |
| File.FileS.CrossCluster | src/gristle.c:652-661 | enters the next cluster, found or newly linked |
| File.FileS.RollOver | src/gristle.c:1434-1438 | loads the next sector when the cursor has rolled off; without one the position is the end of the file |
| File.FileS.Read | src/gristle.c:1412-1447 | returns content[pos..min(pos+count, size)] and moves the position by as much; a read-only descriptor writes nothing, and behind its last cluster reads nothing |
| File.FileS.Lseek | src/gristle.c:1519-1603 | a target inside the file is reached if and only if SeekWorks, also from behind the last cluster; otherwise the record is left off the file as stated, and the result is the target unless the sector it is left on does not exist; a target outside is refused with the position unchanged |
| File.FileS.Reposition | src/gristle.c:1555-1602 | loading a sector that is due and moving reach the target with content and invariant kept, exactly when it can be reached |
| File.FileS.MoveTo | src/gristle.c:1562-1602 | the three ways to move arrive in the same cases, and miss as stated in all others |
| File.FileS.Hop | src/gristle.c:1567-1581 | moving inside the cluster arrives, but for unsaved data without a cluster, which ends on sector 1 or on the last sector number |
| File.FileS.FollowChain | src/gristle.c:1582-1591 | following the chain from its start gives its n-th cluster, the one it has been extended by, or cluster number 0xFFFFFFFF |
| File.FileS.WalkChain | src/gristle.c:1582-1602 | walking the chain from its start arrives, growing the chain at its end, or ends on the sector of cluster number 0xFFFFFFFF with the disk unchanged |
| File.FileS.Write | src/gristle.c:1449-1486 | overwrites or extends the content at the position, or at the end when appending; -1 exactly when not writable or blocked, and how much was written; an append whose seek does not arrive is misplaced without an error |
| File.FileS.ToEnd | src/gristle.c:1461-1463 | what an append stands on after its seek: the end of the file, the start of its last sector, or a sector that is not its own |
| File.FileS.CopyIn | src/gristle.c:1464-1481 | the bytes copied so far are spliced into the content and no cluster is allocated ahead; on a sector that is not the file's they are in its buffer |
| File.FileS.Close | src/gristle.c:1386-1410 | everything unsaved reaches the disk, where the slot then describes the content; the slot is up to date if and only if the file had a cluster, unsaved data or a right slot; an entry is made exactly for a file with a byte; -1 exactly when not open or unsaved data has no room |
| File.FileS.OpenSlot | src/gristle.c:925-951 | opening a file that is on disk gives its bytes at position 0; first cluster 0 is redirected to the root |
| File.FileS.CreateEmpty | src/gristle.c:1285-1316 | a file to be created, for writing or not, is empty, has no clusters and meets the invariant |
| File.FileS.Truncate | src/gristle.c:1363-1375 | exactly the file's clusters are freed and it is empty, but its slot still names the first of them; no other file is touched |
| File.FileS.Delete | src/gristle.c:1663-1674 | the slot of a file or directory is marked as deleted, exactly its clusters are freed, nothing else changes |
| FileStore.ZeroClusterFile | src/gristle.c:938-941 | a slot with first cluster 0 opens on the first sector of the root directory, and the first byte written replaces the first one there |
| FileStore.ZeroClusterFreed | src/gristle.c:1663-1674 | truncating or deleting such a file frees the whole chain of a FAT32 root, or entry 1 on FAT16, after which the volume is not well formed |
| FileStore.OverrunHits | src/gristle.c:758-763 | an entry written behind the fixed root puts its name into the file that owns the cluster there |
| FileStore.FreedTouched | src/gristle.c:1663-1674 | truncating and deleting touch no entry and no sector of others |
| FileStore.ClosedOnDisk | src/gristle.c:1386-1410 | a clean file whose slot is up to date is on disk with its content |
| FileStore.OpenedInv | src/gristle.c:925-951 | a descriptor made from the slot of a file on disk meets the invariant and stands for its bytes |
| FileStore.FreedVolume | src/gristle.c:1663-1674 | freeing a file's chain leaves the volume well formed and all entries of others as they were |
| Sharing.GainedClear | src/gristle.c:714-743 | the slot a new file takes is no other file's and lies in no other file's data |
| Sharing.Bystander | src/gristle.c:506-618 | work on one file, its truncation and deletion included, leaves another one, with or without an entry, truncated or not, with the same record, the same bytes and a valid invariant |
| Sharing.ApartLater | src/gristle.c:506-743 | after its work a file, which may have gained a slot, still shares no cluster, slot or directory sector with others |
| Sharing.ClosedFileKept | src/gristle.c:603-763 | a file that is not open stays on disk as it is under reading, writing, seeking, closing, truncating and deleting another one |
| Sessions.CallRefines | src/gristle.c:1218-1722 | one call is a step of its own file's byte sequence and leaves those of all other files alone |
| Sessions.ReadOnlyBit | src/gristle.c:1345 | a locked file is one with the attribute bit 0x01 |
| Sessions.RunRefines | src/gristle.c:1218-1722 | every run of creating, opening, truncating, reading, writing, seeking, closing and deleting gives the replies, bytes, positions and modes of independent abstract files |
| Sessions.RunKeepsHeap | src/gristle.c:383-663 | over every such run, truncations included, the clusters in use remain those of disjoint chains, one for each file |
| Driver.Files.Read | src/gristle.c:1412-1447 | the call on a descriptor is the abstract step of its file; a descriptor that is not open is refused |
| Driver.Files.Write | src/gristle.c:1449-1486 | the call is the abstract step with the bytes the volume has room for, all of them unless the file is blocked |
| Driver.Files.Lseek | src/gristle.c:1519-1603 | the call is the abstract step, or is refused with ptr - 1 |
| Driver.Files.Close | src/gristle.c:1386-1410 | the call is the abstract step; it fails exactly when unsaved data has no room, and otherwise frees the descriptor |
| Driver.Files.NextFile | src/gristle.c:167-178 | the first descriptor that is not open, or -1 when all are |
| Driver.Files.Open | src/gristle.c:1218-1384 | an existing file is opened at its start on a free descriptor, and emptied when it is to be truncated; a read-only one is refused to writers; nothing happens when all descriptors are taken |
| Driver.Files.Create | src/gristle.c:1258-1316 | a file that does not exist becomes a new empty one on a free descriptor |
| Driver.Files.Unlink | src/gristle.c:1676-1707 | an existing file that is not open is deleted through a free descriptor, which is free again afterwards |
| Positions.ReadTakenBack | src/gristle.c:1412-1554 | in a run, a seek by minus what a read has returned takes the read back, and one by as much does what the read does |
| Positions.LastBytes | src/gristle.c:1545-1548 | in a run, a seek to k bytes before the end and a read of k give the last k bytes |
| Positions.BytesFrom | src/gristle.c:1538-1540 | in a run, a seek to k bytes behind the start and a read of n give the bytes from k to k + n |
| Positions.Tell | src/gristle.c:1541-1544 | in a run, a seek by nothing from the position returns it |
| Positions.SeekRefused | src/gristle.c:1549-1554 | in a run, a seek that would lead out of the file returns ptr - 1 and changes nothing |
| Positions.WrittenReadBack | src/gristle.c:1449-1554 | in a run, what has been written is read back from where it was written, and the bytes around it are as before |
| Positions.InReach | src/gristle.c:1555-1602 | after work on a file that had a cluster, or could get one, every position in front of its end can be sought |
| Positions.ReadTwice | src/gristle.c:1412-1603 | reading, seeking back by what was read and reading again give the same position and the same bytes |
| Positions.ReadLast | src/gristle.c:1412-1603 | a seek by -k from the end, when it arrives, and a read give the last k bytes |
| Positions.ReadFrom | src/gristle.c:1412-1603 | a seek to k, when it arrives, and a read of n give bytes k to k + n |
| Positions.TellPosition | src/gristle.c:1519-1603 | a seek by 0 from the position, when it arrives, returns the position |
| Positions.WriteThenRead | src/gristle.c:1412-1603 | writing, seeking back and reading give the bytes written, with the rest of the file as it was |
| Sequential.ExactClusters | src/gristle.c:1464-1481 | a chain not allocated ahead has exactly the clusters its bytes need, rounded up |
| Sequential.LeastClusters | src/gristle.c:1464-1481 | that number is the least one with room for the bytes |
| Sequential.FillDirectory | src/gristle.c:1892-1913 | entries written from the start of a new directory, as many bytes as its cluster has, become its content and leave it that one cluster |
| Sequential.WriteNew | src/gristle.c:1290-1486 | writing a new file in any pieces and closing it succeeds if and only if the clusters its bytes need and those in use are no more than the FAT has; it is then on disk with exactly those bytes and clusters, in a slot of its own or one that was empty in its directory |
| Sequential.TruncateAndClose | src/gristle.c:1363-1410 | a file truncated and closed without a write has a slot that names a free cluster |
| Dirents.ListingExact | src/gristle.c:1608-1631 | a listing is, in order and once each, the entries before the first nameless one that are not deleted, labels or long-name parts |
| Dirents.GetNextDirent | src/gristle.c:1605-1632 | the next entry of that listing, or -1 at its end; no entry straddles a refill and nothing is written |
| Dirents.List | src/gristle.c:1605-1632 | repeated calls yield exactly the listing |
| Dirents.CutListing | src/gristle.c:1608-1631 | a listing of the first bytes is the whole listing if an entry without a name is among them; otherwise the rest is listed behind it |
| Listings.ListedExactly | src/gristle.c:1608-1631 | the listing is, in their order, the entries that start neither with 0 nor with 0xE5, lack the label bit and have no entry starting with 0 in front |
| Listings.NumberListed | src/gristle.c:1624-1628 | the inode number of a listed entry is its first cluster, of which FAT16 has 16 bits |
| Listings.MarkDeleted | src/gristle.c:1620-1668 | marking an entry with 0xE5 takes it out of the listing and leaves all others in |
| Listings.EntryAdded | src/gristle.c:714-763 | an entry written over the first unused one is listed behind those that were listed |
| Listings.DirectoryByte | src/gristle.c:1412-1447 | the bytes of a directory are those of the sectors of its walk, one after the other |
| Listings.DeleteListed | src/gristle.c:1663-1674 | after FileS.Delete of a slot of a directory the listing is the old one without that entry |
| Listings.SaveListed | src/gristle.c:666-763 | after FileS.SaveInfo of a new file its directory lists, behind what it listed before, an entry with the name, attributes, first cluster and size of the file |
| Dirents.RootListing | src/gristle.c:533-538 | a listing of the fixed root directory is its own entries if and only if one is unused or the sector behind it lists nothing |
| Dirents.ListRoot | src/gristle.c:1605-1632 | as many names as the fixed root directory has entries to show are found in that case only; its own come first |
| Example.RootOverrun | src/gristle.c:533-538 | a root directory of 32 entries in use is listed with 48 |
| Example.FirstTaken | src/gristle.c:383-430 | an instance on FAT32: with entries 0 to 2 in use cluster 3 is taken, and bytes 12 to 15 of the FAT become its end mark |
| Example.SeekToEnd | src/gristle.c:1588-1602 | an instance of a seek that reports success and leaves the descriptor on a sector of the FAT |
| Example.SizeThenRead | src/gristle.c:1430-1602 | a reader of the same file asks for the size with a seek to the end, reads nothing there, seeks back and reads the file |
| Example.ReadThenSeek | src/gristle.c:1555-1573 | a reader that has read that file and seeks to its end is told it is there, at position 0 with a sector of the FAT in its buffer |
| Example.AppendLost | src/gristle.c:1461-1483 | an instance of an append that reports success although its byte replaces the first one of a sector of the FAT |
| Example.CreationOverrun | src/gristle.c:724-740 | an instance of a full root directory whose search for an empty slot ends in a file's cluster |
| Names.FatnameToStr | src/gristle.c:291-317 | writes the base without spaces, and a dot and the extension if there is one |
| Names.StringOfName | src/gristle.c:291-317 | the eleven bytes of a plain name read as base, dot and extension |
| Names.DoscharMeaning | src/gristle.c:186-212 | the illegal characters are control characters, DEL and `" * + , : ; < = > ? [ ]` and the bar; letters become capitals, digits stay |
| Names.DoscharOf | src/gristle.c:186-212 | in characters: small letters become capitals, capitals, digits and the permitted marks stay, the other marks are illegal, and a backslash counts as a slash |
| Names.StrToFatname | src/gristle.c:319-380 | fails exactly when the short name meets an illegal character, and not on a string without one; otherwise stores the short name, within 13 bytes for every non-empty string; up to eight letters and digits become capitals |
| Names.ShortNameFails | src/gristle.c:336-372 | strings without illegal characters have a short name; one among the first six characters, before a dot, is fatal |
| Names.ShortNameLetters | src/gristle.c:352-363 | up to eight letters and digits become themselves in capitals, with a dot when there are eight |
| Names.ShortenedName | src/gristle.c:336-372 | a longer base with an extension becomes six capitals, "~1", a dot and three characters of the extension |
| Names.ShortNameOfText | src/gristle.c:319-380 | the short name of a plain name is its string, with a dot behind eight characters without extension |
| Names.MakeDosName | src/gristle.c:214-288 | a plain path element gives its eleven bytes, the element's end is found, and success means that a terminator follows and the first byte marks an entry in use |
| Names.PathElement | src/gristle.c:219-287 | the elements of a path end at a slash, a backslash or the end of the path |
| Names.LookupName | src/gristle.c:847-858 | a name that has been read back is looked up as the same eleven bytes if and only if its base has more than one letter, it has no extension, or byte 1 was a space before; all other bytes are always right |
| Names.RoundTripExact | src/gristle.c:225-235 | the bytes stored for a plain name are the name, but for byte 1 when the base has one letter and there is an extension |
| Md5.RotationTable | test/hash.c:40-43 | the 64 rotations listed are those of the four rounds of RFC 1321, section 3.4 |
| Md5Spec.RotateLeftBits | test/hash.c:37 | every rotation used takes bit i to bit i + s modulo 32 |
| Md5Spec.SelectorForms | test/hash.c:71-91 | the rewritten selectors of rounds 1 and 2 are F and G of RFC 1321, section 3.4 |
| Md5Spec.WordIndexForms | test/hash.c:71-107 | the word indices of the loops are those the four rounds of RFC 1321 list |
| Md5Spec.LengthFieldValue | test/hash.c:167-169 | the stored length decodes to the number of bits modulo 2^64 |
| Md5Spec.WordBytes | test/hash.c:77 | bits 8j to 8j + 7 of word k of a block are byte 4k + j |
| Md5Spec.SplitBits | test/hash.c:171 | byte j of a stored register is its bits 8j to 8j + 7 |
| Md5Spec.OutputBytes | test/hash.c:171 | the digest is the bytes of the registers in the order A, B, C, D |
| Md5Spec.InitialBytes | test/hash.c:121-127 | the registers start with the bytes of section 3.3 of RFC 1321 |
| Md5Vectors.EmptyDigest | test/hash.c:63-173 | the digest of the empty message is the one section A.5 of RFC 1321 lists, operation by operation |
| Md5Vectors.AbcDigest | test/hash.c:63-173 | the digest of "abc" is the one section A.5 of RFC 1321 lists, operation by operation |
| Md5.RoundStep | test/hash.c:71-114 | one turn of a loop, with its rotating registers, is one operation of section 3.4 |
| Md5.Context.Transform | test/hash.c:46-119 | the four loops, with the constants and rotations listed, compute the 64 operations of RFC 1321 for every state and block |
| Md5.Context.Start | test/hash.c:121-132 | a started context holds the empty message |
| Md5.Context.Update | test/hash.c:134-155 | a context that holds m holds m followed by the chunk, however the message was cut into chunks |
| Md5.Context.Finish | test/hash.c:157-173 | the digest is that of the padded message, in one block or two |
| Md5.MemoryDigest | test/hash.c:203-227 | cutting the memory into pieces of 1 MiB does not matter |
| Md5.FileDigest | test/hash.c:175-201 | reading the file piece by piece does not matter |
| Ext2Inode.PlacesApart | src/embext.c:156-192 | different inodes have places without a common byte |
| Ext2Inode.StoreThenLoad | src/embext.c:156-192 | a stored inode loads as it was stored and every other inode loads as before |
| Ext2Inode.LoadThenStore | src/embext.c:416-454 | storing what is there changes nothing |
| Ext2Inode.InodeAddress | src/embext.c:426-438 | the 32-bit computation gives the place of the inode |
| Ext2Inode.NumberSplit | src/embext.c:419-420 | an inode number is its group times the inodes per group, plus its index, plus 1 |
| Ext2Inode.NumberJoin | src/embext.c:419-420 | that determines group and index |
| Ext2Inode.TableBlock | src/embext.c:422-432 | the block of an inode table is the third number of the 32-byte descriptor of its group, in the block behind the superblock |
| Ext2Inode.InodeSpan | src/embext.c:416-438 | inode i of group b is the 128 bytes of the device that begin i inode sizes behind the start of the table's block |
| Ext2Inode.FirstBlock | src/embext.h:90-103 | in an inode written field after field the first block number is where the program reads it |
| Ext2Inode.FileEnt.FlushInode | src/embext.c:156-192 | stores the inode in the bytes of its group and index, clears the flag and leaves every other inode alone |
| Ext2Inode.FileEnt.OpenInode | src/embext.c:416-454 | loads the inode from the bytes of its group and index and buffers the first sector of its first block |
| Ext2Super.IsPower | src/embext.c:530-536 | for x of at least 1 the loop ends and tells whether x is a power of p |
| Ext2Super.Superblocks | src/embext.c:559-585 | the two passes agree, every slot is written once, the list is strictly increasing and names the selected groups |
| Ext2Super.GroupsCover | src/embext.c:559-563 | every block lies in one of the groups counted, and none of them is empty |
| Ext2Super.CopyPlaced | src/embext.c:576 | a copy is in the first block of its group |
| Ext2Super.SelectedGroups | src/embext.c:561-565 | the condition as written selects groups 0, 1, 3, 5 and 7 only |
| Ext2Super.ListExact | src/embext.c:559-576 | the list is 0, 1 and the powers of 3, 5 and 7 if and only if there are at most nine groups |
| Ext2Super.MissedGroup | src/embext.c:561-563 | group 9 ought to hold a copy and is not selected |

## Left out

- Device failures: reads and writes of existing sectors succeed, so the recovery branches for I/O errors have no states to act on.
- Timestamps: dates are opaque bytes, carried along; the clock is a parameter. The driver's conversions, of which the one at src/gristle.c:948 takes the time of the last change from the date, are not modelled.
- Further copies of the FAT: the driver never writes them, and the model has only the active one.
- Path look-up, fat_mkdir, fat_rmdir, fat_unlink's path handling and the errno choices of fat_open: plumbing around the members above.
- Directories that grow, and the closing of a directory: reads and writes of a directory open for writing stay in front of its end.
- A full parent directory that is a cluster chain, while a file is created: the search would extend the directory through the file's own descriptor, so a writable file without an entry asks for an empty slot (`Roomy`). A full fixed root is treated in SaveInfo only; a search that runs on behind it for more than a sector is not.
- Fixed root directories of 256 or more sectors: sectors_left is one byte wide.
- The locks, tracing, fat_fstat, src/partition.c and the block drivers.
- Sessions.RunRefines: a seek or append that does not arrive, a second open of a file that is open, and opening or deleting a file that was truncated and closed without a byte are not steps of a run; what they do is proved call by call (FileS.Lseek, Write, Close). That names in a directory differ is not stated.
- Driver.Files.Open: the result of the path look-up is an argument; when the file is to be truncated, links in the FAT stay in range.
- Driver.Files.Create: that no entry has the name, which the look-up finds out, is not checked.
- Driver.Files.Unlink: the result of the path look-up is an argument, and links in the FAT stay in range, as the freeing of clusters asks for.
- Driver.Files.Write: for appends that arrive; sizes stay below 2^31. Other appends are left to File.FileS.Write.
- Driver.Files.Lseek: for seeks that arrive or are refused. Others are left to File.FileS.Lseek.
- File.FileS.Write: an append that leaves the file is modelled up to 512 bytes; further ones are written to sectors that follow the one it has strayed to, over whatever they hold.
- Block.Device.BlockRead: an input error on a sector that exists does not occur.
- Block.Device.BlockWrite: an output error on a sector that exists does not occur.
- Names.MakeDosName: the bytes stored for elements that are not plain names, of which only the first is described.
- File.FileS.Lseek: for regular files only; on directories the driver does not check the target.
- Names.LookupName: the names `.` and `..`, a leading dot and a one-letter base with a bare dot are not plain names.
- Ext2Inode.FileEnt.FlushInode: the shift counts are those of ext2, below 32; block allocation, indirect blocks, ext2_lseek, ext2_write and the rewriting of superblocks are not modelled.
- Md5.Context.Update: chunks of more than 2^64 - 64 bytes, whose length would wrap in the comparison.
- Ext2Super.IsPower: x = 0 and p = 1, for which the loop of the program does not end.
