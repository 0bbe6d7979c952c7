/** The block device: a fixed number of 512-byte sectors. */
module Block {
  import opened Bytes
  import opened Layout

  class Device {
    var disk: Disk

    ghost predicate Valid()
      reads this
    {
      ValidDisk(disk) && |disk| <= 0x1_0000_0000
    }

    /** Copies a sector into buf; fails without touching buf when there is no such sector. */
    method BlockRead(block: nat, buf: array<byte>) returns (err: bool)
      requires Valid() && buf.Length == 512
      modifies buf
      ensures err <==> block >= |disk|
      ensures !err ==> buf[..] == disk[block]
      ensures err ==> buf[..] == old(buf[..])
    {
      if block >= |disk| {
        return true;
      }
      var s := disk[block];
      forall k | 0 <= k < 512 {
        buf[k] := s[k];
      }
      return false;
    }

    /** Stores buf in a sector; no other sector changes. */
    method BlockWrite(block: nat, buf: array<byte>) returns (err: bool)
      requires Valid() && buf.Length == 512
      modifies this
      ensures Valid()
      ensures err <==> block >= |old(disk)|
      ensures err ==> disk == old(disk)
      ensures !err ==> disk == old(disk)[block := buf[..]]
    {
      if block >= |disk| {
        return true;
      }
      disk := disk[block := buf[..]];
      return false;
    }
  }
}
