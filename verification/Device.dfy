/** The device behind ata_read and ata_write: one sector per call. */
module Device {
  import opened Bytes
  import opened Layout

  class AtaDisk {
    var blocks: Disk
    /** Every sector written so far, in order. */
    ghost var log: seq<Write>

    constructor (initial: Disk)
      ensures blocks == initial && log == []
    {
      blocks := initial;
      log := [];
    }

    /** Fails, without effect, for a sector that is not on the device. */
    method Read(lba: int, buf: array<Byte>, at: nat) returns (rc: int)
      requires at + SECTOR_SIZE <= buf.Length
      modifies buf
      ensures rc == if 0 <= lba < |blocks| then 0 else -1
      ensures buf[..at] == old(buf[..at]) && buf[at + SECTOR_SIZE..] == old(buf[at + SECTOR_SIZE..])
      ensures buf[at..at + SECTOR_SIZE] == if rc == 0 then blocks[lba] else old(buf[at..at + SECTOR_SIZE])
    {
      if !(0 <= lba < |blocks|) {
        return -1;
      }
      var sec := blocks[lba];
      forall k | 0 <= k < SECTOR_SIZE {
        buf[at + k] := sec[k];
      }
      rc := 0;
    }

    method Write(lba: int, buf: array<Byte>, at: nat) returns (rc: int)
      requires at + SECTOR_SIZE <= buf.Length
      modifies this
      ensures rc == if 0 <= lba < |old(blocks)| then 0 else -1
      ensures rc != 0 ==> blocks == old(blocks) && log == old(log)
      ensures rc == 0 ==> var w := Layout.Write(lba, buf[at..at + SECTOR_SIZE]);
        blocks == Put(old(blocks), w) && log == old(log) + [w]
    {
      if !(0 <= lba < |blocks|) {
        return -1;
      }
      var sec: Sector := buf[at..at + SECTOR_SIZE];
      blocks := blocks[lba := sec];
      log := log + [Layout.Write(lba, sec)];
      rc := 0;
    }
  }
}
