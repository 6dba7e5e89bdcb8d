/** machine/disk.cc as code: the simulated disk, its head and its track buffer. */
module DiskCode {
  import opened Bytes
  import opened DiskTiming
  import Devices

  class Disk {
    const sectors: array<seq<byte>>
    var active: bool
    var lastSector: Sector
    var bufferInit: nat

    ghost predicate Valid()
      reads this, sectors
    {
      sectors.Length == NUM_SECTORS
    }

    function CurrentHead(): Head
      reads this
    {
      Head(lastSector, bufferInit)
    }

    /** The sectors, as the protocol sees them. */
    ghost function Contents(): map<nat, seq<byte>>
      reads this, sectors
      requires Valid()
    {
      map n: nat | n < NUM_SECTORS :: sectors[n]
    }

    constructor (image: seq<seq<byte>>)
      requires |image| == NUM_SECTORS
      ensures Valid() && !active && CurrentHead() == Head(0, 0) && sectors[..] == image && fresh(sectors)
    {
      sectors := new seq<byte>[NUM_SECTORS](i requires 0 <= i < NUM_SECTORS => image[i]);
      active, lastSector, bufferInit := false, 0, 0;
    }

    method UpdateLast(newSector: Sector, now: nat)
      modifies this`lastSector, this`bufferInit
      ensures CurrentHead() == DiskTiming.UpdateLast(old(CurrentHead()), newSector, now)
    {
      var (seek, rotate) := TimeToSeek(CurrentHead(), newSector, now);
      if seek != 0 {
        bufferInit := now + seek + rotate;
      }
      lastSector := newSector;
    }

    /** The sector's data, and in how many ticks the interrupt will come. */
    method ReadRequest(sectorNumber: Sector, now: nat) returns (data: seq<byte>, ticks: nat)
      requires Valid() && !active
      modifies this
      ensures Valid() && active && ticks == ComputeLatency(old(CurrentHead()), sectorNumber, false, now)
      ensures CurrentHead() == DiskTiming.UpdateLast(old(CurrentHead()), sectorNumber, now)
      ensures (Contents(), data) == Devices.Transfer(old(Contents()), Devices.ReadSector(sectorNumber))
      ensures 500 <= ticks <= 31999
    {
      LatencyBounds(CurrentHead(), sectorNumber, false, now);
      ticks := ComputeLatency(CurrentHead(), sectorNumber, false, now);
      data := sectors[sectorNumber];
      active := true;
      UpdateLast(sectorNumber, now);
      assert Contents() == old(Contents()) && Contents()[sectorNumber as nat] == data;
    }

    method WriteRequest(sectorNumber: Sector, data: seq<byte>, now: nat) returns (ticks: nat)
      requires Valid() && !active
      modifies this, sectors
      ensures Valid() && active && ticks == ComputeLatency(old(CurrentHead()), sectorNumber, true, now)
      ensures CurrentHead() == DiskTiming.UpdateLast(old(CurrentHead()), sectorNumber, now)
      ensures (Contents(), []) == Devices.Transfer(old(Contents()), Devices.WriteSector(sectorNumber, data))
      ensures 500 <= ticks <= 31999
    {
      LatencyBounds(CurrentHead(), sectorNumber, true, now);
      ticks := ComputeLatency(CurrentHead(), sectorNumber, true, now);
      sectors[sectorNumber] := data;
      active := true;
      UpdateLast(sectorNumber, now);
      assert Contents() == old(Contents())[sectorNumber as nat := data];
    }

    /** The disk interrupt, before the driver is told. */
    method CallBack()
      requires Valid()
      modifies this`active
      ensures Valid() && !active && CurrentHead() == old(CurrentHead())
    {
      active := false;
    }
  }
}
