/** The mutable disk, which remembers every state it went through, and the frame cursor that writes to it. */
module Devices {
  import opened Basics
  import opened Frames
  import opened State
  import opened Disk

  class Device {
    var disk: Disk
    /** Every state the disk has had since this object was made, oldest first. */
    ghost var history: seq<Disk>

    constructor (disk: Disk)
      ensures this.disk == disk && history == []
    {
      this.disk := disk;
      history := [];
    }

    /** `create_segment`: fails on an existing file; the empty file exists before its magic is written. */
    method CreateSegment(id: SegmentId) returns (ok: bool)
      modifies this
      ensures ok <==> id !in old(disk).segments
      ensures !ok ==> disk == old(disk) && history == old(history)
      ensures ok ==> disk == WithSegment(old(disk), id, SEGMENT_MAGIC)
      ensures ok ==> history == old(history) + [WithSegment(old(disk), id, []), disk]
    {
      if id in disk.segments {
        return false;
      }
      ghost var created := WithSegment(disk, id, []);
      disk := WithSegment(disk, id, []);
      history := history + [created];
      disk := WithSegment(disk, id, SEGMENT_MAGIC);
      history := history + [disk];
      assert disk == WithSegment(old(disk), id, SEGMENT_MAGIC);
      ok := true;
    }

    method WriteSegment(id: SegmentId, pos: nat, data: seq<byte>)
      requires id in disk.segments
      modifies this
      ensures disk == WithSegment(old(disk), id, WriteAt(old(disk).segments[id], pos, data))
      ensures history == old(history) + [disk]
    {
      disk := WithSegment(disk, id, WriteAt(disk.segments[id], pos, data));
      history := history + [disk];
    }

    method ResizeSegment(id: SegmentId, n: nat)
      requires id in disk.segments
      modifies this
      ensures disk == WithSegment(old(disk), id, SetLen(old(disk).segments[id], n))
      ensures history == old(history) + [disk]
    {
      disk := WithSegment(disk, id, SetLen(disk.segments[id], n));
      history := history + [disk];
    }

    /** `delete_segment`: a missing file is no error. */
    method DeleteSegment(id: SegmentId)
      modifies this
      ensures disk == WithoutSegment(old(disk), id)
      ensures history == old(history) + [disk]
    {
      disk := WithoutSegment(disk, id);
      history := history + [disk];
    }

    method WriteManifest(pos: nat, data: seq<byte>)
      modifies this
      ensures disk == old(disk).(manifest := WriteAt(old(disk).manifest, pos, data))
      ensures history == old(history) + [disk]
    {
      disk := disk.(manifest := WriteAt(disk.manifest, pos, data));
      history := history + [disk];
    }

    method ResizeManifest(n: nat)
      modifies this
      ensures disk == old(disk).(manifest := SetLen(old(disk).manifest, n))
      ensures history == old(history) + [disk]
    {
      disk := disk.(manifest := SetLen(disk.manifest, n));
      history := history + [disk];
    }
  }

  /** Frames buffered in memory and the byte offset they go to. */
  class FrameCursor {
    var buffer: seq<byte>
    var position: nat

    constructor (position: nat)
      ensures this.position == position && buffer == []
    {
      this.position := position;
      buffer := [];
    }

    /** Buffered bytes stay; only where they will go changes. */
    method SetPosition(pos: nat)
      modifies this`position
      ensures position == pos
    {
      position := pos;
    }

    /** Append one frame to the buffer, field by field. */
    method Write(id: u64, payload: seq<byte>)
      modifies this`buffer
      ensures buffer == old(buffer) + Encode(RawFrame.Frame(id, payload))
    {
      buffer := buffer + BigEndian(id, 8);
      buffer := buffer + BigEndian(|payload| % U32_LIMIT, 4);
      buffer := buffer + BigEndian(CHECKSUM(id, payload), 8);
      buffer := buffer + payload;
    }

    method FlushToSegment(device: Device, id: SegmentId)
      requires id in device.disk.segments
      modifies this, device
      ensures buffer == [] && position == old(position) + |old(buffer)|
      ensures device.disk == WithSegment(old(device.disk), id, WriteAt(old(device.disk).segments[id], old(position), old(buffer)))
      ensures device.history == old(device.history) + [device.disk]
    {
      device.WriteSegment(id, position, buffer);
      position := position + |buffer|;
      buffer := [];
    }

    method FlushToManifest(device: Device)
      modifies this, device
      ensures buffer == [] && position == old(position) + |old(buffer)|
      ensures device.disk == old(device.disk).(manifest := WriteAt(old(device.disk).manifest, old(position), old(buffer)))
      ensures device.history == old(device.history) + [device.disk]
    {
      device.WriteManifest(position, buffer);
      position := position + |buffer|;
      buffer := [];
    }
  }
}
