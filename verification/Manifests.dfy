/** Writing manifest records and replaying a manifest, step by step. */
module Manifests {
  import opened Basics
  import opened Frames
  import opened State
  import opened Codec
  import opened Disk
  import opened Devices
  import opened Scanner

  /** `write_op`: encode, buffer, flush. */
  method WriteOp(cursor: FrameCursor, device: Device, entry: ManifestOp)
    requires cursor.buffer == []
    modifies cursor, device
    ensures var bytes := Encode(RecordFrame(entry));
      && cursor.buffer == [] && cursor.position == old(cursor.position) + |bytes|
      && device.disk == old(device.disk).(manifest := WriteAt(old(device.disk).manifest, old(cursor.position), bytes))
      && device.history == old(device.history) + [device.disk]
  {
    hide Encode, WriteAt, Fields, Lawful;
    var fields := EncodeFields(entry);
    var payload := YATLV.pack(fields);
    assert RecordFrame(entry) == RawFrame.Frame(0, payload);
    ghost var bytes := Encode(RawFrame.Frame(0, payload));
    cursor.Write(0, payload);
    assert [] + bytes == bytes;
    cursor.FlushToManifest(device);
  }

  lemma ReplayUnfolds(data: seq<byte>, c: nat, s: State)
    requires c <= |data|
    ensures |data| < c + HEADER_LEN ==> ReplayFrom(data, c, s) == Replayed(s, c)
    ensures c + HEADER_LEN <= |data| ==>
      var next := c + HEADER_LEN + HeaderAt(data, c).len;
      && (|data| < next ==> ReplayFrom(data, c, s) == ReadFailed)
      && (next <= |data| ==>
            var entry := DecodeBytes(data[c + HEADER_LEN..next]);
            && (entry.Failure? ==> ReplayFrom(data, c, s) == BadRecord(c))
            && (entry.Success? ==>
                  var t := Applied(s, entry.value);
                  && (t.Failure? ==> ReplayFrom(data, c, s) == BadRecord(c))
                  && (t.Success? ==> ReplayFrom(data, c, s) == ReplayFrom(data, next, t.value))))
  {
    hide DecodeBytes, Applied, HeaderAt;
  }

  /** No record has an empty payload, so the scanner's position keeps up with its reader. */
  lemma NoEmptyRecord()
    ensures DecodeBytes([]).Failure?
  {
  }

  /** `replay`: decode and apply record by record, on an object that is changed in place. */
  method ReplayAll(data: seq<byte>, offset: nat) returns (r: Replay)
    requires offset <= |data|
    ensures r == ReplayFrom(data, offset, EMPTY)
  {
    hide HeaderAt, ReplayFrom, DecodeBytes, Applied;
    var scanner := new FrameScanner(data, offset, offset);
    var state := new StoreState();
    var next := offset;
    while true
      invariant fresh(scanner) && fresh(state) && scanner.data == data
      invariant next <= |data| && scanner.View() == ScannerState(data, next, next, None)
      invariant ReplayFrom(data, next, state.View()) == ReplayFrom(data, offset, EMPTY)
      decreases |data| - next
    {
      ReplayUnfolds(data, next, state.View());
      var step := scanner.Read();
      if step.Failure? || step.value.None? {
        break;
      }
      var reader := step.value.value;
      var payload := reader.ReadToEnd();
      if payload.Failure? {
        return ReadFailed;
      }
      NoEmptyRecord();
      var entry := DecodeBytes(payload.value);
      if entry.Failure? {
        return BadRecord(reader.frameStart);
      }
      var applied := state.Apply(entry.value);
      if applied.Failure? {
        return BadRecord(reader.frameStart);
      }
      assert payload.value != [] && |payload.value| == reader.payloadLen;
      reader.Drop();
      next := scanner.position;
    }
    r := Replayed(state.View(), next);
  }
}
