/** The lending iterator over entries: one scanner at a time, replaced when its segment is exhausted. */
module Readers {
  import opened Basics
  import opened Frames
  import opened State
  import opened StateLaws
  import opened Disk
  import opened Index
  import opened Reading
  import opened Scanner
  import opened ScannerLaws
  import opened Stores

  /** All that is still to come from offset `c` of a segment's file. */
  function RestOf(d: Disk, segs: seq<Segment>, id: SegmentId, data: seq<byte>, c: nat): Read
    requires c <= |data|
  {
    var r := ReadFrom(data, c);
    if !r.intact then r
    else
      match PositionOf(segs, id)
      case None => r
      case Some(i) =>
        var later := ReadSegments(d, segs[i + 1..]);
        Read(r.frames + later.frames, later.intact)
  }

  /** What `next` hands out: the end, an error, or a reader for the next entry. */
  datatype Next = Finished | Failing | Entry(reader: FrameReader)

  class StoreReader {
    const store: Store
    var current: SegmentId
    var scanner: FrameScanner?

    ghost predicate Valid()
      reads this, scanner, store, store.state, store.manifestCursor, store.activeCursor
    {
      && store.Valid() && DistinctIds(store.state.segments)
      && (scanner != null ==> scanner.View().Ok())
    }

    ghost function Rest(): Read
      requires Valid()
      reads this, scanner, store, store.state, store.manifestCursor, store.activeCursor, store.device
    {
      if scanner == null then Read([], true)
      else RestOf(store.device.disk, store.state.segments, current, scanner.data, scanner.View().Boundary())
    }

    /** `scan`: clamp to the head, stop early when nothing is there, else seek within the start segment. */
    constructor (store: Store, from: EntryId)
      requires store.Valid() && DistinctIds(store.state.segments) && store.state.segments != []
      ensures this.store == store && Valid() && Rest() == Scanned(store.Now(), from)
      ensures scanner != null ==> fresh(scanner)
    {
      hide ReadFrom, SeekFrom, ReadSegments, PositionOf, Floor, OpenSegment, Seeking, DistinctIds;
      this.store := store;
      current := 0;
      scanner := null;
      new;
      var head := store.FirstEntryId();
      var target := if from < head then head else from;
      assert target == Clamped(store.Now().mem, from);
      var last := store.LastEntryId();
      if last.None? || target > last.value {
        return;
      }
      var found := store.index.Find(target);
      var id, offset := store.state.segments[0].id, MAGIC_LEN;
      if found.Some? {
        id, offset := found.value.segment, found.value.offset;
      }
      assert id == ScanStart(store.Now().mem, target);
      var file := OpenSegment(store.device.disk, id);
      if file.None? {
        return;
      }
      OpenedHasMagic(store.device.disk, id);
      var s := new FrameScanner(file.value, MAGIC_LEN, offset);
      SeekAgrees(s.View(), target);
      var sought := s.SeekToId(target);
      if sought.Failure? {
        return;
      }
      current := id;
      scanner := s;
    }

    /** `next`: the next entry of the current segment, or the first one of the segments behind it. */
    method Next() returns (r: Next)
      requires Valid()
      modifies this`current, this`scanner, scanner
      ensures Valid() && (scanner == old(scanner) || scanner == null || fresh(scanner))
      ensures r.Finished? ==> old(Rest()) == Read([], true)
      ensures r.Failing? ==> old(Rest()) == Read([], false)
      ensures r.Entry? ==>
        && scanner != null && fresh(r.reader) && r.reader.scanner == scanner && scanner.peeked == None
        && r.reader.remaining == r.reader.payloadLen && r.reader.frameStart == scanner.position
        && old(Rest()) == BehindHeader(store.device.disk, store.state.segments, current, scanner.data, scanner.cursor,
                                       r.reader.id, r.reader.payloadLen)
    {
      hide ReadFrom, ReadSegments, PositionOf, OpenSegment, HeaderAt, DistinctIds;
      ghost var d, segs, want := store.device.disk, store.state.segments, Rest();
      while scanner != null
        invariant Valid() && Rest() == want
        invariant scanner == old(scanner) || scanner == null || fresh(scanner)
        decreases if scanner == null then 0 else Ahead(segs, current)
      {
        var data := scanner.data;
        ghost var c := scanner.View().Boundary();
        ReadFromUnfolds(data, c);
        var step := scanner.Read();
        if step.Failure? {
          return Failing;
        }
        if step.value.Some? {
          HeaderRead(d, segs, current, data, c);
          return Entry(step.value.value);
        }
        MovesOn(d, segs, current, data);
        var pos := PositionOf(store.state.segments, current);
        scanner := null;
        if pos.None? || pos.value + 1 == |store.state.segments| {
          return Finished;
        }
        var id := store.state.segments[pos.value + 1].id;
        var file := OpenSegment(store.device.disk, id);
        if file.None? {
          return Failing;
        }
        OpenedHasMagic(store.device.disk, id);
        current := id;
        scanner := new FrameScanner(file.value, MAGIC_LEN, MAGIC_LEN);
      }
      r := Finished;
    }
  }

  /** How many segments can still come. */
  function Ahead(segs: seq<Segment>, id: SegmentId): nat {
    match PositionOf(segs, id)
    case None => 1
    case Some(i) => |segs| - i
  }

  /** What remains when a header has been read and its payload of `len` bytes starts at `c`. */
  function BehindHeader(d: Disk, segs: seq<Segment>, current: SegmentId, data: seq<byte>, c: nat, id: EntryId, len: u32): Read
    requires c <= |data|
  {
    if |data| < c + len then Read([], false)
    else
      var rest := RestOf(d, segs, current, data, c + len);
      Read([RawFrame.Frame(id, data[c..c + len])] + rest.frames, rest.intact)
  }

  lemma ReadFromUnfolds(data: seq<byte>, c: nat)
    requires c <= |data|
    ensures c == |data| ==> ReadFrom(data, c) == Read([], true)
    ensures c < |data| < c + HEADER_LEN ==> ReadFrom(data, c) == Read([], false)
    ensures c + HEADER_LEN <= |data| ==>
      var h, body := HeaderAt(data, c), c + HEADER_LEN;
      && (|data| < body + h.len ==> ReadFrom(data, c) == Read([], false))
      && (body + h.len <= |data| ==>
            var r := ReadFrom(data, body + h.len);
            ReadFrom(data, c) == Read([RawFrame.Frame(h.id, data[body..body + h.len])] + r.frames, r.intact))
  {
    hide HeaderAt;
  }

  lemma HeaderRead(d: Disk, segs: seq<Segment>, current: SegmentId, data: seq<byte>, c: nat)
    requires c + HEADER_LEN <= |data|
    ensures var h := HeaderAt(data, c);
      RestOf(d, segs, current, data, c) == BehindHeader(d, segs, current, data, c + HEADER_LEN, h.id, h.len)
  {
    hide HeaderAt, ReadFrom, ReadSegments, PositionOf;
    ReadFromUnfolds(data, c);
    var h, body := HeaderAt(data, c), c + HEADER_LEN;
    if body + h.len <= |data| {
      var f: Frame, r := RawFrame.Frame(h.id, data[body..body + h.len]), ReadFrom(data, body + h.len);
      if r.intact && PositionOf(segs, current).Some? {
        var later := ReadSegments(d, segs[PositionOf(segs, current).value + 1..]);
        assert ([f] + r.frames) + later.frames == [f] + (r.frames + later.frames);
      }
    }
  }

  /** At the end of a segment, what remains is what the next one starts with. */
  lemma MovesOn(d: Disk, segs: seq<Segment>, current: SegmentId, data: seq<byte>)
    requires DistinctIds(segs)
    ensures var rest, pos := RestOf(d, segs, current, data, |data|), PositionOf(segs, current);
      && (pos.None? || pos.value + 1 == |segs| ==> rest == Read([], true))
      && (pos.Some? && pos.value + 1 < |segs| ==>
            var id := segs[pos.value + 1].id;
            && PositionOf(segs, id) == Some(pos.value + 1)
            && (OpenSegment(d, id).None? ==> rest == Read([], false))
            && (OpenSegment(d, id).Some? ==>
                  && |OpenSegment(d, id).value| >= MAGIC_LEN
                  && rest == RestOf(d, segs, id, OpenSegment(d, id).value, MAGIC_LEN)))
  {
    hide ReadFrom, PositionOf, DistinctIds;
    ReadFromUnfolds(data, |data|);
    var pos := PositionOf(segs, current);
    if pos.Some? {
      var later := ReadSegments(d, segs[pos.value + 1..]);
      assert [] + later.frames == later.frames;
      if pos.value + 1 < |segs| {
        PositionAt(segs, pos.value + 1);
        assert segs[pos.value + 1..][1..] == segs[pos.value + 2..];
      }
    }
  }

  lemma OpenedHasMagic(d: Disk, id: SegmentId)
    requires OpenSegment(d, id).Some?
    ensures |OpenSegment(d, id).value| >= MAGIC_LEN
  {
  }

  /** The payload of an entry that `next` has handed out, read to its end; the reader then owes the rest. */
  method ReadEntry(reader: StoreReader, entry: FrameReader) returns (r: Option<Frame>)
    requires reader.Valid() && reader.scanner != null && entry.scanner == reader.scanner && reader.scanner.peeked == None
    requires entry.remaining == entry.payloadLen && entry.frameStart == reader.scanner.position
    modifies entry`remaining, reader.scanner
    ensures reader.Valid()
    ensures var owed := old(BehindHeader(reader.store.device.disk, reader.store.state.segments, reader.current,
                                         reader.scanner.data, reader.scanner.cursor, entry.id, entry.payloadLen));
      && (r.None? ==> owed == Read([], false))
      && (r.Some? ==> owed == Read([r.value] + reader.Rest().frames, reader.Rest().intact))
  {
    hide RestOf, DistinctIds, HeaderAt;
    var payload := entry.ReadToEnd();
    if payload.Failure? {
      return None;
    }
    entry.Drop();
    r := Some(RawFrame.Frame(entry.id, payload.value));
  }

  lemma AfterEntry(got: seq<Frame>, before: Read, f: Frame, after: Read)
    requires before == Read([f] + after.frames, after.intact)
    ensures got + before.frames == (got + [f]) + after.frames
  {
  }

  /** A caller reading everything a scan yields, payloads included. */
  method Collect(store: Store, from: EntryId) returns (r: Read)
    requires store.Valid() && DistinctIds(store.state.segments) && store.state.segments != []
    ensures r == Scanned(store.Now(), from)
  {
    hide Scanned, RestOf, DistinctIds;
    var reader := new StoreReader(store, from);
    ghost var want := Scanned(store.Now(), from);
    var got: seq<Frame> := [];
    assert got + reader.Rest().frames == reader.Rest().frames;
    while true
      invariant fresh(reader) && reader.store == store && reader.Valid()
      invariant reader.scanner != null ==> fresh(reader.scanner)
      invariant want == Read(got + reader.Rest().frames, reader.Rest().intact)
      decreases |reader.Rest().frames|
    {
      ghost var rest := reader.Rest();
      var next := reader.Next();
      match next {
        case Finished =>
          assert got + [] == got;
          return Read(got, true);
        case Failing =>
          assert got + [] == got;
          return Read(got, false);
        case Entry(entry) =>
          var read := ReadEntry(reader, entry);
          if read.None? {
            assert got + [] == got;
            return Read(got, false);
          }
          AfterEntry(got, rest, read.value, reader.Rest());
          got := got + [read.value];
      }
    }
  }
}
