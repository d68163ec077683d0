/** The abstract disk: one manifest byte string and a byte string per segment file, with the primitive steps
    that change them, and what replaying the manifest bytes yields. */
module Disk {
  import opened Basics
  import opened Frames
  import opened State
  import opened Codec

  const MAGIC_LEN := 8

  type Magic = s: seq<byte> | |s| == MAGIC_LEN witness [0, 0, 0, 0, 0, 0, 0, 0]

  const SEGMENT_MAGIC: Magic := [0xff, 0x57, 0x44, 0x53, 0x45, 0x47, 0x4d, 0x01]
  const MANIFEST_MAGIC: Magic := [0xff, 0x57, 0x44, 0x4d, 0x4e, 0x46, 0x54, 0x01]

  datatype Disk = Disk(manifest: seq<byte>, segments: map<SegmentId, seq<byte>>)

  // ── Primitive steps ─────────────────────────────────────────────────────────

  function Zeros(n: nat): (s: seq<byte>)
    ensures |s| == n
  {
    seq(n, _ => 0)
  }

  function SetLen(file: seq<byte>, n: nat): (s: seq<byte>)
    ensures |s| == n
  {
    if n <= |file| then file[..n] else file + Zeros(n - |file|)
  }

  /** `write_all_at`: bytes before `pos` and behind the written range stay; a gap is filled with zeros. */
  function WriteAt(file: seq<byte>, pos: nat, data: seq<byte>): seq<byte> {
    SetLen(file, pos) + data + if pos + |data| < |file| then file[pos + |data|..] else []
  }

  function WithSegment(d: Disk, id: SegmentId, file: seq<byte>): Disk {
    d.(segments := d.segments[id := file])
  }

  function WithoutSegment(d: Disk, id: SegmentId): Disk {
    d.(segments := d.segments - {id})
  }

  /** `open_segment`: the file must exist and start with the magic. */
  function OpenSegment(d: Disk, id: SegmentId): Option<seq<byte>> {
    if id in d.segments && SEGMENT_MAGIC <= d.segments[id] then Some(d.segments[id]) else None
  }

  // ── Files that hold whole frames ────────────────────────────────────────────

  function FileOf(magic: Magic, fs: seq<RawFrame>): (s: seq<byte>)
    ensures |s| == MAGIC_LEN + SizeOf(fs)
  {
    magic + EncodeAll(fs)
  }

  function Image(fs: seq<RawFrame>): (s: seq<byte>)
    ensures |s| == MAGIC_LEN + SizeOf(fs)
  {
    FileOf(SEGMENT_MAGIC, fs)
  }

  lemma FileOfBody(magic: Magic, fs: seq<RawFrame>)
    ensures FileOf(magic, fs)[MAGIC_LEN..] == EncodeAll(fs)
    ensures magic <= FileOf(magic, fs)
  {
  }

  lemma FileOfWalk(magic: Magic, fs: seq<Frame>)
    ensures Walk(FileOf(magic, fs), MAGIC_LEN) == Walked(fs, MAGIC_LEN + SizeOf(fs), Clean)
  {
    hide *;
    FileOfBody(magic, fs);
    WalkRoundTrip(FileOf(magic, fs), MAGIC_LEN, fs);
  }

  lemma WriteAtEnd(file: seq<byte>, data: seq<byte>)
    ensures WriteAt(file, |file|, data) == file + data
  {
    assert file[..|file|] == file;
  }

  lemma ConcatAssoc<T>(a: seq<T>, b: seq<T>, c: seq<T>)
    ensures (a + b) + c == a + (b + c)
  {
  }

  lemma FileOfAppend(magic: Magic, fs: seq<RawFrame>, more: seq<RawFrame>)
    ensures WriteAt(FileOf(magic, fs), MAGIC_LEN + SizeOf(fs), EncodeAll(more)) == FileOf(magic, fs + more)
  {
    EncodeAllConcat(fs, more);
    WriteAtEnd(FileOf(magic, fs), EncodeAll(more));
    hide EncodeAll, WriteAt;
    ConcatAssoc(magic, EncodeAll(fs), EncodeAll(more));
  }

  lemma FileOfTake(magic: Magic, fs: seq<RawFrame>, n: nat)
    requires n <= |fs|
    ensures MAGIC_LEN + SizeOf(fs[..n]) <= |FileOf(magic, fs)|
    ensures SetLen(FileOf(magic, fs), MAGIC_LEN + SizeOf(fs[..n])) == FileOf(magic, fs[..n])
  {
    SizeOfSplit(fs, n);
    var file := FileOf(magic, fs);
    assert file == FileOf(magic, fs[..n]) + EncodeAll(fs[n..]);
  }

  /** Whatever follows the magic, the part a walk accepts is the image of the frames it returned. */
  lemma WalkedPart(magic: Magic, file: seq<byte>)
    requires magic <= file
    ensures var w := Walk(file, MAGIC_LEN);
      w.end == MAGIC_LEN + SizeOf(w.frames) && SetLen(file, w.end) == FileOf(magic, w.frames)
  {
    var w := Walk(file, MAGIC_LEN);
    WalkIsEncoding(file, MAGIC_LEN);
    SliceSplit(file, 0, MAGIC_LEN, w.end);
    assert file[0..MAGIC_LEN] == magic;
  }

  // ── Replay ──────────────────────────────────────────────────────────────────

  datatype Replay = Replayed(state: State, next: nat) | BadRecord(offset: nat) | ReadFailed

  /** `replay`: decode and apply without checksums.  A tail shorter than a header ends the replay; a header
      whose payload is cut short is an I/O error. */
  function ReplayFrom(data: seq<byte>, c: nat, s: State): Replay
    requires c <= |data|
    decreases |data| - c
  {
    if |data| < c + HEADER_LEN then Replayed(s, c)
    else
      var next := c + HEADER_LEN + HeaderAt(data, c).len;
      if |data| < next then ReadFailed
      else
        match DecodeBytes(data[c + HEADER_LEN..next])
        case Failure(_) => BadRecord(c)
        case Success(entry) =>
          match Applied(s, entry)
          case Failure(_) => BadRecord(c)
          case Success(t) => ReplayFrom(data, next, t)
  }

  function FoldFrames(fs: seq<Frame>, s: State): Option<State>
    decreases |fs|
  {
    if fs == [] then Some(s)
    else
      match DecodeBytes(fs[0].payload)
      case Failure(_) => None
      case Success(entry) =>
        match Applied(s, entry)
        case Failure(_) => None
        case Success(t) => FoldFrames(fs[1..], t)
  }

  lemma ReplayGood(data: seq<byte>, c: nat, s: State, f: Frame, next: nat)
    requires c <= next <= |data| && CheckAt(data, c) == Good(f, next)
    requires FoldFrames([f], s).Some?
    ensures ReplayFrom(data, c, s) == ReplayFrom(data, next, FoldFrames([f], s).value)
  {
    hide Applied, DecodeBytes;
    assert FoldFrames([f][1..], s) == Some(s);
  }

  lemma {:induction false} FoldConcat(a: seq<Frame>, b: seq<Frame>, s: State)
    ensures FoldFrames(a + b, s) ==
      match FoldFrames(a, s) { case None => None case Some(t) => FoldFrames(b, t) }
    decreases |a|
  {
    if a == [] {
      assert a + b == b;
    } else {
      assert (a + b)[1..] == a[1..] + b;
      match DecodeBytes(a[0].payload)
      case Failure(_) =>
      case Success(entry) =>
        match Applied(s, entry)
        case Failure(_) =>
        case Success(t) => FoldConcat(a[1..], b, t);
    }
  }

  /** Replay passes over everything a checksum walk accepts, applying each record once and in order. */
  lemma {:induction false} ReplayOverWalk(data: seq<byte>, c: nat, s: State)
    requires c <= |data| && FoldFrames(Walk(data, c).frames, s).Some?
    ensures ReplayFrom(data, c, s) == ReplayFrom(data, Walk(data, c).end, FoldFrames(Walk(data, c).frames, s).value)
    decreases |data| - c
  {
    match CheckAt(data, c)
    case Good(f, next) =>
      hide *;
      WalkGood(data, c, f, next);
      FoldConcat([f], Walk(data, next).frames, s);
      ReplayGood(data, c, s, f, next);
      ReplayOverWalk(data, next, FoldFrames([f], s).value);
    case _ =>
  }

  function RecordFrame(entry: ManifestOp): (f: RawFrame)
    ensures Fits(entry) ==> |f.payload| < U32_LIMIT
  {
    RawFrame.Frame(0, EncodeOp(entry))
  }

  // ── The manifest as a write-ahead log ───────────────────────────────────────

  /** One record takes the state from `s` to `t`. */
  ghost predicate Records(f: Frame, s: State, t: State) {
    DecodeBytes(f.payload).Success? && Applied(s, DecodeBytes(f.payload).value) == Success(t)
  }

  ghost predicate RecordsAt(fs: seq<Frame>, states: seq<State>, i: nat)
    requires i < |fs| && |states| == |fs| + 1
  {
    Records(fs[i], states[i], states[i + 1])
  }

  /** The records lead from the first state to the last one. */
  ghost predicate Trace(fs: seq<Frame>, states: seq<State>, s: State) {
    && |states| == |fs| + 1 && states[0] == EMPTY && states[|fs|] == s
    && forall i :: 0 <= i < |fs| ==> RecordsAt(fs, states, i)
  }

  ghost predicate Replays(fs: seq<Frame>, s: State) {
    exists states :: Trace(fs, states, s)
  }

  lemma NothingReplays()
    ensures Replays([], EMPTY)
  {
    assert Trace([], [EMPTY], EMPTY);
  }

  lemma OneMoreReplays(fs: seq<Frame>, s: State, f: Frame, t: State)
    requires Replays(fs, s) && Records(f, s, t)
    ensures Replays(fs + [f], t)
  {
    hide Records;
    var states :| Trace(fs, states, s);
    forall i | 0 <= i < |fs| + 1
      ensures RecordsAt(fs + [f], states + [t], i)
    {
      assert i < |fs| ==> RecordsAt(fs, states, i);
    }
    assert Trace(fs + [f], states + [t], t);
  }

  lemma RecordOf(entry: ManifestOp, s: State)
    requires Fits(entry) && Applied(s, entry).Success?
    ensures Records(RecordFrame(entry), s, Applied(s, entry).value)
  {
    DecodeOfEncode(entry);
    hide Applied;
  }

  lemma {:induction false} TraceFolds(fs: seq<Frame>, states: seq<State>)
    requires |states| == |fs| + 1 && forall i :: 0 <= i < |fs| ==> RecordsAt(fs, states, i)
    ensures FoldFrames(fs, states[0]) == Some(states[|fs|])
    decreases |fs|
  {
    hide DecodeBytes, Applied;
    if fs != [] {
      assert RecordsAt(fs, states, 0);
      forall i | 0 <= i < |fs| - 1
        ensures RecordsAt(fs[1..], states[1..], i)
      {
        assert RecordsAt(fs, states, i + 1);
      }
      TraceFolds(fs[1..], states[1..]);
    }
  }

  /** The manifest is whole records that replay to `s`, followed by fewer bytes than a frame header. */
  ghost predicate ManifestReadable(manifest: seq<byte>, s: State) {
    && MANIFEST_MAGIC <= manifest
    && |manifest| < Walk(manifest, MAGIC_LEN).end + HEADER_LEN
    && Replays(Walk(manifest, MAGIC_LEN).frames, s)
  }

  /** The manifest is whole records that replay to `s`, and nothing else. */
  ghost predicate ManifestHolds(manifest: seq<byte>, s: State) {
    exists fs: seq<Frame> :: manifest == FileOf(MANIFEST_MAGIC, fs) && Replays(fs, s)
  }

  lemma HoldsReadable(manifest: seq<byte>, s: State)
    requires ManifestHolds(manifest, s)
    ensures ManifestReadable(manifest, s) && Walk(manifest, MAGIC_LEN).end == |manifest|
  {
    hide Walk, FileOf, Replays;
    var fs: seq<Frame> :| manifest == FileOf(MANIFEST_MAGIC, fs) && Replays(fs, s);
    FileOfBody(MANIFEST_MAGIC, fs);
    FileOfWalk(MANIFEST_MAGIC, fs);
  }

  lemma ReadableFolds(manifest: seq<byte>, s: State)
    requires ManifestReadable(manifest, s)
    ensures FoldFrames(Walk(manifest, MAGIC_LEN).frames, EMPTY) == Some(s)
  {
    var fs := Walk(manifest, MAGIC_LEN).frames;
    hide FoldFrames, Walk;
    var states :| Trace(fs, states, s);
    TraceFolds(fs, states);
  }

  lemma ReadableReplays(manifest: seq<byte>, s: State)
    requires ManifestReadable(manifest, s)
    ensures ReplayFrom(manifest, MAGIC_LEN, EMPTY) == Replayed(s, Walk(manifest, MAGIC_LEN).end)
  {
    ReadableFolds(manifest, s);
    ReplayOverWalk(manifest, MAGIC_LEN, EMPTY);
  }

  /** Appending one record to a manifest that holds `s` makes it hold the state after that record. */
  lemma ManifestAppend(manifest: seq<byte>, s: State, entry: ManifestOp)
    requires ManifestHolds(manifest, s) && Fits(entry) && Applied(s, entry).Success?
    ensures ManifestHolds(WriteAt(manifest, |manifest|, Encode(RecordFrame(entry))), Applied(s, entry).value)
  {
    hide Applied, Fits, Records, Replays, EncodeAll, WriteAt, FileOf, SizeOf, Encode;
    var f := RecordFrame(entry);
    var fs: seq<Frame> :| manifest == FileOf(MANIFEST_MAGIC, fs) && Replays(fs, s);
    assert [f] == [f] + [];
    EncodeAllCons(f, []);
    EncodeAllEmpty();
    assert Encode(f) + [] == Encode(f);
    RecordOf(entry, s);
    OneMoreReplays(fs, s, f, Applied(s, entry).value);
    FileOfAppend(MANIFEST_MAGIC, fs, [f]);
  }

  lemma SetLenSame(file: seq<byte>)
    ensures SetLen(file, |file|) == file
  {
  }
}
