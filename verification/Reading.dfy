/** What a reader yields: `scan`, its start point, and the walk over the following segments. */
module Reading {
  import opened Basics
  import opened Frames
  import opened State
  import opened StateLaws
  import opened Disk
  import opened Index
  import opened Log
  import opened World
  import opened Invariant
  import opened TruncatingStart
  import opened TruncatingEnd
  import opened Recovery
  import opened Checkpoints
  import opened Reopening

  // ── One file, without checksums ─────────────────────────────────────────────

  /** The frames read up to the end of a file or the first piece that is not a whole frame; `intact` when the
      end was reached. */
  datatype Read = Read(frames: seq<Frame>, intact: bool)

  function ReadFrom(data: seq<byte>, c: nat): Read
    requires c <= |data|
    decreases |data| - c
  {
    if c == |data| then Read([], true)
    else if |data| < c + HEADER_LEN then Read([], false)
    else
      var h := HeaderAt(data, c);
      var next := c + HEADER_LEN + h.len;
      if |data| < next then Read([], false)
      else
        var r := ReadFrom(data, next);
        Read([RawFrame.Frame(h.id, data[c + HEADER_LEN..next])] + r.frames, r.intact)
  }

  /** `seek_to_id`: the offset of the first frame with id at or above `target`, or the end of the file; `None`
      when it runs into a piece of a frame first. */
  function SeekFrom(data: seq<byte>, c: nat, target: EntryId): (r: Option<nat>)
    requires c <= |data|
    ensures r.Some? ==> c <= r.value <= |data|
    decreases |data| - c
  {
    if c == |data| then Some(c)
    else if |data| < c + HEADER_LEN then None
    else
      var h := HeaderAt(data, c);
      if h.id >= target then Some(c)
      else
        var next := c + HEADER_LEN + h.len;
        if |data| < next then None else SeekFrom(data, next, target)
  }

  lemma ReadStep(data: seq<byte>, c: nat, f: Frame)
    requires c + |Encode(f)| <= |data| && data[c..c + |Encode(f)|] == Encode(f)
    ensures var r := ReadFrom(data, c + |Encode(f)|);
      ReadFrom(data, c) == Read([f] + r.frames, r.intact)
    ensures forall t :: SeekFrom(data, c, t) == if f.id >= t then Some(c) else SeekFrom(data, c + |Encode(f)|, t)
  {
    CheckEncoded(data, c, f);
    hide Encode, HeaderAt;
  }

  lemma ReadNothing(data: seq<byte>, t: EntryId)
    ensures ReadFrom(data, |data|) == Read([], true) && SeekFrom(data, |data|, t) == Some(|data|)
  {
  }

  lemma {:induction false} ReadEncoded(data: seq<byte>, c: nat, fs: seq<Frame>)
    requires c <= |data| && data[c..] == EncodeAll(fs)
    ensures ReadFrom(data, c) == Read(fs, true)
    decreases |fs|
  {
    hide *;
    if fs == [] {
      EncodeAllEmpty();
      assert |data[c..]| == 0;
      ReadNothing(data, 0);
    } else {
      FirstAndRest(data, c, fs);
      ReadStep(data, c, fs[0]);
      ReadEncoded(data, c + |Encode(fs[0])|, fs[1..]);
      assert [fs[0]] + fs[1..] == fs;
    }
  }

  /** Seeking over encoded frames stops in front of the first one with id at or above the target. */
  lemma {:induction false} SeekEncoded(data: seq<byte>, c: nat, fs: seq<Frame>, target: EntryId)
    requires c <= |data| && data[c..] == EncodeAll(fs)
    ensures var e := c + SizeOf(fs[..CountBelow(fs, target)]);
      && e <= |data| && SeekFrom(data, c, target) == Some(e)
      && data[e..] == EncodeAll(fs[CountBelow(fs, target)..])
    decreases |fs|
  {
    hide *;
    FramesAt(data, c, fs, CountBelow(fs, target));
    if fs == [] {
      EncodeAllEmpty();
      assert |data[c..]| == 0 && fs[..0] == [];
      ReadNothing(data, target);
    } else {
      FirstAndRest(data, c, fs);
      ReadStep(data, c, fs[0]);
      CountStep(fs, target);
      if fs[0].id < target {
        SeekEncoded(data, c + |Encode(fs[0])|, fs[1..], target);
      }
    }
  }

  lemma CountStep(fs: seq<Frame>, target: EntryId)
    requires fs != []
    ensures fs[0].id >= target ==> CountBelow(fs, target) == 0 && SizeOf(fs[..CountBelow(fs, target)]) == 0
    ensures fs[0].id < target ==>
      SizeOf(fs[..CountBelow(fs, target)]) == |Encode(fs[0])| + SizeOf(fs[1..][..CountBelow(fs[1..], target)])
  {
    hide Encode, EncodeAll;
    var n := CountBelow(fs, target);
    if fs[0].id < target {
      assert fs[..n] == [fs[0]] + fs[1..][..n - 1];
      EncodeAllCons(fs[0], fs[1..][..n - 1]);
    }
  }

  // ── The reader ──────────────────────────────────────────────────────────────

  function PositionOf(segs: seq<Segment>, id: SegmentId): (r: Option<nat>)
    ensures r.Some? ==> r.value < |segs| && segs[r.value].id == id
  {
    if segs == [] then None
    else if segs[0].id == id then Some(0)
    else
      match PositionOf(segs[1..], id)
      case None => None
      case Some(i) => Some(i + 1)
  }

  /** `next` moving on: each later segment is read from its first frame, without seeking. */
  function ReadSegments(d: Disk, segs: seq<Segment>): Read {
    if segs == [] then Read([], true)
    else
      match OpenSegment(d, segs[0].id)
      case None => Read([], false)
      case Some(file) =>
        var r := ReadFrom(file, MAGIC_LEN);
        if !r.intact then r
        else
          var later := ReadSegments(d, segs[1..]);
          Read(r.frames + later.frames, later.intact)
  }

  /** `scan_start`: the segment of the greatest checkpoint at or below `from`, else the first segment. */
  function ScanStart(m: Mem, from: EntryId): SegmentId
    requires m.state.segments != []
  {
    match Floor(m.index, from)
    case Some(p) => p.segment
    case None => m.state.segments[0].id
  }

  /** Requests below the head are clamped to it. */
  function Clamped(m: Mem, from: EntryId): EntryId {
    if from < m.state.firstEntry then m.state.firstEntry else from
  }

  /** Everything `scan(from)` yields.  A start segment that cannot be opened or sought yields nothing. */
  function Scanned(w: World, from: EntryId): Read
    requires w.mem.state.segments != []
  {
    var target, last := Clamped(w.mem, from), LastVisible(w.mem);
    if last.None? || target > last.value then Read([], true)
    else
      var id := ScanStart(w.mem, target);
      match OpenSegment(w.disk, id)
      case None => Read([], true)
      case Some(file) =>
        match SeekFrom(file, MAGIC_LEN, target)
        case None => Read([], true)
        case Some(c) =>
          var r := ReadFrom(file, c);
          if !r.intact then r
          else
            match PositionOf(w.mem.state.segments, id)
            case None => r
            case Some(i) =>
              var later := ReadSegments(w.disk, w.mem.state.segments[i + 1..]);
              Read(r.frames + later.frames, later.intact)
  }

  // ── Its meaning ─────────────────────────────────────────────────────────────

  lemma {:induction false} ReadSegmentsAre(d: Disk, segs: seq<Segment>, body: Body)
    requires FilesOk(d, segs, body)
    ensures ReadSegments(d, segs) == Read(Concat(body), true)
    decreases |segs|
  {
    if segs != [] {
      assert FileAt(d, segs[0], body[0]);
      ReadImage(body[0]);
      hide ReadFrom, FileOf, FileAt;
      HeadMovedFiles(d, segs, body, 1);
      ReadSegmentsAre(d, segs[1..], body[1..]);
    }
  }

  lemma ReadImage(fs: seq<Frame>)
    ensures ReadFrom(Image(fs), MAGIC_LEN) == Read(fs, true) && SEGMENT_MAGIC <= Image(fs)
  {
    FileOfBody(SEGMENT_MAGIC, fs);
    hide ReadFrom, EncodeAll, FileOf;
    ReadEncoded(Image(fs), MAGIC_LEN, fs);
  }

  lemma SeekImage(fs: seq<Frame>, target: EntryId)
    requires Increasing(fs)
    ensures var c := SeekFrom(Image(fs), MAGIC_LEN, target);
      c.Some? && ReadFrom(Image(fs), c.value) == Read(AtLeast(fs, target), true)
  {
    FileOfBody(SEGMENT_MAGIC, fs);
    hide ReadFrom, SeekFrom, EncodeAll, FileOf, AtLeast, CountBelow, SizeOf;
    SeekEncoded(Image(fs), MAGIC_LEN, fs, target);
    var c := SeekFrom(Image(fs), MAGIC_LEN, target).value;
    ReadEncoded(Image(fs), c, fs[CountBelow(fs, target)..]);
    AtLeastIsSuffix(fs, target);
  }

  lemma {:induction false} PositionAt(segs: seq<Segment>, i: nat)
    requires DistinctIds(segs) && i < |segs|
    ensures PositionOf(segs, segs[i].id) == Some(i)
  {
    if i > 0 {
      assert segs[0].id != segs[i].id;
      PositionAt(segs[1..], i - 1);
    }
  }

  /** The segment in which a scan for `target` starts. */
  function StartIndex(m: Mem, target: EntryId): (i: nat)
    requires m.state.segments != []
    ensures i < |m.state.segments|
  {
    match PositionOf(m.state.segments, ScanStart(m, target))
    case None => 0
    case Some(i) => i
  }

  lemma StartIsLive(w: World, body: Body, target: EntryId)
    requires Inv(w, body)
    ensures w.mem.state.segments != []
    ensures var i := StartIndex(w.mem, target);
      && PositionOf(w.mem.state.segments, ScanStart(w.mem, target)) == Some(i)
      && w.mem.state.segments[i].id == ScanStart(w.mem, target)
      && match Floor(w.mem.index, target) {
           case None => i == 0
           case Some(p) => exists k: nat :: PointsAt(p, w.mem.state.segments, body, i, k)
         }
  {
    var segs := w.mem.state.segments;
    assert IndexSound(w.mem.index, segs, body) && StateOk(w.mem.state);
    assert DistinctIds(segs) && segs != [];
    FloorIsGreatest(w.mem.index, target);
    hide Inv, StateOk, IndexOk, Floor;
    match Floor(w.mem.index, target) {
      case None => PositionAt(segs, 0);
      case Some(p) =>
        assert Points(p, segs, body);
        var i: nat, k: nat :| PointsAt(p, segs, body, i, k);
        PositionAt(segs, i);
        assert PointsAt(p, segs, body, i, k);
    }
  }

  /** What a scan that has something to show yields: the entries at or above the target from its start segment,
      and everything in the segments behind it. */
  function Yielded(body: Body, i: nat, target: EntryId): seq<Frame>
    requires i < |body|
  {
    AtLeast(body[i], target) + Concat(body[i + 1..])
  }

  lemma ScannedParts(w: World, target: EntryId, fs: seq<Frame>, i: nat)
    requires w.mem.state.segments != [] && i < |w.mem.state.segments|
    requires LastVisible(w.mem).Some? && target <= LastVisible(w.mem).value && Clamped(w.mem, target) == target
    requires PositionOf(w.mem.state.segments, ScanStart(w.mem, target)) == Some(i)
    requires OpenSegment(w.disk, ScanStart(w.mem, target)) == Some(Image(fs))
    requires var c := SeekFrom(Image(fs), MAGIC_LEN, target);
      c.Some? && ReadFrom(Image(fs), c.value) == Read(AtLeast(fs, target), true)
    ensures var later := ReadSegments(w.disk, w.mem.state.segments[i + 1..]);
      Scanned(w, target) == Read(AtLeast(fs, target) + later.frames, later.intact)
  {
    hide ReadFrom, SeekFrom, ReadSegments, ScanStart, PositionOf, OpenSegment, Image, AtLeast, LastVisible;
  }

  lemma OpenLive(d: Disk, segs: seq<Segment>, body: Body, i: nat)
    requires FilesOk(d, segs, body) && i < |body|
    ensures OpenSegment(d, segs[i].id) == Some(Image(body[i]))
  {
    assert FileAt(d, segs[i], body[i]);
    FileOfBody(SEGMENT_MAGIC, body[i]);
    hide Image;
  }

  lemma ClampedTwice(w: World, from: EntryId)
    requires w.mem.state.segments != []
    ensures Clamped(w.mem, Clamped(w.mem, from)) == Clamped(w.mem, from)
    ensures Scanned(w, from) == Scanned(w, Clamped(w.mem, from))
  {
    hide ReadFrom, SeekFrom, ReadSegments, ScanStart, PositionOf, OpenSegment, LastVisible;
  }

  lemma ScanYields(w: World, body: Body, from: EntryId)
    requires Inv(w, body)
    requires LastVisible(w.mem).Some? && Clamped(w.mem, from) <= LastVisible(w.mem).value
    ensures 0 < |body| == |w.mem.state.segments|
    ensures var target := Clamped(w.mem, from);
      Scanned(w, from) == Read(Yielded(body, StartIndex(w.mem, target), target), true)
  {
    hide *;
    HasSegments(w, body);
    var segs, target := w.mem.state.segments, Clamped(w.mem, from);
    StartIsLive(w, body, target);
    var i := StartIndex(w.mem, target);
    FilesOfInv(w, body);
    OpenLive(w.disk, segs, body, i);
    SeekImage(body[i], target);
    HeadMovedFiles(w.disk, segs, body, i + 1);
    ReadSegmentsAre(w.disk, segs[i + 1..], body[i + 1..]);
    ClampedTwice(w, from);
    ScannedParts(w, target, body[i], i);
    YieldedIs(body, i, target);
  }

  lemma YieldedIs(body: Body, i: nat, target: EntryId)
    requires i < |body|
    ensures Yielded(body, i, target) == AtLeast(body[i], target) + Concat(body[i + 1..])
  {
  }

  lemma FilesOfInv(w: World, body: Body)
    requires Inv(w, body)
    ensures FilesOk(w.disk, w.mem.state.segments, body)
  {
  }

  // ── Nothing lost, nothing reordered ─────────────────────────────────────────

  ghost predicate NothingFrom(m: Mem, target: EntryId) {
    LastVisible(m).None? || target > LastVisible(m).value
  }

  lemma ConcatLast(body: Body, n: nat)
    requires n < |body| && body[n] != [] && forall k :: n < k < |body| ==> body[k] == []
    ensures Concat(body) != [] && LastId(Concat(body)) == LastId(body[n])
  {
    ConcatAt(body, n);
    ConcatEmpty(body[n + 1..]);
    assert Concat(body) == Concat(body[..n]) + body[n];
  }

  lemma {:induction false} ConcatEmpty(body: Body)
    requires forall k :: 0 <= k < |body| ==> body[k] == []
    ensures Concat(body) == []
  {
    if body != [] {
      ConcatEmpty(body[1..]);
    }
  }

  /** The in-memory last id is the id of the last entry, as far as it is visible. */
  lemma LastIsLast(m: Mem, body: Body)
    requires LastOk(m.lastEntry, m.state, body)
    requires forall i :: 0 <= i < |body| - 1 ==> body[i] != []
    ensures Concat(body) != [] ==> m.lastEntry == Some(LastId(Concat(body)))
    ensures Concat(body) == [] ==> LastVisible(m).None?
  {
    hide Concat;
    var n := |body| - 1;
    if body[n] != [] {
      ConcatLast(body, n);
    } else if n > 0 {
      ConcatLast(body, n - 1);
    } else {
      ConcatEmpty(body);
    }
  }

  lemma OrderedLog(s: State, body: Body)
    requires StateOk(s) && BodyOk(s, body)
    ensures Increasing(Concat(body)) && OrderedBody(body)
  {
    hide BodyOk, Increasing, OrderedBody;
    BodyIsOrdered(s, body);
    ConcatIncreasing(body);
  }

  lemma SealedHaveFrames(s: State, body: Body)
    requires BodyOk(s, body)
    ensures forall i :: 0 <= i < |body| - 1 ==> body[i] != []
  {
    forall i | 0 <= i < |body| - 1
      ensures body[i] != []
    {
      assert SealedAt(s, body, i);
    }
  }

  lemma SealedNotEmpty(w: World, body: Body)
    requires Inv(w, body)
    ensures forall i :: 0 <= i < |body| - 1 ==> body[i] != []
    ensures LastOk(w.mem.lastEntry, w.mem.state, body)
    ensures Increasing(Concat(body)) && OrderedBody(body)
  {
    hide StateOk, BodyOk, FilesOk, CursorOk, IdsOk, ManifestOk, IndexSound, LastOk, Increasing, OrderedBody, Concat;
    OrderedLog(w.mem.state, body);
    SealedHaveFrames(w.mem.state, body);
  }

  /** `last_entry_id()` is the id of the last accessible entry, and absent exactly when nothing is accessible. */
  lemma LastVisibleIsLast(w: World, body: Body)
    requires Inv(w, body)
    ensures LastVisible(w.mem) == if Visible(w) == [] then None else Some(LastId(Visible(w)))
  {
    hide *;
    SealedNotEmpty(w, body);
    LastIsLast(w.mem, body);
    InvIsValid(w, body);
    EntriesOf(w, body);
    LastOfVisible(w, Concat(body));
  }

  lemma LastOfVisible(w: World, log: seq<Frame>)
    requires Increasing(log) && Entries(w) == log
    requires log != [] ==> w.mem.lastEntry == Some(LastId(log))
    requires log == [] ==> LastVisible(w.mem).None?
    ensures LastVisible(w.mem) == if Visible(w) == [] then None else Some(LastId(Visible(w)))
  {
    hide Entries;
    var head := w.mem.state.firstEntry;
    AtLeastIsSuffix(log, head);
    if log != [] {
      assert forall i :: 0 <= i < |log| ==> log[i].id <= LastId(log);
    }
    hide AtLeast;
  }

  lemma NothingIff(m: Mem, log: seq<Frame>, from: EntryId)
    requires Increasing(log)
    requires log != [] ==> m.lastEntry == Some(LastId(log))
    requires log == [] ==> LastVisible(m).None?
    ensures var target := Clamped(m, from);
      NothingFrom(m, target) <==> AtLeast(log, target) == []
  {
    var target := Clamped(m, from);
    if log != [] {
      assert forall i :: 0 <= i < |log| ==> log[i].id <= LastId(log);
      AtLeastIsSuffix(log, target);
      hide AtLeast;
      if LastId(log) < target {
        AtLeastNone(log, target);
      }
    }
  }

  /** A scan has nothing to show exactly when no stored entry is at or above the clamped request. */
  lemma NothingToShow(w: World, body: Body, from: EntryId)
    requires Inv(w, body)
    ensures var target := Clamped(w.mem, from);
      NothingFrom(w.mem, target) <==> AtLeast(Concat(body), target) == []
  {
    hide *;
    SealedNotEmpty(w, body);
    LastIsLast(w.mem, body);
    NothingIff(w.mem, Concat(body), from);
  }

  lemma StartsBelow(w: World, body: Body, target: EntryId)
    requires Inv(w, body)
    ensures 0 < |body| == |w.mem.state.segments|
    ensures forall k :: 0 <= k < StartIndex(w.mem, target) ==> FramesBelow(body[k], target)
  {
    HasSegments(w, body);
    StartIsLive(w, body, target);
    assert StateOk(w.mem.state) && BodyOk(w.mem.state, body);
    FloorIsGreatest(w.mem.index, target);
    assert IndexOk(w.mem.index);
    hide Inv, StateOk, BodyOk, StartIndex, Floor, IndexOk;
    var i := StartIndex(w.mem, target);
    if i > 0 {
      var p := Floor(w.mem.index, target).value;
      var j: nat :| PointsAt(p, w.mem.state.segments, body, i, j);
      forall k | 0 <= k < i
        ensures FramesBelow(body[k], target)
      {
        LessBefore(w.mem.state, body, k, i, j, target);
      }
    }
  }

  lemma LessBefore(s: State, body: Body, k: nat, i: nat, j: nat, target: EntryId)
    requires StateOk(s) && BodyOk(s, body) && k < i < |body| && j < |body[i]| && body[i][j].id <= target
    ensures FramesBelow(body[k], target)
  {
    forall a | 0 <= a < |body[k]|
      ensures body[k][a].id < target
    {
      AcrossSegments(s, body, k, i, a, j);
    }
  }

  /** What is yielded, relative to the whole log. */
  lemma YieldedInLog(body: Body, i: nat, target: EntryId)
    requires i < |body| && Increasing(body[i])
    requires forall k :: 0 <= k < i ==> FramesBelow(body[k], target)
    ensures var log, got := Concat(body), Yielded(body, i, target);
      && |got| <= |log| && got == log[|log| - |got|..]
      && AtLeast(got, target) == AtLeast(log, target)
      && AtLeast(log, target) == AtLeast(body[i], target) + AtLeast(Concat(body[i + 1..]), target)
  {
    hide AtLeast, Concat, CountBelow, FramesBelow, Increasing;
    var front, fs, tail := Concat(body[..i]), body[i], Concat(body[i + 1..]);
    ConcatAt(body, i);
    assert forall k :: 0 <= k < i ==> body[..i][k] == body[k];
    ConcatBelow(body[..i], target);
    FilteredParts(front, fs, tail, target);
    AtLeastIsSuffix(fs, target);
    SuffixOfThree(front, fs, tail, CountBelow(fs, target));
  }

  lemma FilteredParts(front: seq<Frame>, fs: seq<Frame>, tail: seq<Frame>, target: EntryId)
    requires FramesBelow(front, target)
    ensures AtLeast(front + (fs + tail), target) == AtLeast(fs, target) + AtLeast(tail, target)
    ensures AtLeast(AtLeast(fs, target) + tail, target) == AtLeast(fs, target) + AtLeast(tail, target)
  {
    AtLeastNone(front, target);
    hide AtLeast;
    AtLeastConcat(front, fs + tail, target);
    AtLeastConcat(fs, tail, target);
    AtLeastConcat(AtLeast(fs, target), tail, target);
    AtLeastTwice(fs, target, target);
  }

  lemma SuffixOfThree(front: seq<Frame>, fs: seq<Frame>, tail: seq<Frame>, n: nat)
    requires n <= |fs|
    ensures var log, got := front + (fs + tail), fs[n..] + tail;
      |got| <= |log| && got == log[|log| - |got|..]
  {
  }

  /** Scan never loses or reorders.  It yields a contiguous suffix of the stored log that contains every entry at or
      above the request (clamped to the head), without errors, and nothing at all when there is no such entry. */
  lemma ScanNeverLoses(w: World, body: Body, from: EntryId)
    requires Inv(w, body)
    ensures w.mem.state.segments != []
    ensures var r, log, target := Scanned(w, from), Concat(body), Clamped(w.mem, from);
      && r.intact
      && |r.frames| <= |log| && r.frames == log[|log| - |r.frames|..]
      && AtLeast(r.frames, target) == AtLeast(log, target)
      && (AtLeast(log, target) == [] ==> r.frames == [])
  {
    hide *;
    HasSegments(w, body);
    var target := Clamped(w.mem, from);
    NothingToShow(w, body, from);
    if NothingFrom(w.mem, target) {
      ScanNothing(w, from);
      AtLeastNil(target);
    } else {
      ShowsSome(w.mem, target);
      ScanYields(w, body, from);
      StartsBelow(w, body, target);
      YieldedInLog(body, StartIndex(w.mem, target), target);
    }
  }

  lemma ScanNothing(w: World, from: EntryId)
    requires w.mem.state.segments != [] && NothingFrom(w.mem, Clamped(w.mem, from))
    ensures Scanned(w, from) == Read([], true)
  {
    hide LastVisible;
  }

  lemma ShowsSome(m: Mem, target: EntryId)
    requires !NothingFrom(m, target)
    ensures LastVisible(m).Some? && target <= LastVisible(m).value
  {
    hide LastVisible;
  }

  lemma AtLeastNil(target: EntryId)
    ensures AtLeast([], target) == []
  {
  }

  // ── When a scan is exact ────────────────────────────────────────────────────

  /** The start segment holds an entry at or above the target, or whatever follows it begins at or above it. */
  ghost predicate StartsRight(body: Body, i: nat, target: EntryId)
    requires i < |body|
  {
    var tail := Concat(body[i + 1..]);
    (body[i] != [] && LastId(body[i]) >= target) || tail == [] || tail[0].id >= target
  }

  lemma TailBehind(body: Body, i: nat)
    requires OrderedBody(body) && i < |body|
    ensures AllBefore(body[i], Concat(body[i + 1..])) && Increasing(Concat(body[i + 1..]))
  {
    var tail := body[i + 1..];
    assert forall k :: 0 <= k < |tail| ==> tail[k] == body[i + 1 + k];
    ConcatBehind(body[i], tail);
    assert OrderedBody(tail);
    ConcatIncreasing(tail);
  }

  lemma KeepsAllIff(tail: seq<Frame>, target: EntryId)
    requires Increasing(tail)
    ensures AtLeast(tail, target) == tail <==> tail == [] || tail[0].id >= target
  {
    AtLeastIsSuffix(tail, target);
    hide AtLeast;
    if tail != [] && tail[0].id >= target {
      AtLeastAll(tail, target);
    }
  }

  lemma YieldedExactIff(body: Body, i: nat, target: EntryId)
    requires OrderedBody(body) && i < |body|
    requires forall k :: 0 <= k < i ==> FramesBelow(body[k], target)
    ensures Yielded(body, i, target) == AtLeast(Concat(body), target) <==> StartsRight(body, i, target)
  {
    var tail := Concat(body[i + 1..]);
    YieldedInLog(body, i, target);
    TailBehind(body, i);
    KeepsAllIff(tail, target);
    hide AtLeast, Concat, FramesBelow, OrderedBody;
    var kept := AtLeast(body[i], target);
    assert kept + tail == kept + AtLeast(tail, target) <==> tail == AtLeast(tail, target) by { SameTail(kept, tail, AtLeast(tail, target)); }
  }

  lemma SameTail<T>(a: seq<T>, x: seq<T>, y: seq<T>)
    ensures a + x == a + y <==> x == y
  {
    if a + x == a + y {
      assert (a + x)[|a|..] == x && (a + y)[|a|..] == y;
    }
  }

  /** A scan yields exactly the entries at or above the request if and only if there is none, or its start segment
      holds one, or the entries behind the start segment begin at or above the request. */
  lemma ScanExactIff(w: World, body: Body, from: EntryId)
    requires Inv(w, body)
    ensures 0 < |body| == |w.mem.state.segments|
    ensures var target := Clamped(w.mem, from);
      Scanned(w, from).frames == AtLeast(Concat(body), target)
      <==> NothingFrom(w.mem, target) || StartsRight(body, StartIndex(w.mem, target), target)
  {
    hide *;
    HasSegments(w, body);
    var target := Clamped(w.mem, from);
    NothingToShow(w, body, from);
    if NothingFrom(w.mem, target) {
      ScanNothing(w, from);
    } else {
      ShowsSome(w.mem, target);
      ScanYields(w, body, from);
      StartsBelow(w, body, target);
      SealedNotEmpty(w, body);
      YieldedExactIff(body, StartIndex(w.mem, target), target);
    }
  }

  /** Every non-empty live segment behind the first one has its first frame in the index. */
  ghost predicate FirstsIndexed(idx: seq<Indexed>, segs: seq<Segment>, body: Body) {
    |segs| == |body| && forall i :: 0 < i < |body| && body[i] != [] ==> FirstIndexed(idx, segs[i], body[i])
  }

  ghost predicate FirstIndexed(idx: seq<Indexed>, seg: Segment, fs: seq<Frame>)
    requires fs != []
  {
    Has(idx, IndexPosition(seg.id, fs[0].id, MAGIC_LEN))
  }

  lemma IndexedStartsRight(w: World, body: Body, target: EntryId)
    requires Inv(w, body) && FirstsIndexed(w.mem.index, w.mem.state.segments, body)
    ensures 0 < |body| == |w.mem.state.segments| && StartsRight(body, StartIndex(w.mem, target), target)
  {
    hide *;
    HasSegments(w, body);
    StartIsLive(w, body, target);
    SealedNotEmpty(w, body);
    IndexOrdered(w, body);
    FloorIsGreatest(w.mem.index, target);
    var i := StartIndex(w.mem, target);
    FirstOf(w.mem.index, w.mem.state.segments, body, i + 1);
    if i + 1 < |body| && body[i + 1] != [] {
      SuccessorAbove(w.mem.index, w.mem.state.segments, body, i, target);
    }
    RightWhenSuccessorIs(body, i, target);
  }

  lemma IndexOrdered(w: World, body: Body)
    requires Inv(w, body)
    ensures IndexOk(w.mem.index)
  {
    hide StateOk, BodyOk, FilesOk, CursorOk, IdsOk, ManifestOk, LastOk;
  }

  lemma FirstOf(idx: seq<Indexed>, segs: seq<Segment>, body: Body, i: nat)
    requires FirstsIndexed(idx, segs, body) && |segs| == |body|
    ensures 0 < i < |body| && body[i] != [] ==> Has(idx, IndexPosition(segs[i].id, body[i][0].id, MAGIC_LEN))
  {
    assert 0 < i < |body| && body[i] != [] ==> FirstIndexed(idx, segs[i], body[i]);
    hide Has;
  }

  lemma RightWhenSuccessorIs(body: Body, i: nat, target: EntryId)
    requires i < |body| && forall k :: 0 <= k < |body| - 1 ==> body[k] != []
    requires i + 1 < |body| && body[i + 1] != [] ==> body[i + 1][0].id > target
    ensures StartsRight(body, i, target)
  {
    hide Concat;
    if i + 1 < |body| {
      NextIsFirst(body, i);
    } else {
      assert body[i + 1..] == [];
      ConcatEmpty(body[i + 1..]);
    }
  }

  lemma NextIsFirst(body: Body, i: nat)
    requires i + 1 < |body| && forall k :: 0 <= k < |body| - 1 ==> body[k] != []
    ensures var tail := Concat(body[i + 1..]); tail == [] || (body[i + 1] != [] && tail[0] == body[i + 1][0])
  {
    var rest := body[i + 1..];
    if body[i + 1] == [] {
      assert i + 1 == |body| - 1;
      ConcatEmpty(rest);
    }
  }

  /** When the first frame of the segment behind the start segment is indexed, it lies above the target: the
      floor checkpoint would otherwise not be the greatest. */
  lemma SuccessorAbove(idx: seq<Indexed>, segs: seq<Segment>, body: Body, i: nat, target: EntryId)
    requires OrderedBody(body) && i + 1 < |body| == |segs| && body[i + 1] != []
    requires Has(idx, IndexPosition(segs[i + 1].id, body[i + 1][0].id, MAGIC_LEN))
    requires match Floor(idx, target)
      case None => forall p :: Has(idx, p) ==> p.checkpoint > target
      case Some(r) =>
        && (forall p :: Has(idx, p) && p.checkpoint <= target ==> p.checkpoint <= r.checkpoint)
        && exists k: nat :: PointsAt(r, segs, body, i, k)
    ensures body[i + 1][0].id > target
  {
    hide Floor, Has, Increasing;
    assert AllBefore(body[i], body[i + 1]);
    if Floor(idx, target).Some? {
      var k: nat :| PointsAt(Floor(idx, target).value, segs, body, i, k);
    }
  }

  lemma FreshHasFirsts(segs: seq<Segment>, body: Body)
    requires |segs| == |body|
    ensures FirstsIndexed(FreshIndex(segs, body), segs, body)
  {
    var idx := FreshIndex(segs, body);
    forall i | 0 <= i < |body| && body[i] != []
      ensures FirstIndexed(idx, segs[i], body[i])
    {
      CheckpointForm(body[i], MAGIC_LEN, |body[i]|);
      assert body[i][..0] == [];
      assert SizeOf(body[i][..0]) == 0;
      assert HasAt(idx, IndexPosition(segs[i].id, body[i][0].id, MAGIC_LEN), i, 0);
    }
  }

  /** While every later segment has its first frame in the index, every scan is exact. */
  lemma IndexedScansExactly(w: World, body: Body, from: EntryId)
    requires Inv(w, body) && FirstsIndexed(w.mem.index, w.mem.state.segments, body)
    ensures w.mem.state.segments != []
    ensures Scanned(w, from) == Read(AtLeast(Concat(body), Clamped(w.mem, from)), true)
  {
    hide *;
    HasSegments(w, body);
    IndexedStartsRight(w, body, Clamped(w.mem, from));
    ScanExactIff(w, body, from);
    ScanNeverLoses(w, body, from);
  }

  /** Right after opening, every scan is exact: precisely the stored entries at or above the request. */
  lemma ScanExactAfterOpen(trigger: nat, w: World, body: Body, from: EntryId)
    requires Inv(w, body)
    ensures var r := Open(trigger, w.disk);
      && r.result.Success?
      && var store := World(r.result.value, r.disk);
         && store.mem.state.segments != []
         && Scanned(store, from) == Read(AtLeast(Concat(body), Clamped(store.mem, from)), true)
  {
    hide *;
    InvIsSettled(w, body);
    HasSegments(w, body);
    OpenSettled(trigger, w.disk, w.mem.state, body);
    var m := OpenedMem(trigger, w.disk, w.mem.state, body);
    OpenedFields(trigger, w.disk, w.mem.state, body);
    FreshHasFirsts(w.mem.state.segments, body);
    IndexedScansExactly(World(m, w.disk), body, from);
  }

  lemma OpenedFields(trigger: nat, d: Disk, s: State, body: Body)
    requires 0 < |s.segments| == |body|
    ensures var m := OpenedMem(trigger, d, s, body); m.state == s && m.index == FreshIndex(s.segments, body)
  {
    hide FreshIndex, MaxId, IdSet, Image;
  }
}
