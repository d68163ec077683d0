/** What a rollback at the wrong offset leads to: after the next open the frames before that offset are all there,
    and before it pushes land behind them. */
module Drifting {
  import opened Basics
  import opened Frames
  import opened State
  import opened StateLaws
  import opened Codec
  import opened Disk
  import opened Index
  import opened Log
  import opened World
  import opened Invariant
  import opened Writing
  import opened TruncatingEnd
  import opened Recovery
  import opened Recovering
  import opened Crashes
  import opened CrashSteps

  /** `truncate_end` finds frame `j` of segment `i`, and cuts the file at `offset`: behind that frame, maybe further. */
  ghost predicate CutsBehind(w: World, body: Body, i: nat, j: nat, offset: u64) {
    && Inv(w, body) && i < |body| && j < |body[i]|
    && w.mem.state.segments != [] && !IsEndNoop(w.mem, body[i][j].id) && CanTruncateEnd(w, body[i][j].id)
    && TargetIndex(w.mem.state.segments, body[i][j].id) == i
    && CutOffset(w, body[i][j].id) == Some(offset)
    && |Image(body[i][..j + 1])| <= offset <= |Image(body[i])|
  }

  /** How many whole frames of segment `i` lie before the offset. */
  function FramesBefore(body: Body, i: nat, offset: nat): (m: nat)
    requires i < |body| && MAGIC_LEN <= offset
    ensures m <= |body[i]|
  {
    Whole(body[i], offset - MAGIC_LEN)
  }

  lemma BehindParts(w: World, body: Body, i: nat, j: nat, offset: u64)
    requires CutsBehind(w, body, i, j, offset)
    ensures Inv(w, body) && i < |body| == |w.mem.state.segments| && j < |body[i]| && w.mem.state.segments != []
    ensures StateOk(w.mem.state) && BodyOk(w.mem.state, body) && DistinctIds(w.mem.state.segments)
    ensures FilesOk(w.disk, w.mem.state.segments, body) && ManifestOk(w) && Increasing(body[i])
    ensures TargetIndex(w.mem.state.segments, body[i][j].id) == i && !IsEndNoop(w.mem, body[i][j].id)
    ensures CutOffset(w, body[i][j].id) == Some(offset) && Fits(EndOp(w, body[i][j].id, offset))
    ensures MAGIC_LEN <= |Image(body[i][..j + 1])| <= offset <= |Image(body[i])|
  {
    HasSegments(w, body);
    ActiveFile(w, body);
    ImageLength(body[i][..j + 1]);
    assert ManifestOk(w);
    hide Inv, StateOk, BodyOk, FilesOk, ManifestOk, DistinctIds, Image, SizeOf, CutOffset, TargetIndex, EndOp, Fits,
      IsEndNoop, Increasing;
    CutFits(w, body[i][j].id);
  }

  /** The frame itself is before the offset. */
  lemma KeepsWanted(body: Body, i: nat, j: nat, offset: nat)
    requires i < |body| && j < |body[i]| && MAGIC_LEN <= |Image(body[i][..j + 1])| <= offset
    ensures FramesBefore(body, i, offset) > j
  {
    var fs, k := body[i], |Image(body[i][..j + 1])| - MAGIC_LEN;
    WholeAtBoundary(fs, j + 1);
    hide Whole, Image, SizeOf;
    WholeNotLess(fs, k, offset - MAGIC_LEN);
  }

  lemma WholeNotLess(fs: seq<Frame>, k: nat, l: nat)
    requires k <= l
    ensures Whole(fs, k) <= Whole(fs, l)
  {
    hide *;
    var n, m := Whole(fs, k), Whole(fs, l);
    WholeIsGreatest(fs, k);
    WholeIsGreatest(fs, l);
    if m < n {
      SizesAscend(fs, m + 1, n);
    }
  }

  /** The store right after the cut. */
  lemma BehindCut(w: World, body: Body, i: nat, j: nat, offset: u64)
    requires CutsBehind(w, body, i, j, offset)
    ensures EndTruncated(w, body[i][j].id) == Some(EndCut(w, body[i][j].id, offset))
    ensures var v, segs := EndCut(w, body[i][j].id, offset), w.mem.state.segments;
      && v.mem.state == RolledBack(w.mem.state, i) && ManifestOk(v)
      && v.disk.segments == w.disk.segments[segs[i].id := Image(body[i])[..offset]]
      && v.mem.lastEntry == Some(body[i][j].id) && v.mem.activeId == segs[i].id && v.mem.activePos == offset
      && !v.mem.rolloverPending
  {
    hide *;
    BehindParts(w, body, i, j, offset);
    var last := body[i][j].id;
    TruncateEndKeeps(w.mem.state, i, offset);
    CutLogged(w, i, last, offset, RolledBack(w.mem.state, i));
    CutMem(w, i, last, offset, RolledBack(w.mem.state, i));
    EndTruncatedIs(w, last);
    FilesOkFileIn(w.disk, w.mem.state.segments, body, i);
    CutFileIs(w, i, last, offset, Image(body[i]));
    LoggedManifest(w, last, offset);
  }

  lemma LoggedManifest(w: World, last: EntryId, offset: u64)
    requires w.mem.state.segments != []
    ensures ManifestOk(Logged(w.(disk := CutDisk(w, last, offset)), EndOp(w, last, offset)))
         <==> ManifestOk(EndCut(w, last, offset))
  {
    hide WriteAt, Encode, Applied, ManifestHolds, TruncatedEnd, CutDisk, EndOp;
  }

  lemma CutFileIs(w: World, i: nat, last: EntryId, offset: u64, file: seq<byte>)
    requires i < |w.mem.state.segments| && TargetIndex(w.mem.state.segments, last) == i
    requires FileIn(w.disk, w.mem.state.segments[i].id) == file && offset <= |file|
    ensures CutDisk(w, last, offset).segments == w.disk.segments[w.mem.state.segments[i].id := file[..offset]]
  {
    hide TargetIndex;
  }

  lemma UpToSegment(s: State, body: Body, i: nat)
    requires StateOk(s) && BodyOk(s, body) && i < |body| && body[i] != []
    ensures BodyOk(RolledBack(s, i), body[..i + 1])
  {
    var j := |body[i]| - 1;
    CutBodyOk(s, body, i, j);
    assert body[i][..j + 1] == body[i];
    assert CutBody(body, i, j) == body[..i + 1];
    hide BodyOk, StateOk;
  }

  lemma UpToOffset(body: Body, i: nat, offset: nat)
    requires i < |body| && MAGIC_LEN <= offset && FramesBefore(body, i, offset) > 0
    ensures CutLast(body[..i + 1], offset) == CutBody(body, i, FramesBefore(body, i, offset) - 1)
  {
    hide Whole;
    assert body[..i + 1][..i] == body[..i] && body[..i + 1][i] == body[i];
  }

  /** The disk after the cut is one recovery can bring back, with every whole frame before the offset. */
  lemma BehindRecoverable(w: World, body: Body, i: nat, j: nat, offset: u64)
    requires CutsBehind(w, body, i, j, offset)
    ensures MAGIC_LEN <= offset && i < |body| && FramesBefore(body, i, offset) > j
    ensures Recoverable(EndCut(w, body[i][j].id, offset).disk, RolledBack(w.mem.state, i),
                        CutBody(body, i, FramesBefore(body, i, offset) - 1))
  {
    hide *;
    BehindParts(w, body, i, j, offset);
    BehindCut(w, body, i, j, offset);
    var s, d := w.mem.state, EndCut(w, body[i][j].id, offset).disk;
    KeepsWanted(body, i, j, offset);
    UpToOffset(body, i, offset);
    TruncateEndKeeps(s, i, offset);
    UpToSegment(s, body, i);
    RolledBackSegments(s, i);
    ReadableManifest(EndCut(w, body[i][j].id, offset));
    BehindFiles(w.disk, s.segments, body, i, offset, d, body[..i + 1], s.segments[..i + 1]);
    KeepsWidths(w, body, i);
    LiveId(s.segments, i);
    SmallIds(w, body, s.segments[i].id, Image(body[i])[..offset], d);
    CutRecoverable(RolledBack(s, i), body[..i + 1], d, offset);
  }

  lemma ReadableManifest(v: World)
    requires ManifestOk(v)
    ensures ManifestReadable(v.disk.manifest, v.mem.state)
  {
    HoldsReadable(v.disk.manifest, v.mem.state);
    hide ManifestHolds, ManifestReadable;
  }

  lemma KeepsWidths(w: World, body: Body, i: nat)
    requires Inv(w, body) && i < |body|
    ensures |Image(body[i])| < U64_LIMIT
  {
    var segs := w.mem.state.segments;
    HasSegments(w, body);
    ActiveFile(w, body);
    if i < |body| - 1 {
      assert SealedAt(w.mem.state, body, i);
    }
    hide Inv, StateOk, FilesOk, DistinctIds, Image, FileAt;
  }

  lemma LiveId(segs: seq<Segment>, i: nat)
    requires i < |segs|
    ensures segs[i].id in IdSet(segs)
  {
  }

  lemma SmallIds(w: World, body: Body, id: SegmentId, file: seq<byte>, d: Disk)
    requires Inv(w, body) && id in IdSet(w.mem.state.segments) && d.segments == w.disk.segments[id := file]
    ensures forall k :: k in d.segments ==> k + 1 < U32_LIMIT
  {
    assert IdsOk(w.mem, w.disk);
    hide Inv, IdSet;
  }

  lemma BehindFiles(d0: Disk, segs: seq<Segment>, body: Body, i: nat, offset: nat, d: Disk, bs: Body, ss: seq<Segment>)
    requires i < |body| == |segs| && FilesOk(d0, segs, body) && DistinctIds(segs)
    requires MAGIC_LEN <= offset <= |Image(body[i])| && bs == body[..i + 1] && ss == segs[..i + 1]
    requires d.segments == d0.segments[segs[i].id := Image(body[i])[..offset]]
    ensures forall k :: 0 <= k < i ==> FileAt(d, ss[k], bs[k])
    ensures CutFile(d, ss[i].id, bs[i], offset)
  {
    hide Image;
    forall k | 0 <= k < i
      ensures FileAt(d, ss[k], bs[k])
    {
      assert FileAt(d0, segs[k], body[k]);
      assert segs[k].id != segs[i].id;
    }
  }

  /** What a cut at a wrong offset leads to.  After the next open the store is valid again and holds every entry up to
      the last whole frame before the offset: all that were asked to go, and lie before it, are back. */
  lemma CutBehindReopens(trigger: nat, w: World, body: Body, i: nat, j: nat, offset: u64)
    requires CutsBehind(w, body, i, j, offset)
    ensures MAGIC_LEN <= offset && i < |body| && j < FramesBefore(body, i, offset) <= |body[i]|
    ensures var last, kept := body[i][j].id, body[i][FramesBefore(body, i, offset) - 1].id;
      && EndTruncated(w, last).Some?
      && var r := Open(trigger, EndTruncated(w, last).value.disk);
         && r.result.Success?
         && var v := World(r.result.value, r.disk);
            && Valid(v) && Entries(v) == UpToId(Concat(body), kept)
            && (kept > last <==> FramesBefore(body, i, offset) > j + 1)
  {
    hide *;
    BehindParts(w, body, i, j, offset);
    BehindCut(w, body, i, j, offset);
    BehindRecoverable(w, body, i, j, offset);
    var d, m := EndTruncated(w, body[i][j].id).value.disk, FramesBefore(body, i, offset);
    OpenRecovers(trigger, d, RolledBack(w.mem.state, i), CutBody(body, i, m - 1));
    var r := Open(trigger, d);
    InvIsValid(World(r.result.value, r.disk), CutBody(body, i, m - 1));
    CutKeeps(w.mem.state, body, i, m - 1);
    LaterIsGreater(body[i], j, m - 1);
  }

  lemma LaterIsGreater(fs: seq<Frame>, j: nat, k: nat)
    requires Increasing(fs) && j <= k < |fs|
    ensures fs[k].id > fs[j].id <==> k > j
  {
  }

  // ── Pushing before the next open ────────────────────────────────────────────

  lemma BehindBody(w: World, body: Body, i: nat, j: nat, offset: u64, m: nat)
    requires CutsBehind(w, body, i, j, offset) && 0 < m <= |body[i]| && offset == |Image(body[i][..m])|
    ensures FilesOk(EndCut(w, body[i][j].id, offset).disk, w.mem.state.segments[..i + 1], CutBody(body, i, m - 1))
  {
    hide *;
    BehindParts(w, body, i, j, offset);
    BehindCut(w, body, i, j, offset);
    var segs, d := w.mem.state.segments, EndCut(w, body[i][j].id, offset).disk;
    CutFiles(w.disk, segs, body, i, m - 1);
    FilesOkFileIn(w.disk, segs, body, i);
    TakeIsCut(Image(body[i]), offset);
    SameSegments(w.disk, d, segs, i, Image(body[i])[..offset], CutBody(body, i, m - 1));
  }

  lemma TakeIsCut(file: seq<byte>, n: nat)
    requires n <= |file|
    ensures SetLen(file, n) == file[..n]
  {
  }

  lemma SameSegments(d: Disk, d': Disk, segs: seq<Segment>, i: nat, file: seq<byte>, body: Body)
    requires i < |segs| && FilesOk(WithSegment(d, segs[i].id, file), segs[..i + 1], body)
    requires d'.segments == d.segments[segs[i].id := file]
    ensures FilesOk(d', segs[..i + 1], body)
  {
    FilesOkSame(WithSegment(d, segs[i].id, file), d', segs[..i + 1], body);
    hide FilesOk;
  }

  lemma FirstDistinct(segs: seq<Segment>, n: nat)
    requires DistinctIds(segs) && n <= |segs|
    ensures DistinctIds(segs[..n])
  {
  }

  /** When the wrong offset is the end of frame `m - 1`, a batch pushed before the next open lands behind that frame.
      The log then has the entries that were rolled back, and after them the new ones, whose ids the caller may have
      chosen from the first one rolled back on. */
  lemma PushBehind(w: World, body: Body, i: nat, j: nat, offset: u64, m: nat, batch: seq<Frame>)
    requires CutsBehind(w, body, i, j, offset) && 0 < m <= |body[i]| && offset == |Image(body[i][..m])| && batch != []
    ensures EndTruncated(w, body[i][j].id).Some?
    ensures var kept, v := body[i][m - 1].id, EndTruncated(w, body[i][j].id).value;
      && v.mem.lastEntry == Some(body[i][j].id)
      && Entries(Written(v, batch)) == UpToId(Concat(body), kept) + batch
      && (batch[0].id <= kept ==> !Increasing(Entries(Written(v, batch))) && !Valid(Written(v, batch)))
  {
    hide *;
    BehindParts(w, body, i, j, offset);
    BehindCut(w, body, i, j, offset);
    BehindBody(w, body, i, j, offset, m);
    var v, segs, cut := EndCut(w, body[i][j].id, offset), w.mem.state.segments[..i + 1], CutBody(body, i, m - 1);
    RolledBackSegments(w.mem.state, i);
    CutBodyLast(body, i, m);
    FirstDistinct(w.mem.state.segments, i + 1);
    FlushedFiles(v, segs, cut, batch);
    BodyIsRead(Written(v, batch).disk, segs, Extended(cut, batch));
    EntriesOf(Written(v, batch), Extended(cut, batch));
    ExtendedConcat(cut, batch);
    CutKeeps(w.mem.state, body, i, m - 1);
    LastKept(body, i, m);
    if batch[0].id <= body[i][m - 1].id {
      NotIncreasing(Concat(cut), batch);
      if Valid(Written(v, batch)) {
        EntriesIncrease(Written(v, batch));
      }
    }
  }

  lemma CutBodyLast(body: Body, i: nat, m: nat)
    requires i < |body| && 0 < m <= |body[i]|
    ensures var cut := CutBody(body, i, m - 1); |cut| == i + 1 && cut[i] == body[i][..m]
  {
  }

  lemma FlushedFiles(v: World, segs: seq<Segment>, body: Body, batch: seq<Frame>)
    requires v.mem.state.segments == segs && |segs| == |body| > 0 && FilesOk(v.disk, segs, body) && DistinctIds(segs)
    requires v.mem.activeId == segs[|body| - 1].id && v.mem.activePos == |Image(body[|body| - 1])|
    requires !v.mem.rolloverPending && batch != []
    ensures Written(v, batch).mem.state == v.mem.state
    ensures FilesOk(Written(v, batch).disk, segs, Extended(body, batch))
  {
    FlushFiles(v.disk, segs, body, batch);
    hide FilesOk, DistinctIds, WriteAt, EncodeAll, Image, Extended, FlushedMem, FileIn;
    assert FlushedMem(v.mem, batch).state == v.mem.state by { FlushedState(v, batch); }
  }

  lemma ExtendedConcat(body: Body, batch: seq<Frame>)
    requires body != []
    ensures Concat(Extended(body, batch)) == Concat(body) + batch
  {
    hide Concat;
    var n := |body| - 1;
    assert body == body[..n] + [body[n]];
    ConcatSplit(body[..n], [body[n]]);
    ConcatSplit(body[..n], [body[n] + batch]);
    ConcatOne(body[n]);
    ConcatOne(body[n] + batch);
    assert Concat(body[..n]) + (body[n] + batch) == (Concat(body[..n]) + body[n]) + batch;
  }

  lemma LastKept(body: Body, i: nat, m: nat)
    requires i < |body| && 0 < m <= |body[i]|
    ensures var log := Concat(CutBody(body, i, m - 1)); log != [] && LastId(log) == body[i][m - 1].id
  {
    hide Concat;
    ConcatSplit(body[..i], [body[i][..m]]);
    ConcatOne(body[i][..m]);
  }

  lemma NotIncreasing(log: seq<Frame>, batch: seq<Frame>)
    requires log != [] && batch != [] && batch[0].id <= LastId(log)
    ensures !Increasing(log + batch)
  {
    var all := log + batch;
    assert all[|log| - 1] == log[|log| - 1] && all[|log|] == batch[0];
  }
}
