/** Entries below the first id their segment was recorded with.  A rollover is recorded with the first id of the batch
    that asked for it.  When the process ends before that batch is written, callers may come back with a smaller id. */
module Misplaced {
  import opened Basics
  import opened Frames
  import opened State
  import opened StateLaws
  import opened Disk
  import opened Log
  import opened World
  import opened Invariant
  import opened Writing
  import opened TruncatingStart
  import opened TruncatingEnd
  import opened CrashSteps
  import opened Drifting

  /** The active segment is empty, and the batch is one that callers may write: its ids ascend from above the last. */
  ghost predicate FirstBatch(w: World, body: Body, batch: seq<Frame>) {
    && Inv(w, body) && body[|body| - 1] == []
    && batch != [] && Increasing(batch)
    && (w.mem.lastEntry.Some? ==> w.mem.lastEntry.value < batch[0].id)
    && w.mem.activePos + SizeOf(batch) < U64_LIMIT
  }

  lemma FirstParts(w: World, body: Body, batch: seq<Frame>)
    requires FirstBatch(w, body, batch)
    ensures Inv(w, body) && batch != [] && Increasing(batch) && !w.mem.rolloverPending
    ensures 0 < |body| == |w.mem.state.segments| && body[|body| - 1] == []
    ensures StateOk(w.mem.state) && BodyOk(w.mem.state, body) && FilesOk(w.disk, w.mem.state.segments, body)
    ensures DistinctIds(w.mem.state.segments) && AscendingFirsts(w.mem.state.segments)
    ensures w.mem.activeId == w.mem.state.segments[|body| - 1].id && w.mem.activePos == |Image([])|
    ensures w.mem.activeFirst == w.mem.state.segments[|body| - 1].firstEntry
    ensures |body| > 1 ==> body[|body| - 2] != [] && LastId(body[|body| - 2]) < batch[0].id
  {
    HasSegments(w, body);
    ActiveFile(w, body);
    assert CursorOk(w.mem, body) && LastOk(w.mem.lastEntry, w.mem.state, body);
    assert |body| > 1 ==> SealedAt(w.mem.state, body, |body| - 2);
    hide BodyOk, FilesOk, IdsOk, ManifestOk, IndexSound, DistinctIds, Image, SizeOf, FileAt;
  }

  /** The batch is stored, whatever its ids. */
  lemma FirstStored(w: World, body: Body, batch: seq<Frame>)
    requires FirstBatch(w, body, batch)
    ensures var v := Written(w, batch);
      && v.mem.state == w.mem.state && v.mem.lastEntry == Some(LastId(batch))
      && FilesOk(v.disk, v.mem.state.segments, Extended(body, batch))
      && Entries(v) == Concat(body) + batch
  {
    hide *;
    FirstParts(w, body, batch);
    var v, segs := Written(w, batch), w.mem.state.segments;
    FlushedFiles(w, segs, body, batch);
    WrittenLast(w, batch);
    BodyIsRead(v.disk, segs, Extended(body, batch));
    EntriesOf(v, Extended(body, batch));
    ExtendedConcat(body, batch);
  }

  lemma WrittenLast(w: World, batch: seq<Frame>)
    requires batch != [] && !w.mem.rolloverPending
    ensures Written(w, batch).mem.lastEntry == Some(LastId(batch))
  {
    hide WriteAt, EncodeAll, SizeOf;
  }

  /** Every sealed entry lies below the batch. */
  lemma SealedBelow(w: World, body: Body, batch: seq<Frame>, i: nat)
    requires FirstBatch(w, body, batch) && i < |body| - 1
    ensures FramesBelow(body[i], batch[0].id)
  {
    hide *;
    FirstParts(w, body, batch);
    UpToLater(w.mem.state, body, i, |body| - 2, batch[0].id);
  }

  lemma UpToLater(s: State, body: Body, i: nat, n: nat, limit: EntryId)
    requires BodyOk(s, body) && AscendingFirsts(s.segments) && i <= n < |body|
    requires body[n] != [] && LastId(body[n]) < limit
    ensures FramesBelow(body[i], limit)
  {
    assert InSegment(s.segments[n], body[n]);
    hide BodyOk, AscendingFirsts;
    forall k | 0 <= k < |body[i]|
      ensures body[i][k].id < limit
    {
      if i < n {
        AcrossSegments(s, body, i, n, k, |body[n]| - 1);
      }
    }
  }

  lemma WhereLooked(segs: seq<Segment>, last: EntryId)
    requires segs != [] && AscendingFirsts(segs)
    ensures TargetIndex(segs, last) == |segs| - 1 <==> |segs| == 1 || last >= segs[|segs| - 1].firstEntry
  {
    TargetSplits(segs, last);
    hide TargetIndex;
  }

  lemma LookedFile(v: World, last: EntryId, grown: Body)
    requires v.mem.state.segments != [] && FilesOk(v.disk, v.mem.state.segments, grown)
    ensures var i := TargetIndex(v.mem.state.segments, last);
      && OpenSegment(v.disk, Target(v, last)) == Some(Image(grown[i])) && FileIn(v.disk, Target(v, last)) == Image(grown[i])
  {
    var i := TargetIndex(v.mem.state.segments, last);
    assert FileAt(v.disk, v.mem.state.segments[i], grown[i]);
    FileOfBody(SEGMENT_MAGIC, grown[i]);
    hide FilesOk, TargetIndex, EncodeAll;
  }

  /** `truncate_end` on an entry of such a batch, other than its last: it is found if and only if it is not below the
      first id the segment was recorded with, or there is no segment before; otherwise the call fails. */
  lemma BelowFirstNotFound(w: World, body: Body, batch: seq<Frame>, k: nat, v: World)
    requires FirstBatch(w, body, batch) && k < |batch| - 1 && v == Written(w, batch)
    requires v.mem.state.segments != [] && CanTruncateEnd(v, batch[k].id)
    ensures Entries(v) == Concat(body) + batch
    ensures EndTruncated(v, batch[k].id).Some? <==> |v.mem.state.segments| == 1 || batch[k].id >= v.mem.activeFirst
  {
    hide *;
    FirstParts(w, body, batch);
    FirstStored(w, body, batch);
    WrittenFirst(w, batch);
    var segs, last, grown := v.mem.state.segments, batch[k].id, Extended(body, batch);
    var i, n := TargetIndex(segs, last), |body| - 1;
    WhereLooked(segs, last);
    ExtendedAt(body, batch);
    LookedFile(v, last, grown);
    NotLast(v, batch, k);
    assert [] + batch == batch;
    if i == n {
      UniqueId(batch, k);
    } else {
      SealedBelow(w, body, batch, i);
      NoSuchId(body[i], batch, k);
    }
    AfterInImage(grown[i], last);
    LookedOffset(v, last, grown[i]);
    FoundIff(v, last);
  }

  lemma WrittenFirst(w: World, batch: seq<Frame>)
    requires batch != [] && !w.mem.rolloverPending
    ensures Written(w, batch).mem.activeFirst == w.mem.activeFirst
  {
    hide WriteAt, EncodeAll, SizeOf;
  }

  lemma NotLast(v: World, batch: seq<Frame>, k: nat)
    requires batch != [] && Increasing(batch) && k < |batch| - 1 && v.mem.lastEntry == Some(LastId(batch))
    ensures !IsEndNoop(v.mem, batch[k].id)
  {
  }

  lemma NoSuchId(fs: seq<Frame>, batch: seq<Frame>, k: nat)
    requires batch != [] && Increasing(batch) && k < |batch| && FramesBelow(fs, batch[0].id)
    ensures IndexOfId(fs, batch[k].id) == None
  {
    assert batch[0].id <= batch[k].id;
  }

  lemma LookedOffset(v: World, last: EntryId, fs: seq<Frame>)
    requires v.mem.state.segments != [] && CanTruncateEnd(v, last)
    requires OpenSegment(v.disk, Target(v, last)) == Some(Image(fs)) && FileIn(v.disk, Target(v, last)) == Image(fs)
    requires AfterFrom(Image(fs), MAGIC_LEN, last) ==
      match IndexOfId(fs, last) { case None => None case Some(j) => Some(|Image(fs[..j + 1])|) }
    ensures CutOffset(v, last).Some? <==> IndexOfId(fs, last).Some?
  {
    hide *;
    if IndexOfId(fs, last).Some? {
      ImageTake(fs, IndexOfId(fs, last).value + 1);
    }
    CutOffsetOf(v, fs, last);
  }

  lemma FoundIff(v: World, last: EntryId)
    requires v.mem.state.segments != [] && !IsEndNoop(v.mem, last)
    ensures EndTruncated(v, last).Some? <==> CutOffset(v, last).Some?
  {
    hide CutOffset, EndCut;
  }
}
