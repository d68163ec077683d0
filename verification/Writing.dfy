/** Batches and rollovers keep the invariant and append to the log. */
module Writing {
  import opened Basics
  import opened Frames
  import opened State
  import opened StateLaws
  import opened Codec
  import opened Disk
  import opened Index
  import opened Log
  import opened World
  import opened Invariant

  /** What the source asks of a batch: ids strictly increasing, above the last entry.  Then the integer widths (offsets
      in 64 bits, segment ids below the maximum), and that no id lies below the first one the active segment was
      recorded with.  That is not asked, but it holds unless the process ended between a rollover and its batch;
      `Misplaced` says what happens then. */
  ghost predicate CanWrite(m: Mem, batch: seq<Frame>) {
    batch != [] ==>
      && Increasing(batch)
      && m.activeFirst <= batch[0].id
      && (m.lastEntry.Some? ==> m.lastEntry.value < batch[0].id)
      && m.activePos + SizeOf(batch) < U64_LIMIT
      && m.nextId + 1 < U32_LIMIT
  }

  // ── Rollover ────────────────────────────────────────────────────────────────

  function SealFor(m: Mem): Seal {
    Seal(m.activeFirst, m.lastEntry.GetOr(m.activeFirst), Wrap32(m.activeCount), m.activePos)
  }

  function RolledState(m: Mem, first: EntryId): State {
    m.state.(seals := m.state.seals[m.activeId := SealFor(m)],
             segments := m.state.segments + [Segment(m.nextId, first)],
             active := Some(m.nextId))
  }

  ghost predicate CanRoll(w: World, body: Body, first: EntryId) {
    && Inv(w, body)
    && body[|body| - 1] != [] && LastId(body[|body| - 1]) < first
    && w.mem.nextId + 1 < U32_LIMIT
  }

  lemma NextIsFresh(w: World, body: Body)
    requires Inv(w, body)
    ensures w.mem.nextId !in w.disk.segments
    ensures w.mem.nextId !in IdSet(w.mem.state.segments) && w.mem.nextId !in w.mem.state.dead
  {
    hide StateOk, BodyOk, FilesOk, CursorOk, LastOk, ManifestOk, IndexSound;
  }

  lemma RollApplies(w: World, body: Body, first: EntryId)
    requires CanRoll(w, body, first)
    ensures Applied(w.mem.state, RollOp(w.mem, first)) == Success(RolledState(w.mem, first))
    ensures StateOk(RolledState(w.mem, first))
  {
    var s, n := w.mem.state, |body| - 1;
    NextIsFresh(w, body);
    assert InSegment(s.segments[n], body[n]);
    RollKeeps(s, SealFor(w.mem), Segment(w.mem.nextId, first));
    hide Applied, BodyOk, FilesOk, IdsOk, ManifestOk, IndexSound;
  }

  lemma RollBody(w: World, body: Body, first: EntryId)
    requires CanRoll(w, body, first)
    ensures BodyOk(RolledState(w.mem, first), body + [[]])
  {
    var s, t, n := w.mem.state, RolledState(w.mem, first), |body| - 1;
    var body' := body + [[]];
    hide FilesOk, IdsOk, ManifestOk, IndexSound;
    forall i | 0 <= i < |body'|
      ensures InSegment(t.segments[i], body'[i])
    {
      if i <= n {
        assert InSegment(s.segments[i], body[i]);
      }
    }
    forall i | 0 <= i < |body'| - 1
      ensures SealedAt(t, body', i)
    {
      if i < n {
        assert SealedAt(s, body, i);
        assert s.segments[i].id != s.segments[n].id;
      }
    }
  }

  lemma RollFiles(d: Disk, segs: seq<Segment>, body: Body, next: Segment)
    requires FilesOk(d, segs, body) && next.id !in d.segments
    ensures FilesOk(WithSegment(d, next.id, SEGMENT_MAGIC), segs + [next], body + [[]])
  {
    var d' := WithSegment(d, next.id, SEGMENT_MAGIC);
    EncodeAllEmpty();
    assert Image([]) == SEGMENT_MAGIC + [] == SEGMENT_MAGIC;
    forall i | 0 <= i < |body| + 1
      ensures FileAt(d', (segs + [next])[i], (body + [[]])[i])
    {
      if i < |body| {
        assert FileAt(d, segs[i], body[i]);
      }
    }
  }

  lemma RollIds(m: Mem, d: Disk, first: EntryId)
    requires IdsOk(m, d) && m.nextId + 1 < U32_LIMIT
    ensures IdsOk(m.(state := RolledState(m, first), nextId := m.nextId + 1), WithSegment(d, m.nextId, SEGMENT_MAGIC))
  {
    var segs := m.state.segments + [Segment(m.nextId, first)];
    IdSetLast(segs, |m.state.segments|);
    assert segs[..|m.state.segments|] == m.state.segments && segs[..|segs|] == segs;
    hide IdSet;
  }

  /** A rollover keeps the invariant and leaves the log as it was, with a fresh empty active segment. */
  lemma RollKeepsInv(w: World, body: Body, first: EntryId)
    requires CanRoll(w, body, first)
    ensures Inv(RolledOver(w, first), body + [[]])
  {
    var created := w.(disk := WithSegment(w.disk, w.mem.nextId, SEGMENT_MAGIC));
    var next, t := Segment(w.mem.nextId, first), RolledState(w.mem, first);
    NextIsFresh(w, body);
    RollApplies(w, body, first);
    RollBody(w, body, first);
    RollFiles(w.disk, w.mem.state.segments, body, next);
    RollIds(w.mem, w.disk, first);
    NumbersFit(RollOp(w.mem, first).op);
    LoggedKeepsManifest(created, RollOp(w.mem, first), t);
    IndexGrows(w.mem.index, w.mem.state.segments, body, t.segments, body + [[]]);
    RollAssembles(w, body, first);
  }

  lemma RollAssembles(w: World, body: Body, first: EntryId)
    requires CanRoll(w, body, first)
    requires var created := w.(disk := WithSegment(w.disk, w.mem.nextId, SEGMENT_MAGIC));
      var logged := Logged(created, RollOp(w.mem, first));
      var t := RolledState(w.mem, first);
      && ManifestOk(logged)
      && logged.mem == w.mem.(manifestPos := logged.mem.manifestPos, state := t)
      && logged.disk == created.disk.(manifest := logged.disk.manifest)
      && StateOk(t) && BodyOk(t, body + [[]])
      && FilesOk(created.disk, t.segments, body + [[]])
      && IdsOk(w.mem.(state := t, nextId := w.mem.nextId + 1), created.disk)
      && IndexSound(w.mem.index, t.segments, body + [[]])
    ensures Inv(RolledOver(w, first), body + [[]])
  {
    hide StateOk, BodyOk, ManifestHolds, IndexSound, Logged, RollOp, IdSet, Image;
    EncodeAllEmpty();
    assert |Image([])| == MAGIC_LEN;
    var w' := RolledOver(w, first);
    assert w'.mem.state == RolledState(w.mem, first);
    assert w'.disk.segments == WithSegment(w.disk, w.mem.nextId, SEGMENT_MAGIC).segments;
  }

  // ── Flushing a batch ────────────────────────────────────────────────────────

  function Extended(body: Body, batch: seq<Frame>): Body
    requires body != []
  {
    body[..|body| - 1] + [body[|body| - 1] + batch]
  }

  lemma ExtendedAt(body: Body, batch: seq<Frame>)
    requires body != []
    ensures var body' := Extended(body, batch);
      && |body'| == |body|
      && body'[|body| - 1] == body[|body| - 1] + batch
      && (forall i :: 0 <= i < |body| - 1 ==> body'[i] == body[i])
      && (forall i :: 0 <= i < |body| ==> body[i] <= body'[i])
  {
  }

  ghost predicate CanFlush(w: World, body: Body, batch: seq<Frame>) {
    && Inv(w, body)
    && batch != [] && Increasing(batch)
    && w.mem.activeFirst <= batch[0].id
    && (body[|body| - 1] != [] ==> LastId(body[|body| - 1]) < batch[0].id)
    && w.mem.activePos + SizeOf(batch) < U64_LIMIT
  }

  lemma ExtendInSegment(seg: Segment, fs: seq<Frame>, batch: seq<Frame>)
    requires InSegment(seg, fs) && batch != [] && Increasing(batch) && seg.firstEntry <= batch[0].id
    requires fs != [] ==> LastId(fs) < batch[0].id
    ensures InSegment(seg, fs + batch)
  {
    var all := fs + batch;
    assert forall i :: 0 <= i < |batch| ==> batch[0].id <= batch[i].id;
    assert forall i :: 0 <= i < |fs| ==> fs[i].id <= LastId(fs);
  }

  lemma FlushBody(s: State, body: Body, batch: seq<Frame>)
    requires BodyOk(s, body) && body != []
    requires InSegment(s.segments[|body| - 1], body[|body| - 1] + batch)
    ensures BodyOk(s, Extended(body, batch))
  {
    var body' := Extended(body, batch);
    ExtendedAt(body, batch);
    hide Extended;
    forall i | 0 <= i < |body'|
      ensures InSegment(s.segments[i], body'[i])
    {
      assert i < |body| - 1 ==> InSegment(s.segments[i], body[i]);
    }
    forall i | 0 <= i < |body'| - 1
      ensures SealedAt(s, body', i)
    {
      assert SealedAt(s, body, i);
    }
  }

  lemma ImageLength(fs: seq<RawFrame>)
    ensures |Image(fs)| == MAGIC_LEN + SizeOf(fs) && Image(fs) == FileOf(SEGMENT_MAGIC, fs)
  {
  }

  lemma FlushFiles(d: Disk, segs: seq<Segment>, body: Body, batch: seq<Frame>)
    requires FilesOk(d, segs, body) && body != [] && DistinctIds(segs)
    ensures var n := |body| - 1;
      FilesOk(WithSegment(d, segs[n].id, WriteAt(FileIn(d, segs[n].id), |Image(body[n])|, EncodeAll(batch))),
              segs, Extended(body, batch))
  {
    hide WriteAt, EncodeAll, SizeOf, FileOf, Extended;
    var n := |body| - 1;
    assert FileAt(d, segs[n], body[n]);
    FileOfAppend(SEGMENT_MAGIC, body[n], batch);
    ImageLength(body[n]);
    ExtendedAt(body, batch);
    assert WriteAt(Image(body[n]), |Image(body[n])|, EncodeAll(batch)) == Image(body[n] + batch);
    hide Image;
    var d' := WithSegment(d, segs[n].id, WriteAt(FileIn(d, segs[n].id), |Image(body[n])|, EncodeAll(batch)));
    forall i | 0 <= i < |body|
      ensures FileAt(d', segs[i], Extended(body, batch)[i])
    {
      assert FileAt(d, segs[i], body[i]);
      assert i < n ==> segs[i].id != segs[n].id;
    }
  }

  lemma FlushLast(s: State, body: Body, batch: seq<Frame>)
    requires 0 < |body| == |s.segments| && batch != []
    ensures LastOk(Some(LastId(batch)), s, Extended(body, batch))
  {
    ExtendedAt(body, batch);
    hide Extended;
    var fs := body[|body| - 1] + batch;
    assert LastId(fs) == LastId(batch);
  }

  lemma FlushCursor(m: Mem, body: Body, batch: seq<Frame>)
    requires CursorOk(m, body) && batch != [] && m.activePos + SizeOf(batch) < U64_LIMIT
    ensures CursorOk(FlushedMem(m, batch), Extended(body, batch))
  {
    ExtendedAt(body, batch);
    EncodeAllConcat(body[|body| - 1], batch);
    hide EncodeAll, SizeOf, Extended, Wrap64, LastOk;
    var fs := body[|body| - 1] + batch;
    assert |Image(fs)| == |Image(body[|body| - 1])| + SizeOf(batch);
    assert fs != [];
  }

  /** Flushing appends the batch to the last body and keeps the invariant. */
  lemma FlushKeepsInv(w: World, body: Body, batch: seq<Frame>)
    requires CanFlush(w, body, batch)
    ensures Inv(Flushed(w, batch), Extended(body, batch))
  {
    var s, n := w.mem.state, |body| - 1;
    assert InSegment(s.segments[n], body[n]);
    assert FileAt(w.disk, s.segments[n], body[n]);
    assert IsLive(w, s.segments[n]);
    hide StateOk, BodyOk, FilesOk, IdsOk, ManifestOk, IndexSound, InSegment, FileAt;
    ExtendInSegment(s.segments[n], body[n], batch);
    FlushCursor(w.mem, body, batch);
    FlushLast(s, body, batch);
    FlushAssembles(w, body, batch);
  }

  ghost predicate IsLive(w: World, seg: Segment) {
    seg.id in w.disk.segments
  }

  lemma FlushAssembles(w: World, body: Body, batch: seq<Frame>)
    requires CanFlush(w, body, batch)
    requires InSegment(w.mem.state.segments[|body| - 1], body[|body| - 1] + batch)
    requires IsLive(w, w.mem.state.segments[|body| - 1])
    requires CursorOk(FlushedMem(w.mem, batch), Extended(body, batch))
    requires LastOk(Some(LastId(batch)), w.mem.state, Extended(body, batch))
    ensures Inv(Flushed(w, batch), Extended(body, batch))
  {
    var s := w.mem.state;
    assert DistinctIds(s.segments);
    FlushParts(w.disk, w.mem.index, s, body, batch);
    hide StateOk, BodyOk, FilesOk, LastOk, ManifestHolds, IndexSound, IdSet, WriteAt, EncodeAll, SizeOf, Image,
      Extended;
    var w' := Flushed(w, batch);
    assert w'.disk.segments.Keys == w.disk.segments.Keys;
  }

  lemma FlushParts(d: Disk, idx: seq<Indexed>, s: State, body: Body, batch: seq<Frame>)
    requires BodyOk(s, body) && FilesOk(d, s.segments, body) && IndexSound(idx, s.segments, body)
    requires body != [] && DistinctIds(s.segments)
    requires InSegment(s.segments[|body| - 1], body[|body| - 1] + batch)
    ensures var n := |body| - 1;
      && BodyOk(s, Extended(body, batch))
      && IndexSound(idx, s.segments, Extended(body, batch))
      && FilesOk(WithSegment(d, s.segments[n].id, WriteAt(FileIn(d, s.segments[n].id), |Image(body[n])|, EncodeAll(batch))),
                 s.segments, Extended(body, batch))
  {
    hide *;
    ExtendedAt(body, batch);
    assert |body| == |s.segments| by { BodyLength(s, body); }
    FlushBody(s, body, batch);
    FlushFiles(d, s.segments, body, batch);
    IndexGrows(idx, s.segments, body, s.segments, Extended(body, batch));
  }

  // ── A batch ─────────────────────────────────────────────────────────────────

  function WrittenBody(w: World, body: Body, batch: seq<Frame>): Body
    requires body != []
  {
    if batch == [] then body
    else if w.mem.rolloverPending then body + [batch]
    else Extended(body, batch)
  }

  lemma PlainRoll(w: World, body: Body, batch: seq<Frame>)
    requires Inv(w, body) && CanWrite(w.mem, batch) && batch != [] && w.mem.rolloverPending
    ensures CanRoll(w, body, batch[0].id)
    ensures var r := RolledOver(w, batch[0].id);
      r.mem.activePos == MAGIC_LEN && r.mem.activeFirst == batch[0].id && MAGIC_LEN + SizeOf(batch) < U64_LIMIT
  {
    hide StateOk, BodyOk, FilesOk, IdsOk, ManifestOk, IndexSound, SizeOf;
  }

  lemma RollThenFlush(w: World, body: Body, batch: seq<Frame>)
    requires Inv(w, body) && CanWrite(w.mem, batch) && batch != [] && w.mem.rolloverPending
    ensures Inv(Flushed(RolledOver(w, batch[0].id), batch), body + [batch])
  {
    assert Increasing(batch);
    hide Inv, CanRoll, RolledOver, Flushed, Increasing;
    PlainRoll(w, body, batch);
    RollKeepsInv(w, body, batch[0].id);
    var body' := body + [[]];
    FlushKeepsInv(RolledOver(w, batch[0].id), body', batch);
    assert [] + batch == batch;
    assert Extended(body', batch) == body + [batch];
  }

  lemma PlainFlush(w: World, body: Body, batch: seq<Frame>)
    requires Inv(w, body) && CanWrite(w.mem, batch) && batch != []
    ensures CanFlush(w, body, batch)
  {
    hide StateOk, BodyOk, FilesOk, IdsOk, ManifestOk, IndexSound, SizeOf;
  }

  /** A batch keeps the invariant, whether or not a rollover was pending. */
  lemma WriteKeepsInv(w: World, body: Body, batch: seq<Frame>)
    requires Inv(w, body) && CanWrite(w.mem, batch)
    ensures Inv(Written(w, batch), WrittenBody(w, body, batch))
  {
    hide Inv, CanFlush, CanWrite, RolledOver, Flushed, Extended;
    if batch != [] {
      if w.mem.rolloverPending {
        RollThenFlush(w, body, batch);
      } else {
        PlainFlush(w, body, batch);
        FlushKeepsInv(w, body, batch);
      }
    }
  }

  /** The log after a batch is the log before it followed by the batch. */
  lemma WriteAppends(w: World, body: Body, batch: seq<Frame>)
    requires body != []
    ensures Concat(WrittenBody(w, body, batch)) == Concat(body) + batch
  {
    var n := |body| - 1;
    ConcatOne(batch);
    if batch == [] {
      assert Concat(body) + [] == Concat(body);
    } else if w.mem.rolloverPending {
      ConcatSplit(body, [batch]);
    } else {
      assert body == body[..n] + [body[n]];
      ConcatSplit(body[..n], [body[n]]);
      ConcatSplit(body[..n], [body[n] + batch]);
      ConcatOne(body[n]);
      ConcatOne(body[n] + batch);
      assert Concat(body[..n]) + (body[n] + batch) == (Concat(body[..n]) + body[n]) + batch;
    }
  }

  lemma ActiveLength(w: World, body: Body)
    requires Inv(w, body)
    ensures |FileIn(w.disk, w.mem.activeId)| == w.mem.activePos && |w.mem.state.segments| == |body|
  {
    var n := |body| - 1;
    assert CursorOk(w.mem, body) && FilesOk(w.disk, w.mem.state.segments, body);
    assert FileAt(w.disk, w.mem.state.segments[n], body[n]);
    hide Inv, Image;
  }

  lemma PendingAfter(w: World, batch: seq<Frame>)
    requires batch != []
    ensures var m := Written(w, batch).mem; m.rolloverPending <==> m.activePos > w.mem.trigger
  {
    hide WriteAt, EncodeAll, SizeOf, Encode, RollOp, Applied;
  }

  /** One batch and the rollover rule: it adds a segment if and only if a rollover was due before it, and afterwards one
      is due if and only if the active file has grown past the trigger.  `Rollovers` has the law over whole runs. */
  lemma RolloverRule(w: World, body: Body, batch: seq<Frame>)
    requires Inv(w, body) && CanWrite(w.mem, batch) && batch != []
    ensures var w' := Written(w, batch);
      && (w'.mem.rolloverPending <==> |FileIn(w'.disk, w'.mem.activeId)| > w.mem.trigger)
      && |w'.mem.state.segments| == |w.mem.state.segments| + if w.mem.rolloverPending then 1 else 0
  {
    hide *;
    ActiveLength(w, body);
    NotEmptyBody(w, body);
    WrittenLength(w, body, batch);
    WriteKeepsInv(w, body, batch);
    ActiveLength(Written(w, batch), WrittenBody(w, body, batch));
    PendingAfter(w, batch);
  }

  lemma WrittenLength(w: World, body: Body, batch: seq<Frame>)
    requires body != [] && batch != []
    ensures |WrittenBody(w, body, batch)| == |body| + if w.mem.rolloverPending then 1 else 0
  {
    ExtendedAt(body, batch);
  }

  lemma NotEmptyBody(w: World, body: Body)
    requires Inv(w, body)
    ensures body != []
  {
    hide StateOk, BodyOk, FilesOk, IdsOk, ManifestOk, IndexSound, LastOk;
  }
}
