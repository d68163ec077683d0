/** What opening finds when an operation stopped after, or inside, any one of its disk steps. */
module CrashSteps {
  import opened Basics
  import opened Frames
  import opened State
  import opened StateLaws
  import opened Codec
  import opened Disk
  import opened Log
  import opened World
  import opened Invariant
  import opened Writing
  import opened TruncatingStart
  import opened TruncatingEnd
  import opened Housekeeping
  import opened Recovery
  import opened Reopening
  import opened Recovering
  import opened Crashes

  // ── A stop after, or inside, a disk step ────────────────────────────────────

  /** The step from `before` to `after` grew the manifest and was cut inside the record's header. */
  ghost predicate TornInManifest(before: Disk, after: Disk, d: Disk) {
    && d.segments == before.segments
    && before.manifest <= d.manifest <= after.manifest && |d.manifest| < |before.manifest| + HEADER_LEN
  }

  /** The step grew a segment file and was cut after any number of bytes. */
  ghost predicate TornInFile(before: Disk, after: Disk, d: Disk, id: SegmentId) {
    && id in before.segments && id in after.segments && id in d.segments
    && d == WithSegment(before, id, d.segments[id])
    && before.segments[id] <= d.segments[id] <= after.segments[id]
  }

  ghost predicate StoppedAt(before: Disk, after: Disk, d: Disk) {
    d == before || d == after || TornInManifest(before, after, d) || exists id :: TornInFile(before, after, d, id)
  }

  /** `d` is what a crash can leave while these disk steps are taken one after the other. */
  ghost predicate CrashOf(start: Disk, steps: seq<Disk>, d: Disk)
    decreases |steps|
  {
    if steps == [] then d == start else StoppedAt(start, steps[0], d) || CrashOf(steps[0], steps[1..], d)
  }

  lemma UnchangedFile(before: Disk, after: Disk, d: Disk, id: SegmentId)
    requires TornInFile(before, after, d, id) && before.segments[id] == after.segments[id]
    ensures d == before
  {
    var file := before.segments[id];
    assert |d.segments[id]| == |file| && d.segments[id] == file[..|file|] == file;
    assert before.segments[id := file] == before.segments;
  }

  lemma TailBytes(before: Disk, after: Disk, d: Disk) returns (tail: seq<byte>)
    requires TornInManifest(before, after, d)
    ensures d.manifest == before.manifest + tail && |tail| < HEADER_LEN
  {
    tail := d.manifest[|before.manifest|..];
  }

  /** Live files unchanged and at most a piece of a record header behind the manifest: the old store comes back. */
  lemma OldComesBack(trigger: nat, w: World, body: Body, d: Disk, tail: seq<byte>)
    requires Inv(w, body) && |tail| < HEADER_LEN && d.manifest == w.disk.manifest + tail
    requires FilesOk(d, w.mem.state.segments, body)
    requires forall id :: id in d.segments ==> id + 1 < U32_LIMIT
    ensures Reopens(trigger, d, Concat(body), w.mem.state.firstEntry, w.mem.state.meta)
  {
    assert ManifestOk(w);
    hide Inv, FilesOk, ManifestHolds, Reopens;
    ShortTailReadable(w.disk.manifest, w.mem.state, tail);
    StillRecoverable(w, body, d);
    RecoverableReopens(trigger, d, w.mem.state, body);
  }

  lemma WidthsOf(w: World, body: Body)
    requires Inv(w, body)
    ensures forall id :: id in w.disk.segments ==> id + 1 < U32_LIMIT
  {
    InvIsSettled(w, body);
    hide Inv, StateOk, BodyOk, FilesOk, ManifestHolds, IdSet;
  }

  /** One manifest record, torn inside its header or complete: the store from before or the one from after. */
  lemma LoggedCrash(trigger: nat, w: World, w': World, d: Disk)
    requires Valid(w) && Valid(w') && w'.disk.segments == w.disk.segments
    requires CrashOf(w.disk, [w'.disk], d)
    ensures ReopensLike(trigger, d, w) || ReopensLike(trigger, d, w')
  {
    assert [w'.disk][1..] == [];
    hide Inv, Reopens;
    if d == w'.disk {
      InvReopens(trigger, w', BodyOf(w'.disk, w'.mem.state.segments));
    } else {
      StoppedBefore(trigger, w, w'.disk, d);
    }
  }

  /** A step that changes no live file, stopped before it is complete. */
  lemma StoppedBefore(trigger: nat, w: World, after: Disk, d: Disk)
    requires Valid(w) && d != after && StoppedAt(w.disk, after, d)
    requires forall id :: id in w.disk.segments && id in after.segments ==> w.disk.segments[id] == after.segments[id]
    ensures ReopensLike(trigger, d, w)
  {
    var body := BodyOf(w.disk, w.mem.state.segments);
    hide Inv, Reopens;
    if TornInManifest(w.disk, after, d) {
      TornOld(trigger, w, body, after, d);
    } else {
      if id :| TornInFile(w.disk, after, d, id) {
        UnchangedFile(w.disk, after, d, id);
      }
      InvReopens(trigger, w, body);
    }
  }

  lemma TornOld(trigger: nat, w: World, body: Body, after: Disk, d: Disk)
    requires Inv(w, body) && TornInManifest(w.disk, after, d)
    ensures Reopens(trigger, d, Concat(body), w.mem.state.firstEntry, w.mem.state.meta)
  {
    var tail := TailBytes(w.disk, after, d);
    assert FilesOk(w.disk, w.mem.state.segments, body);
    WidthsOf(w, body);
    hide Inv, FilesOk, Reopens;
    FilesOkSame(w.disk, d, w.mem.state.segments, body);
    OldComesBack(trigger, w, body, d, tail);
  }

  /** `truncate_start` is crash-atomic: entries, head and metadata after a crash are all old or all new. */
  lemma TruncateStartCrash(trigger: nat, w: World, first: EntryId, meta: seq<Pair>, d: Disk)
    requires Valid(w) && CanTruncateStart(w.mem, first, meta) && first >= w.mem.state.firstEntry
    requires CrashOf(w.disk, [StartTruncated(w, first, meta).value.disk], d)
    ensures ReopensLike(trigger, d, w) || ReopensLike(trigger, d, StartTruncated(w, first, meta).value)
  {
    var w', body := StartTruncated(w, first, meta).value, BodyOf(w.disk, w.mem.state.segments);
    assert w'.disk.segments == w.disk.segments;
    hide StartTruncated, Inv, CanTruncateStart, ReopensLike, CrashOf;
    StartKeepsInv(w, body, first, meta);
    InvIsValid(w', body[EvictCount(w.mem.state.segments, w.mem.state.seals, first)..]);
    LoggedCrash(trigger, w, w', d);
  }

  /** So is a metadata write. */
  lemma MetadataCrash(trigger: nat, w: World, pairs: seq<Pair>, d: Disk)
    requires Valid(w) && Fits(ManifestOp(Metadata, pairs))
    requires CrashOf(w.disk, [MetadataWritten(w, pairs).disk], d)
    ensures ReopensLike(trigger, d, w) || ReopensLike(trigger, d, MetadataWritten(w, pairs))
  {
    var w', body := MetadataWritten(w, pairs), BodyOf(w.disk, w.mem.state.segments);
    assert w'.disk.segments == w.disk.segments;
    hide MetadataWritten, Inv, ReopensLike, CrashOf, Fits;
    MetadataKeepsInv(w, body, pairs);
    InvIsValid(w', body);
    LoggedCrash(trigger, w, w', d);
  }

  // ── Rollover and deletion ───────────────────────────────────────────────────

  /** A file the manifest does not know yet changes nothing that a caller can see. */
  lemma StrangerHarmless(trigger: nat, w: World, d: Disk, id: SegmentId, tail: seq<byte>)
    requires Valid(w) && id !in w.disk.segments && id + 1 < U32_LIMIT && |tail| < HEADER_LEN
    requires d.manifest == w.disk.manifest + tail
    requires id in d.segments && d.segments == w.disk.segments[id := d.segments[id]]
    ensures ReopensLike(trigger, d, w)
  {
    var segs, body := w.mem.state.segments, BodyOf(w.disk, w.mem.state.segments);
    assert FilesOk(w.disk, segs, body);
    WidthsOf(w, body);
    hide Inv, Reopens;
    forall i | 0 <= i < |body|
      ensures FileAt(d, segs[i], body[i])
    {
      assert FileAt(w.disk, segs[i], body[i]);
    }
    OldComesBack(trigger, w, body, d, tail);
  }

  /** Rollover is crash-atomic: stopping after, or inside, any of its disk steps gives back the same entries, head
      and metadata, with a next segment id above every live or dead one. */
  lemma RollCrash(trigger: nat, w: World, body: Body, first: EntryId, d: Disk)
    requires CanRoll(w, body, first) && CrashOf(w.disk, RollSteps(w, first), d)
    ensures ReopensLike(trigger, d, w)
  {
    var id, rolled := w.mem.nextId, RolledOver(w, first);
    var empty, created := WithSegment(w.disk, id, []), WithSegment(w.disk, id, SEGMENT_MAGIC);
    InvIsValid(w, body);
    NextIsFresh(w, body);
    RollKeepsInv(w, body, first);
    RollDisk(w, first);
    RollStepsAre(w, first, d);
    hide CanRoll, RolledOver, RollSteps, Inv, Valid, ReopensLike, CrashOf, StoppedAt;
    if d == w.disk || d == empty || d == created || StoppedAt(w.disk, empty, d) || StoppedAt(empty, created, d) {
      Creating(trigger, w, id, d);
    } else if d == rolled.disk {
      RolledReopens(trigger, w, body, first);
    } else {
      TornRoll(trigger, w, id, created, rolled.disk, d);
    }
  }

  lemma CrashOfOne(start: Disk, a: Disk, d: Disk)
    requires CrashOf(start, [a], d)
    ensures StoppedAt(start, a, d)
  {
    hide TornInFile, TornInManifest;
    assert [a][1..] == [];
    assert CrashOf(a, [], d) ==> d == a;
  }

  lemma CrashOfThree(start: Disk, a: Disk, b: Disk, c: Disk, d: Disk)
    requires CrashOf(start, [a, b, c], d)
    ensures StoppedAt(start, a, d) || StoppedAt(a, b, d) || StoppedAt(b, c, d)
  {
    hide StoppedAt;
    assert [a, b, c][1..] == [b, c] && [b, c][1..] == [c];
    assert CrashOf(a, [b, c], d) ==> StoppedAt(a, b, d) || CrashOf(b, [c], d);
    if CrashOf(b, [c], d) {
      CrashOfOne(b, c, d);
    }
  }

  lemma RollStepsAre(w: World, first: EntryId, d: Disk)
    requires CrashOf(w.disk, RollSteps(w, first), d)
    ensures var id := w.mem.nextId;
      var empty, created := WithSegment(w.disk, id, []), WithSegment(w.disk, id, SEGMENT_MAGIC);
      StoppedAt(w.disk, empty, d) || StoppedAt(empty, created, d) || StoppedAt(created, RolledOver(w, first).disk, d)
  {
    hide CrashOf, StoppedAt, RolledOver;
    var id := w.mem.nextId;
    CrashOfThree(w.disk, WithSegment(w.disk, id, []), WithSegment(w.disk, id, SEGMENT_MAGIC), RolledOver(w, first).disk, d);
  }

  lemma RollDisk(w: World, first: EntryId)
    ensures RolledOver(w, first).disk.segments == WithSegment(w.disk, w.mem.nextId, SEGMENT_MAGIC).segments
  {
    hide RollOp, WriteAt, Encode;
  }

  lemma Creating(trigger: nat, w: World, id: SegmentId, d: Disk)
    requires Valid(w) && id !in w.disk.segments && id + 1 < U32_LIMIT
    requires var empty, created := WithSegment(w.disk, id, []), WithSegment(w.disk, id, SEGMENT_MAGIC);
      StoppedAt(w.disk, empty, d) || StoppedAt(empty, created, d)
    ensures ReopensLike(trigger, d, w)
  {
    var empty, created := WithSegment(w.disk, id, []), WithSegment(w.disk, id, SEGMENT_MAGIC);
    hide Valid, ReopensLike;
    var before := if StoppedAt(w.disk, empty, d) then w.disk else empty;
    var after := if StoppedAt(w.disk, empty, d) then empty else created;
    assert d.manifest == w.disk.manifest + [];
    if StoppedAt(w.disk, empty, d) && d != empty {
      StoppedBefore(trigger, w, empty, d);
    } else {
      if other :| TornInFile(empty, created, d, other) && other != id {
        UnchangedFile(empty, created, d, other);
      }
      assert d.segments == w.disk.segments[id := d.segments[id]];
      StrangerHarmless(trigger, w, d, id, []);
    }
  }

  lemma TornRoll(trigger: nat, w: World, id: SegmentId, created: Disk, after: Disk, d: Disk)
    requires Valid(w) && id !in w.disk.segments && id + 1 < U32_LIMIT
    requires created == WithSegment(w.disk, id, SEGMENT_MAGIC) && after.segments == created.segments
    requires StoppedAt(created, after, d) && d != after
    ensures ReopensLike(trigger, d, w)
  {
    hide Valid, ReopensLike;
    var tail: seq<byte> := [];
    if TornInManifest(created, after, d) {
      tail := TailBytes(created, after, d);
    } else if other :| TornInFile(created, after, d, other) {
      UnchangedFile(created, after, d, other);
    }
    StrangerHarmless(trigger, w, d, id, tail);
  }

  lemma RolledReopens(trigger: nat, w: World, body: Body, first: EntryId)
    requires Inv(w, body) && CanRoll(w, body, first) && Inv(RolledOver(w, first), body + [[]])
    ensures ReopensLike(trigger, RolledOver(w, first).disk, w)
  {
    RollApplies(w, body, first);
    assert RolledOver(w, first).mem.state == RolledState(w.mem, first);
    InvIsValid(w, body);
    ConcatSplit(body, [[]]);
    ConcatOne([]);
    hide Inv, CanRoll, RolledOver, Reopens, Concat;
    assert Concat(body) + [] == Concat(body);
    InvReopens(trigger, RolledOver(w, first), body + [[]]);
  }

  lemma DeadOnly(trigger: nat, w: World, w': World, body: Body)
    requires Inv(w, body) && Inv(w', body)
    requires w'.mem.state == w.mem.state.(dead := w'.mem.state.dead)
    ensures Entries(w') == Entries(w)
    ensures forall d :: ReopensLike(trigger, d, w') <==> ReopensLike(trigger, d, w)
  {
    InvIsValid(w, body);
    InvIsValid(w', body);
    hide Inv, Reopens, Concat, BodyOf;
  }

  /** Between unlinking a dead file and recording it. */
  lemma UnlinkedReopens(trigger: nat, w: World, id: SegmentId, after: Disk, d: Disk)
    requires Valid(w) && id in w.mem.state.dead && after.segments == WithoutSegment(w.disk, id).segments
    requires d != after && StoppedAt(WithoutSegment(w.disk, id), after, d)
    ensures ReopensLike(trigger, d, w)
  {
    var body, un := BodyOf(w.disk, w.mem.state.segments), WithoutSegment(w.disk, id);
    WidthsOf(w, body);
    UnlinkedFiles(w.disk, w.mem.state, body, id);
    hide Inv, Reopens;
    var tail: seq<byte> := [];
    if TornInManifest(un, after, d) {
      tail := TailBytes(un, after, d);
    } else {
      if other :| TornInFile(un, after, d, other) {
        UnchangedFile(un, after, d, other);
      }
      assert d.manifest == w.disk.manifest + [];
    }
    FilesOkSame(un, d, w.mem.state.segments, body);
    OldComesBack(trigger, w, body, d, tail);
  }

  lemma DeleteOneCrash(trigger: nat, w: World, body: Body, id: SegmentId, d: Disk)
    requires Inv(w, body) && id in w.mem.state.dead && Inv(DeletedOne(w, id), body)
    requires DeletedOne(w, id).mem.state == w.mem.state.(dead := w.mem.state.dead - {id})
    requires var un := WithoutSegment(w.disk, id);
      StoppedAt(w.disk, un, d) || StoppedAt(un, DeletedOne(w, id).disk, d)
    ensures ReopensLike(trigger, d, w)
  {
    var un, w' := WithoutSegment(w.disk, id), DeletedOne(w, id);
    assert w'.disk.segments == un.segments;
    InvIsValid(w, body);
    hide Inv, Valid, DeletedOne, ReopensLike;
    DeadOnly(trigger, w, w', body);
    if d == w'.disk {
      assert ReopensLike(trigger, d, w') by { LikeItself(trigger, w', body); }
    } else if StoppedAt(w.disk, un, d) && d != un {
      StoppedBefore(trigger, w, un, d);
    } else {
      assert StoppedAt(un, w'.disk, d);
      UnlinkedReopens(trigger, w, id, w'.disk, d);
    }
  }

  lemma LikeItself(trigger: nat, w: World, body: Body)
    requires Inv(w, body)
    ensures ReopensLike(trigger, w.disk, w)
  {
    InvIsValid(w, body);
    hide Inv, Reopens, Concat, BodyOf;
    InvReopens(trigger, w, body);
  }

  lemma DeleteStepsAre(w: World, ids: seq<SegmentId>, d: Disk)
    requires ids != [] && CrashOf(w.disk, DeleteSteps(w, ids), d)
    ensures var un, w' := WithoutSegment(w.disk, ids[0]), DeletedOne(w, ids[0]);
      StoppedAt(w.disk, un, d) || StoppedAt(un, w'.disk, d) || CrashOf(w'.disk, DeleteSteps(w', ids[1..]), d)
  {
    hide StoppedAt, Logged;
    var w' := DeletedOne(w, ids[0]);
    var steps, rest := DeleteSteps(w, ids), DeleteSteps(w', ids[1..]);
    assert steps[1..][1..] == rest;
  }

  lemma {:induction false} DeletesCrash(trigger: nat, w: World, body: Body, ids: seq<SegmentId>, d: Disk)
    requires Inv(w, body)
    requires forall i :: 0 <= i < |ids| ==> ids[i] in w.mem.state.dead
    requires forall i, j :: 0 <= i < j < |ids| ==> ids[i] != ids[j]
    requires CrashOf(w.disk, DeleteSteps(w, ids), d)
    ensures ReopensLike(trigger, d, w)
    decreases |ids|
  {
    hide Inv, DeletedOne, StoppedAt, ReopensLike;
    if ids == [] {
      LikeItself(trigger, w, body);
    } else {
      var un, w' := WithoutSegment(w.disk, ids[0]), DeletedOne(w, ids[0]);
      DeleteOneKeepsInv(w, body, ids[0]);
      DeleteStepsAre(w, ids, d);
      if StoppedAt(w.disk, un, d) || StoppedAt(un, w'.disk, d) {
        DeleteOneCrash(trigger, w, body, ids[0], d);
      } else {
        DeletesCrash(trigger, w', body, ids[1..], d);
        DeadOnly(trigger, w, w', body);
      }
    }
  }

  /** Deleting dead segments is crash-atomic: stopping after, or inside, any of its disk steps gives back the same
      entries, head and metadata. */
  lemma DeleteCrash(trigger: nat, w: World, d: Disk)
    requires Valid(w) && CrashOf(w.disk, DeleteSteps(w, HASH_ORDER(w.mem.state.dead)), d)
    ensures ReopensLike(trigger, d, w)
  {
    var ids := HASH_ORDER(w.mem.state.dead);
    assert Enumerates(ids, w.mem.state.dead);
    EnumeratedSet(ids, w.mem.state.dead);
    hide Inv, ReopensLike, CrashOf, DeleteSteps;
    DeletesCrash(trigger, w, BodyOf(w.disk, w.mem.state.segments), ids, d);
  }

  // ── Writing ─────────────────────────────────────────────────────────────────

  /** The log with some whole-frame prefix of a batch behind it. */
  ghost predicate ReopensWithPart(trigger: nat, d: Disk, w: World, batch: seq<Frame>) {
    exists m: nat :: m <= |batch| && ReopensWith(trigger, d, w, batch, m)
  }

  ghost predicate ReopensWith(trigger: nat, d: Disk, w: World, batch: seq<Frame>, m: nat)
    requires m <= |batch|
  {
    Reopens(trigger, d, Entries(w) + batch[..m], w.mem.state.firstEntry, w.mem.state.meta)
  }

  lemma ActiveFile(w: World, body: Body)
    requires Inv(w, body)
    ensures var n := |body| - 1;
      && n >= 0 && |body| == |w.mem.state.segments| && DistinctIds(w.mem.state.segments)
      && w.mem.activeId == w.mem.state.segments[n].id && w.mem.activePos == |Image(body[n])|
      && FileAt(w.disk, w.mem.state.segments[n], body[n])
      && FilesOk(w.disk, w.mem.state.segments, body)
  {
    assert CursorOk(w.mem, body) && StateOk(w.mem.state);
    hide Image, BodyOk, LastOk, IdsOk, ManifestOk, IndexSound;
  }

  lemma FlushDisk(w: World, fs: seq<Frame>, batch: seq<Frame>)
    requires FileIn(w.disk, w.mem.activeId) == Image(fs) && w.mem.activePos == |Image(fs)| && batch != []
    ensures Flushed(w, batch).disk == WithSegment(w.disk, w.mem.activeId, Image(fs + batch))
  {
    hide WriteAt, EncodeAll, SizeOf, FlushedMem, FileIn, FileOf;
    FileOfAppend(SEGMENT_MAGIC, fs, batch);
  }

  lemma FlushFits(w: World, fs: seq<Frame>, batch: seq<Frame>)
    requires w.mem.activePos == |Image(fs)| && w.mem.activePos + SizeOf(batch) < U64_LIMIT
    ensures |Image(fs + batch)| < U64_LIMIT
  {
    hide EncodeAll, SizeOf;
    EncodeAllConcat(fs, batch);
  }

  /** What a flush does to the disk. */
  lemma FlushFacts(w: World, body: Body, batch: seq<Frame>)
    requires CanFlush(w, body, batch)
    ensures batch != [] && body != [] && |Image(body[|body| - 1] + batch)| < U64_LIMIT
    ensures Flushed(w, batch).disk == WithSegment(w.disk, w.mem.activeId, Image(body[|body| - 1] + batch))
  {
    ActiveFile(w, body);
    hide Inv, FilesOk, DistinctIds, Flushed, SizeOf, Image;
    FlushDisk(w, body[|body| - 1], batch);
    FlushFits(w, body[|body| - 1], batch);
  }

  lemma FlushedBody(w: World, body: Body, batch: seq<Frame>)
    requires CanFlush(w, body, batch)
    ensures StateOk(w.mem.state) && BodyOk(w.mem.state, Extended(body, batch))
  {
    FlushKeepsInv(w, body, batch);
    assert Flushed(w, batch).mem.state == w.mem.state;
    hide Flushed, CanFlush;
  }

  lemma TornFlushFile(d0: Disk, segs: seq<Segment>, body: Body, batch: seq<Frame>, d: Disk)
    requires 0 < |body| == |segs| && DistinctIds(segs) && FilesOk(d0, segs, body)
    requires var n := |body| - 1; TornInFile(d0, WithSegment(d0, segs[n].id, Image(body[n] + batch)), d, segs[n].id)
    ensures var n, k := |body| - 1, |d.segments[segs[|body| - 1].id]|;
      && (forall i :: 0 <= i < n ==> FileAt(d, segs[i], body[i]))
      && |Image(body[n])| <= k
      && CutFile(d, segs[n].id, body[n] + batch, k)
  {
    var n := |body| - 1;
    assert FileAt(d0, segs[n], body[n]);
    hide FileOf;
    assert |Image(body[n])| >= MAGIC_LEN;
    forall i | 0 <= i < n
      ensures FileAt(d, segs[i], body[i])
    {
      assert FileAt(d0, segs[i], body[i]);
      assert segs[i].id != segs[n].id;
    }
    hide Image;
  }

  lemma ExtendedLog(body: Body, batch: seq<Frame>)
    requires body != []
    ensures Concat(Extended(body, batch)) == Concat(body) + batch
  {
    var n := |body| - 1;
    assert body == body[..n] + [body[n]];
    ConcatSplit(body[..n], [body[n]]);
    ConcatSplit(body[..n], [body[n] + batch]);
    ConcatOne(body[n]);
    ConcatOne(body[n] + batch);
    ConcatAssoc(Concat(body[..n]), body[n], batch);
  }

  lemma TornFlushLog(body: Body, batch: seq<Frame>, k: nat)
    requires body != [] && |Image(body[|body| - 1])| <= k
    ensures var n := |body| - 1;
      var m := Whole(body[n] + batch, k - MAGIC_LEN) - |body[n]|;
      0 <= m <= |batch| && Concat(CutLast(Extended(body, batch), k)) == Concat(body) + batch[..m]
  {
    var n, grown := |body| - 1, Extended(body, batch);
    var fs := body[n] + batch;
    ExtendedAt(body, batch);
    assert fs[..|body[n]|] == body[n];
    SyncedKept(fs, k, |body[n]|);
    CutLastEntries(grown, k);
    CutLastEntries(body, k);
    hide Whole, Concat, CutLast, Image, Extended;
    assert grown[..n] == body[..n];
    var m := Whole(fs, k - MAGIC_LEN) - |body[n]|;
    assert fs[..|body[n]| + m] == body[n] + batch[..m];
    ConcatAssoc(Concat(body[..n]), body[n], batch[..m]);
  }

  lemma TornFlushManifest(w: World, after: Disk, d: Disk, id: SegmentId)
    requires ManifestOk(w) && TornInFile(w.disk, after, d, id)
    ensures ManifestReadable(d.manifest, w.mem.state) && id in d.segments && d.segments.Keys == w.disk.segments.Keys
  {
    hide ManifestHolds;
    HoldsReadable(d.manifest, w.mem.state);
  }

  lemma ManifestOf(w: World, body: Body)
    requires Inv(w, body)
    ensures ManifestOk(w)
  {
  }

  lemma PartOfBatch(trigger: nat, w: World, batch: seq<Frame>, d: Disk, m: nat)
    requires m <= |batch| && Reopens(trigger, d, Entries(w) + batch[..m], w.mem.state.firstEntry, w.mem.state.meta)
    ensures ReopensWithPart(trigger, d, w, batch)
  {
    hide Reopens, Entries;
    assert ReopensWith(trigger, d, w, batch, m);
  }

  lemma CanFlushInv(w: World, body: Body, batch: seq<Frame>)
    requires CanFlush(w, body, batch)
    ensures Inv(w, body) && batch != [] && body != []
  {
    hide Increasing, SizeOf, StateOk, BodyOk, FilesOk, LastOk, IdsOk, ManifestOk, IndexSound;
  }

  lemma TornFlushRecoverable(w: World, body: Body, batch: seq<Frame>, d: Disk)
    requires CanFlush(w, body, batch) && TornInFile(w.disk, Flushed(w, batch).disk, d, w.mem.activeId)
    ensures body != [] && w.mem.activeId in d.segments
    ensures var k := |d.segments[w.mem.activeId]|;
      |Image(body[|body| - 1])| <= k && Recoverable(d, w.mem.state, CutLast(Extended(body, batch), k))
  {
    hide *;
    CanFlushInv(w, body, batch);
    var s, grown := w.mem.state, Extended(body, batch);
    ActiveFile(w, body);
    FlushFacts(w, body, batch);
    WidthsOf(w, body);
    ManifestOf(w, body);
    TornFlushManifest(w, Flushed(w, batch).disk, d, w.mem.activeId);
    TornFlushFile(w.disk, s.segments, body, batch, d);
    FlushedBody(w, body, batch);
    ExtendedAt(body, batch);
    CutRecoverable(s, grown, d, |d.segments[w.mem.activeId]|);
  }

  lemma TornFlush(trigger: nat, w: World, body: Body, batch: seq<Frame>, d: Disk)
    requires CanFlush(w, body, batch) && TornInFile(w.disk, Flushed(w, batch).disk, d, w.mem.activeId)
    ensures ReopensWithPart(trigger, d, w, batch)
  {
    hide *;
    CanFlushInv(w, body, batch);
    TornFlushRecoverable(w, body, batch, d);
    ExtendedAt(body, batch);
    var k := |d.segments[w.mem.activeId]|;
    InvIsValid(w, body);
    RecoverableReopens(trigger, d, w.mem.state, CutLast(Extended(body, batch), k));
    TornFlushLog(body, batch, k);
    EntriesOf(w, body);
    PartOfBatch(trigger, w, batch, d, Whole(body[|body| - 1] + batch, k - MAGIC_LEN) - |body[|body| - 1]|);
  }

  lemma AllOfBatch(trigger: nat, w: World, batch: seq<Frame>, d: Disk)
    requires Reopens(trigger, d, Entries(w) + batch, w.mem.state.firstEntry, w.mem.state.meta)
    ensures ReopensWithPart(trigger, d, w, batch)
  {
    hide *;
    assert batch[..|batch|] == batch;
    PartOfBatch(trigger, w, batch, d, |batch|);
  }

  lemma FlushedState(w: World, batch: seq<Frame>)
    requires batch != []
    ensures Flushed(w, batch).mem.state == w.mem.state
  {
  }

  lemma FullFlush(trigger: nat, w: World, body: Body, batch: seq<Frame>)
    requires CanFlush(w, body, batch)
    ensures ReopensWithPart(trigger, Flushed(w, batch).disk, w, batch)
  {
    hide *;
    CanFlushInv(w, body, batch);
    FlushFacts(w, body, batch);
    InvIsValid(w, body);
    FlushKeepsInv(w, body, batch);
    InvReopens(trigger, Flushed(w, batch), Extended(body, batch));
    FlushedState(w, batch);
    ExtendedLog(body, batch);
    EntriesOf(w, body);
    AllOfBatch(trigger, w, batch, Flushed(w, batch).disk);
  }

  lemma OldFlush(trigger: nat, w: World, after: Disk, batch: seq<Frame>, d: Disk)
    requires Valid(w) && (d == w.disk || TornInManifest(w.disk, after, d))
    ensures ReopensWithPart(trigger, d, w, batch)
  {
    var body := BodyOf(w.disk, w.mem.state.segments);
    hide Inv, Reopens, Concat, BodyOf;
    if d == w.disk {
      InvReopens(trigger, w, body);
    } else {
      TornOld(trigger, w, body, after, d);
    }
    assert batch[..0] == [] && Entries(w) + [] == Entries(w);
    assert ReopensWith(trigger, d, w, batch, 0);
  }

  lemma FlushCrash(trigger: nat, w: World, body: Body, batch: seq<Frame>, d: Disk)
    requires CanFlush(w, body, batch) && StoppedAt(w.disk, Flushed(w, batch).disk, d)
    ensures ReopensWithPart(trigger, d, w, batch)
  {
    var after := Flushed(w, batch).disk;
    InvIsValid(w, body);
    FlushFacts(w, body, batch);
    hide Inv, Valid, CanFlush, Flushed, Image, ReopensWithPart, TornInManifest;
    if TornInFile(w.disk, after, d, w.mem.activeId) {
      TornFlush(trigger, w, body, batch, d);
    } else if d == after {
      FullFlush(trigger, w, body, batch);
    } else {
      if other :| TornInFile(w.disk, after, d, other) {
        UnchangedFile(w.disk, after, d, other);
      }
      OldFlush(trigger, w, after, batch, d);
    }
  }

  /** Writing a batch is crash-safe: after a stop at or inside any disk step, rollover included, the log is what it
      was before, followed by some whole-frame prefix of the batch. */
  lemma WriteCrash(trigger: nat, w: World, body: Body, batch: seq<Frame>, d: Disk)
    requires Inv(w, body) && CanWrite(w.mem, batch) && CrashOf(w.disk, WriteSteps(w, batch), d)
    ensures ReopensWithPart(trigger, d, w, batch)
  {
    hide Inv, CanWrite, CanFlush, CanRoll, StoppedAt, RolledOver, Flushed, ReopensWithPart;
    InvIsValid(w, body);
    if batch == [] {
      hide Valid, TornInManifest;
      OldFlush(trigger, w, w.disk, batch, d);
    } else if w.mem.rolloverPending {
      RollThenFlushCrash(trigger, w, body, batch, d);
    } else {
      PlainFlush(w, body, batch);
      assert WriteSteps(w, batch)[0] == Flushed(w, batch).disk && WriteSteps(w, batch)[1..] == [];
      if !StoppedAt(w.disk, Flushed(w, batch).disk, d) {
        FullFlush(trigger, w, body, batch);
      } else {
        FlushCrash(trigger, w, body, batch, d);
      }
    }
  }

  lemma {:induction false} CrashSplits(start: Disk, a: seq<Disk>, last: Disk, d: Disk)
    requires a != [] && CrashOf(start, a + [last], d)
    ensures CrashOf(start, a, d) || StoppedAt(a[|a| - 1], last, d)
    decreases |a|
  {
    hide StoppedAt;
    assert (a + [last])[1..] == a[1..] + [last];
    if |a| == 1 {
      assert a[1..] + [last] == [last];
      if CrashOf(a[0], [last], d) {
        CrashOfOne(a[0], last, d);
      }
    } else if CrashOf(a[0], a[1..] + [last], d) {
      CrashSplits(a[0], a[1..], last, d);
    }
  }

  lemma RolledWriteSteps(w: World, batch: seq<Frame>)
    requires batch != [] && w.mem.rolloverPending
    ensures var first := batch[0].id; var steps := RollSteps(w, first);
      && steps != [] && steps[|steps| - 1] == RolledOver(w, first).disk
      && WriteSteps(w, batch) == steps + [Flushed(RolledOver(w, first), batch).disk]
  {
    hide RolledOver, Flushed;
  }

  lemma RollThenFlushCrash(trigger: nat, w: World, body: Body, batch: seq<Frame>, d: Disk)
    requires Inv(w, body) && CanWrite(w.mem, batch) && batch != [] && w.mem.rolloverPending
    requires CrashOf(w.disk, WriteSteps(w, batch), d)
    ensures ReopensWithPart(trigger, d, w, batch)
  {
    hide *;
    var first, rolled := batch[0].id, RolledOver(w, batch[0].id);
    RolledWriteSteps(w, batch);
    PlainRoll(w, body, batch);
    CrashSplits(w.disk, RollSteps(w, first), Flushed(rolled, batch).disk, d);
    if CrashOf(w.disk, RollSteps(w, first), d) {
      RollCrash(trigger, w, body, first, d);
      NoneOfBatch(trigger, w, batch, d);
    } else {
      RollKeepsInv(w, body, first);
      RolledCanFlush(w, body, batch);
      FlushCrash(trigger, rolled, body + [[]], batch, d);
      RolledLooksSame(trigger, w, body, first, batch, d);
    }
  }

  lemma NoneOfBatch(trigger: nat, w: World, batch: seq<Frame>, d: Disk)
    requires ReopensLike(trigger, d, w)
    ensures ReopensWithPart(trigger, d, w, batch)
  {
    hide Reopens, Entries;
    assert batch[..0] == [] && Entries(w) + [] == Entries(w);
    PartOfBatch(trigger, w, batch, d, 0);
  }

  lemma RolledCanFlush(w: World, body: Body, batch: seq<Frame>)
    requires Inv(w, body) && CanWrite(w.mem, batch) && batch != [] && w.mem.rolloverPending
    requires Inv(RolledOver(w, batch[0].id), body + [[]])
    ensures CanFlush(RolledOver(w, batch[0].id), body + [[]], batch)
  {
    assert Increasing(batch);
    hide Inv, CanRoll, RolledOver;
    PlainRoll(w, body, batch);
  }

  lemma RolledLooksSame(trigger: nat, w: World, body: Body, first: EntryId, batch: seq<Frame>, d: Disk)
    requires CanRoll(w, body, first) && Inv(RolledOver(w, first), body + [[]])
    requires ReopensWithPart(trigger, d, RolledOver(w, first), batch)
    ensures ReopensWithPart(trigger, d, w, batch)
  {
    var rolled := RolledOver(w, first);
    RollApplies(w, body, first);
    assert rolled.mem.state.firstEntry == w.mem.state.firstEntry && rolled.mem.state.meta == w.mem.state.meta;
    InvIsValid(w, body);
    InvIsValid(rolled, body + [[]]);
    ConcatSplit(body, [[]]);
    ConcatOne([]);
    hide Inv, CanRoll, RolledOver, Reopens, Concat, BodyOf;
    assert Concat(body) + [] == Concat(body);
    var m: nat :| m <= |batch| && ReopensWith(trigger, d, rolled, batch, m);
    assert ReopensWith(trigger, d, w, batch, m);
  }

  // ── Truncating the end ──────────────────────────────────────────────────────

  lemma WholeAtBoundary(fs: seq<Frame>, m: nat)
    requires m <= |fs|
    ensures Whole(fs, |Image(fs[..m])| - MAGIC_LEN) == m
  {
    var k := SizeOf(fs[..m]);
    assert |Image(fs[..m])| == MAGIC_LEN + k;
    hide *;
    var n := Whole(fs, k);
    WholeIsGreatest(fs, k);
    if m < n {
      SizesAscend(fs, m, n);
    } else if n < m {
      SizesAscend(fs, n + 1, m);
    }
  }

  lemma ImageShorter(fs: seq<Frame>, m: nat)
    requires m <= |fs|
    ensures |Image(fs[..m])| <= |Image(fs)|
    ensures |Image(fs[..m])| == |Image(fs)| <==> m == |fs|
    ensures SEGMENT_MAGIC <= Image(fs)[..|Image(fs[..m])|]
  {
    ImageTake(fs, m);
    FileOfBody(SEGMENT_MAGIC, fs);
    SizeOfSplit(fs, m);
    assert fs[m..] == [] <==> m == |fs|;
    hide EncodeAll;
    assert Image(fs)[..MAGIC_LEN] == SEGMENT_MAGIC;
  }

  lemma MiddleIs(w: World, last: EntryId, i: nat)
    requires i < |w.mem.state.segments| && TargetIndex(w.mem.state.segments, last) == i && CutOffset(w, last).Some?
    requires CutOffset(w, last).value <= |FileIn(w.disk, w.mem.state.segments[i].id)|
    ensures var id := w.mem.state.segments[i].id;
      MiddleDisk(w, last) == WithSegment(w.disk, id, FileIn(w.disk, id)[..CutOffset(w, last).value])
  {
    hide CutOffset, TargetIndex, FileIn;
  }

  /** The disk between shrinking the file and recording it, for a target at `i` cut behind its frame `j`. */
  lemma ShrunkDisk(w: World, body: Body, i: nat, j: nat)
    requires CutsAt(w, body, i, j)
    ensures var last, d := body[i][j].id, MiddleDisk(w, body[i][j].id);
      && i < |w.mem.state.segments|
      && |Image(body[i][..j + 1])| <= |Image(body[i])|
      && d == WithSegment(w.disk, w.mem.state.segments[i].id, Image(body[i])[..|Image(body[i][..j + 1])|])
      && CutOffset(w, last) == Some(|Image(body[i][..j + 1])|)
  {
    hide *;
    CutsAtFacts(w, body, i, j);
    var last := body[i][j].id;
    CutOffsetIs(w, body, last);
    UniqueId(body[i], j);
    ExactEnd(w, body[i], j, last);
    ActiveFile(w, body);
    FilesOkFileIn(w.disk, w.mem.state.segments, body, i);
    ImageTake(body[i], j + 1);
    MiddleIs(w, last, i);
  }

  lemma FilesOkFileIn(d: Disk, segs: seq<Segment>, body: Body, i: nat)
    requires FilesOk(d, segs, body) && i < |body|
    ensures FileIn(d, segs[i].id) == Image(body[i])
  {
    assert FileAt(d, segs[i], body[i]);
    hide Image;
  }

  /** `truncate_end` finds frame `j` of segment `i`, and its scanner starts without drift. */
  ghost predicate CutsAt(w: World, body: Body, i: nat, j: nat) {
    && Inv(w, body) && i < |body| && j < |body[i]|
    && w.mem.state.segments != []
    && var last := body[i][j].id;
       && !IsEndNoop(w.mem, last) && CanTruncateEnd(w, last) && NoDrift(w, last)
  }

  lemma CutsAtFacts(w: World, body: Body, i: nat, j: nat)
    requires CutsAt(w, body, i, j)
    ensures Inv(w, body) && i < |body| == |w.mem.state.segments| && j < |body[i]|
    ensures var last := body[i][j].id;
      && CanTruncateEnd(w, last) && NoDrift(w, last) && TargetIndex(w.mem.state.segments, last) == i
      && StoredAt(body, last, i, j) && Increasing(body[i]) && !IsEndNoop(w.mem, last)
  {
    assert StateOk(w.mem.state) && BodyOk(w.mem.state, body);
    assert InSegment(w.mem.state.segments[i], body[i]);
    hide StateOk, BodyOk, FilesOk, CursorOk, LastOk, IdsOk, ManifestOk, IndexSound, CanTruncateEnd, TargetIndex,
      NoDrift, IsEndNoop;
    TargetHolds(w.mem.state, body, body[i][j].id, i, j);
  }

  function MiddleDisk(w: World, last: EntryId): Disk
    requires w.mem.state.segments != []
  {
    if CutOffset(w, last).None? then w.disk else CutDisk(w, last, CutOffset(w, last).value)
  }

  lemma ShrunkTails(d0: Disk, segs: seq<Segment>, body: Body, i: nat, m: nat, d: Disk)
    requires FilesOk(d0, segs, body) && i < |body| && m <= |body[i]| && DistinctIds(segs)
    requires |Image(body[i][..m])| <= |Image(body[i])|
    requires d == WithSegment(d0, segs[i].id, Image(body[i])[..|Image(body[i][..m])|])
    ensures forall k :: 0 <= k < |segs| ==> TailLost(d0, d, segs[k].id)
    ensures forall k :: 0 <= k < |segs| && k != i ==> d.segments[segs[k].id] == d0.segments[segs[k].id]
    ensures d.segments.Keys == d0.segments.Keys && d.manifest == d0.manifest
  {
    assert FileAt(d0, segs[i], body[i]);
    ImageShorter(body[i], m);
    forall k | 0 <= k < |segs|
      ensures TailLost(d0, d, segs[k].id)
      ensures k != i ==> d.segments[segs[k].id] == d0.segments[segs[k].id]
    {
      assert FileAt(d0, segs[k], body[k]);
      FileOfBody(SEGMENT_MAGIC, body[k]);
      assert k < i ==> segs[k].id != segs[i].id;
      assert i < k ==> segs[i].id != segs[k].id;
      hide Image;
    }
    hide Image;
  }

  lemma ShrunkTailsLost(w: World, body: Body, i: nat, j: nat)
    requires CutsAt(w, body, i, j)
    ensures var d := MiddleDisk(w, body[i][j].id);
      && TailsLost(w, d)
      && (SealedWhole(w, d) <==> i == |body| - 1 || j == |body[i]| - 1)
      && (i == |body| - 1 ==> Left(w, d) == |Image(body[i][..j + 1])|)
      && (j == |body[i]| - 1 ==> d == w.disk)
  {
    hide *;
    CutsAtFacts(w, body, i, j);
    ShrunkDisk(w, body, i, j);
    ActiveFile(w, body);
    ShrunkSealed(w, body, i, j, MiddleDisk(w, body[i][j].id));
    OnlyTailsLost(w, body, MiddleDisk(w, body[i][j].id));
  }

  lemma ShrunkSealed(w: World, body: Body, i: nat, j: nat, d: Disk)
    requires i < |body| == |w.mem.state.segments| && j < |body[i]| && DistinctIds(w.mem.state.segments)
    requires w.mem.activeId == w.mem.state.segments[|body| - 1].id
    requires FilesOk(w.disk, w.mem.state.segments, body)
    requires |Image(body[i][..j + 1])| <= |Image(body[i])|
    requires d == WithSegment(w.disk, w.mem.state.segments[i].id, Image(body[i])[..|Image(body[i][..j + 1])|])
    ensures d.manifest == w.disk.manifest && d.segments.Keys == w.disk.segments.Keys
    ensures forall k :: 0 <= k < |w.mem.state.segments| ==> TailLost(w.disk, d, w.mem.state.segments[k].id)
    ensures SealedWhole(w, d) <==> i == |body| - 1 || j == |body[i]| - 1
    ensures i == |body| - 1 ==> Left(w, d) == |Image(body[i][..j + 1])|
    ensures j == |body[i]| - 1 ==> d == w.disk
  {
    var segs := w.mem.state.segments;
    ShrunkTails(w.disk, segs, body, i, j + 1, d);
    assert FileAt(w.disk, segs[i], body[i]);
    ImageShorter(body[i], j + 1);
    hide Image, FilesOk, DistinctIds;
    forall k | 0 <= k < |body| - 1
      ensures Kept(w, d, k) <==> k != i || j == |body[i]| - 1
    {
      assert TailLost(w.disk, d, segs[k].id);
    }
    assert i < |body| - 1 ==> (Kept(w, d, i) <==> j == |body[i]| - 1);
    if j == |body[i]| - 1 {
      var file := Image(body[i]);
      assert file[..|file|] == file;
      assert w.disk.segments[segs[i].id := file] == w.disk.segments;
    }
  }

  /** A crash between shrinking the file and recording it.  The store opens if and only if the target is the active
      segment, or nothing was cut off; the log is then truncated in the first case and as before in the second. */
  lemma ShrunkNotRecorded(trigger: nat, w: World, body: Body, i: nat, j: nat)
    requires CutsAt(w, body, i, j)
    ensures var last := body[i][j].id; var d := MiddleDisk(w, last);
      && (Open(trigger, d).result.Success? <==> i == |body| - 1 || j == |body[i]| - 1)
      && (i == |body| - 1 ==>
            Reopens(trigger, d, UpToId(Entries(w), last), w.mem.state.firstEntry, w.mem.state.meta))
      && (i < |body| - 1 && j == |body[i]| - 1 ==> ReopensLike(trigger, d, w))
  {
    hide *;
    CutsAtFacts(w, body, i, j);
    ShrunkTailsLost(w, body, i, j);
    PowerLoss(trigger, w, body, MiddleDisk(w, body[i][j].id));
    if i == |body| - 1 {
      WholeAtBoundary(body[i], j + 1);
      CutLastIsCut(body, j);
      CutConcat(w, body, i, j);
    } else if j == |body[i]| - 1 {
      LikeItself(trigger, w, body);
    }
  }

  lemma CutLastIsCut(body: Body, j: nat)
    requires body != [] && j < |body[|body| - 1]|
    requires var fs := body[|body| - 1]; Whole(fs, |Image(fs[..j + 1])| - MAGIC_LEN) == j + 1
    ensures CutLast(body, |Image(body[|body| - 1][..j + 1])|) == CutBody(body, |body| - 1, j)
  {
    hide Whole, SizeOf;
  }

  lemma CutConcat(w: World, body: Body, i: nat, j: nat)
    requires Inv(w, body) && i < |body| && j < |body[i]|
    ensures Concat(CutBody(body, i, j)) == UpToId(Entries(w), body[i][j].id)
  {
    InvIsValid(w, body);
    assert StateOk(w.mem.state) && BodyOk(w.mem.state, body);
    hide *;
    EntriesOf(w, body);
    CutKeeps(w.mem.state, body, i, j);
  }

  lemma TornFileSame(before: Disk, after: Disk, d: Disk, id: SegmentId)
    requires TornInFile(before, after, d, id) && |after.segments[id]| <= |before.segments[id]|
    ensures d == before
  {
    var file := before.segments[id];
    assert d.segments[id] == d.segments[id][..|file|] == file;
    assert before.segments[id := file] == before.segments;
  }

  lemma NotYetShrunk(w: World, mid: Disk, d: Disk)
    requires StoppedAt(w.disk, mid, d) && d != mid && mid.manifest == w.disk.manifest
    requires forall id :: id in w.disk.segments && id in mid.segments ==> |mid.segments[id]| <= |w.disk.segments[id]|
    ensures d == w.disk
  {
    if id :| TornInFile(w.disk, mid, d, id) {
      TornFileSame(w.disk, mid, d, id);
    } else if TornInManifest(w.disk, mid, d) {
      assert d.manifest == d.manifest[..|w.disk.manifest|] == w.disk.manifest;
    }
  }

  lemma ShrunkLengths(w: World, body: Body, i: nat, j: nat)
    requires CutsAt(w, body, i, j)
    ensures var mid := MiddleDisk(w, body[i][j].id);
      && mid.manifest == w.disk.manifest
      && forall id :: id in w.disk.segments && id in mid.segments ==> |mid.segments[id]| <= |w.disk.segments[id]|
  {
    hide *;
    CutsAtFacts(w, body, i, j);
    ShrunkDisk(w, body, i, j);
    ActiveFile(w, body);
    ShrunkOneFile(w.disk, w.mem.state.segments, body, i, |Image(body[i][..j + 1])|);
  }

  lemma ShrunkOneFile(d: Disk, segs: seq<Segment>, body: Body, i: nat, k: nat)
    requires FilesOk(d, segs, body) && i < |body| && k <= |Image(body[i])|
    ensures var mid := WithSegment(d, segs[i].id, Image(body[i])[..k]);
      && mid.manifest == d.manifest
      && forall id :: id in d.segments && id in mid.segments ==> |mid.segments[id]| <= |d.segments[id]|
  {
    assert FileAt(d, segs[i], body[i]);
    hide Image;
  }

  /** The active file is shrunk and its record is missing or torn inside the header. */
  lemma ShrunkAndTorn(trigger: nat, w: World, body: Body, i: nat, j: nat, after: Disk, d: Disk)
    requires CutsAt(w, body, i, j) && i == |body| - 1 && TornInManifest(MiddleDisk(w, body[i][j].id), after, d)
    ensures Reopens(trigger, d, UpToId(Entries(w), body[i][j].id), w.mem.state.firstEntry, w.mem.state.meta)
  {
    hide *;
    CutsAtFacts(w, body, i, j);
    var mid, s := MiddleDisk(w, body[i][j].id), w.mem.state;
    var tail := TailBytes(mid, after, d);
    ShrunkLengths(w, body, i, j);
    ShrunkTailsLost(w, body, i, j);
    ManifestOf(w, body);
    TornManifestReadable(w, mid, after, d, tail);
    LostTailsRecoverable(w, body, mid);
    SameFilesRecoverable(mid, d, s, CutLast(body, Left(w, mid)));
    RecoverableReopens(trigger, d, s, CutLast(body, Left(w, mid)));
    WholeAtBoundary(body[i], j + 1);
    CutLastIsCut(body, j);
    CutConcat(w, body, i, j);
  }

  lemma TornManifestReadable(w: World, mid: Disk, after: Disk, d: Disk, tail: seq<byte>)
    requires ManifestOk(w) && mid.manifest == w.disk.manifest && TornInManifest(mid, after, d)
    requires |tail| < HEADER_LEN && d.manifest == mid.manifest + tail
    ensures ManifestReadable(d.manifest, w.mem.state) && d.segments == mid.segments
  {
    hide ManifestHolds, ManifestReadable;
    ShortTailReadable(w.disk.manifest, w.mem.state, tail);
  }

  lemma SameFilesRecoverable(mid: Disk, d: Disk, s: State, body: Body)
    requires Recoverable(mid, s, body) && d.segments == mid.segments && ManifestReadable(d.manifest, s)
    ensures Recoverable(d, s, body)
  {
    BodyLength(s, body);
    hide StateOk, BodyOk, ManifestReadable, Image, Walk;
    assert forall i :: 0 <= i < |body| - 1 ==> FileAt(mid, s.segments[i], body[i]);
  }

  lemma EndStepsAre(w: World, body: Body, i: nat, j: nat, d: Disk)
    requires CutsAt(w, body, i, j) && CrashOf(w.disk, EndSteps(w, body[i][j].id), d)
    ensures var last := body[i][j].id;
      && EndTruncated(w, last).Some?
      && var mid, after := MiddleDisk(w, last), EndTruncated(w, last).value.disk;
         && after.segments == mid.segments
         && (StoppedAt(w.disk, mid, d) || StoppedAt(mid, after, d))
  {
    var last := body[i][j].id;
    CutsAtFacts(w, body, i, j);
    ShrunkDisk(w, body, i, j);
    var mid, after := MiddleDisk(w, last), EndCut(w, last, CutOffset(w, last).value).disk;
    assert after.segments == mid.segments;
    hide CutsAt, Inv, StoppedAt, EndCut, CutDisk, CutOffset, Image;
    assert EndSteps(w, last) == [mid, after];
    assert [mid, after][1..] == [after];
    if CrashOf(mid, [after], d) {
      CrashOfOne(mid, after, d);
    }
  }

  lemma TruncatedReopens(trigger: nat, w: World, body: Body, i: nat, j: nat)
    requires CutsAt(w, body, i, j)
    ensures var last := body[i][j].id;
      && EndTruncated(w, last).Some?
      && Reopens(trigger, EndTruncated(w, last).value.disk, UpToId(Entries(w), last), w.mem.state.firstEntry, w.mem.state.meta)
  {
    hide *;
    CutsAtFacts(w, body, i, j);
    var last := body[i][j].id;
    ExactCut(w, body, i, j);
    RolledBackKeeps(w.mem.state, i);
    CutConcat(w, body, i, j);
    InvReopens(trigger, EndTruncated(w, last).value, CutBody(body, i, j));
  }

  lemma RolledBackKeeps(s: State, i: nat)
    requires i < |s.segments|
    ensures RolledBack(s, i).firstEntry == s.firstEntry && RolledBack(s, i).meta == s.meta
  {
  }

  /** `truncate_end` into the active segment is crash-safe: after a stop at or inside any disk step the store opens
      with either the old log or exactly the entries with id at most `last`. */
  lemma TruncateEndCrash(trigger: nat, w: World, body: Body, i: nat, j: nat, d: Disk)
    requires CutsAt(w, body, i, j) && i == |body| - 1 && CrashOf(w.disk, EndSteps(w, body[i][j].id), d)
    ensures ReopensLike(trigger, d, w)
         || Reopens(trigger, d, UpToId(Entries(w), body[i][j].id), w.mem.state.firstEntry, w.mem.state.meta)
  {
    hide *;
    CutsAtFacts(w, body, i, j);
    var last := body[i][j].id;
    EndStepsAre(w, body, i, j, d);
    var mid, after := MiddleDisk(w, last), EndTruncated(w, last).value.disk;
    if d == mid {
      ShrunkNotRecorded(trigger, w, body, i, j);
    } else if d == after {
      TruncatedReopens(trigger, w, body, i, j);
    } else if StoppedAt(w.disk, mid, d) {
      ShrunkLengths(w, body, i, j);
      NotYetShrunk(w, mid, d);
      LikeItself(trigger, w, body);
    } else {
      StoppedCases(mid, after, d);
      ShrunkAndTorn(trigger, w, body, i, j, after, d);
    }
  }

  lemma StoppedCases(before: Disk, after: Disk, d: Disk)
    requires StoppedAt(before, after, d) && d != before && d != after && before.segments == after.segments
    ensures TornInManifest(before, after, d)
  {
    if id :| TornInFile(before, after, d, id) {
      UnchangedFile(before, after, d, id);
      assert false;
    }
  }
}
