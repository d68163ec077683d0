/** Segment numbers and entry counts over whole runs. */
module Bookkeeping {
  import opened Basics
  import opened Frames
  import opened State
  import opened StateLaws
  import opened Codec
  import opened Disk
  import opened Index
  import opened Log
  import opened World
  import opened Invariant
  import opened Writing
  import opened TruncatingStart
  import opened TruncatingEnd
  import opened Housekeeping
  import opened Recovery
  import opened Reopening
  import opened CrashSteps
  import opened Runs
  import opened Rollovers
  import opened Indexing

  predicate RollsOver(w: World, step: Step) {
    Writes(step) && w.mem.rolloverPending
  }

  // ── Segment numbers ─────────────────────────────────────────────────────────

  /** `n` is the greatest id among live and dead segments. */
  ghost predicate Highest(s: State, n: SegmentId) {
    && n in IdSet(s.segments) + s.dead
    && forall id :: id in IdSet(s.segments) + s.dead ==> id <= n
  }

  /** Opening puts the next id right behind the highest in use; a rollover uses it for the new segment and moves on by
      one; nothing else changes it. */
  ghost predicate NumberedAfter(w: World, step: Step, w': World) {
    if Restarts(step) then w'.mem.nextId > 0 && Highest(w'.mem.state, w'.mem.nextId - 1)
    else if RollsOver(w, step) then
      && w'.mem.nextId == w.mem.nextId + 1
      && w'.mem.state.segments != []
      && w'.mem.state.segments[|w'.mem.state.segments| - 1].id == w.mem.nextId
    else w'.mem.nextId == w.mem.nextId
  }

  // ── Entry counts ────────────────────────────────────────────────────────────

  /** The count of the active segment is the number of frames in its file. */
  ghost predicate Counted(w: World) {
    |FramesIn(FileIn(w.disk, w.mem.activeId))| == w.mem.activeCount
  }

  /** What the rollover of a batch recorded for the segment it sealed. */
  ghost predicate SealCounts(w: World, w': World) {
    w.mem.activeId in w'.mem.state.seals &&
    w'.mem.state.seals[w.mem.activeId].entryCount == |FramesIn(FileIn(w.disk, w.mem.activeId))| % 0x1_0000_0000
  }

  lemma ActiveFrames(w: World, body: Body)
    requires Inv(w, body)
    ensures body != [] && FramesIn(FileIn(w.disk, w.mem.activeId)) == body[|body| - 1]
  {
    var n := |body| - 1;
    assert CursorOk(w.mem, body) && FilesOk(w.disk, w.mem.state.segments, body);
    assert FileAt(w.disk, w.mem.state.segments[n], body[n]);
    FileOfWalk(SEGMENT_MAGIC, body[n]);
    hide Inv, Walk, SizeOf;
  }

  lemma CountedIs(w: World, body: Body)
    requires Inv(w, body)
    ensures body != [] && (Counted(w) <==> |body[|body| - 1]| == w.mem.activeCount)
  {
    ActiveFrames(w, body);
    hide Inv, FramesIn, FileIn;
  }

  // ── One step ────────────────────────────────────────────────────────────────

  lemma FlushedFields(w: World, fs: seq<Frame>)
    requires fs != []
    ensures var m := Flushed(w, fs).mem;
      m.nextId == w.mem.nextId && m.activeCount == w.mem.activeCount + |fs| && m.state == w.mem.state
  {
    hide WriteAt, EncodeAll, SizeOf;
  }

  lemma RolledFields(w: World, first: EntryId)
    requires w.mem.nextId + 1 < U32_LIMIT
    requires Applied(w.mem.state, RollOp(w.mem, first)) == Success(RolledState(w.mem, first))
    ensures var m := RolledOver(w, first).mem;
      m.nextId == w.mem.nextId + 1 && m.activeCount == 0 && m.state == RolledState(w.mem, first)
  {
    hide Applied, WriteAt, Encode, RollOp;
  }

  lemma BatchFields(w: World, body: Body, fs: seq<Frame>)
    requires Inv(w, body) && CanWrite(w.mem, fs) && fs != []
    ensures var m := Written(w, fs).mem;
      if w.mem.rolloverPending then
        m.nextId == w.mem.nextId + 1 && m.activeCount == |fs| && m.state == RolledState(w.mem, fs[0].id)
      else m.nextId == w.mem.nextId && m.activeCount == w.mem.activeCount + |fs|
  {
    hide *;
    if w.mem.rolloverPending {
      PlainRoll(w, body, fs);
      RollApplies(w, body, fs[0].id);
      NextFits(w.mem, fs);
      RolledFields(w, fs[0].id);
      FlushedFields(RolledOver(w, fs[0].id), fs);
      WrittenIs(w, fs);
    } else {
      FlushedFields(w, fs);
      WrittenFlushed(w, fs);
    }
  }

  lemma NextFits(m: Mem, fs: seq<Frame>)
    requires CanWrite(m, fs) && fs != []
    ensures m.nextId + 1 < U32_LIMIT
  {
    hide Increasing, SizeOf;
  }

  lemma WrittenFlushed(w: World, fs: seq<Frame>)
    requires fs != [] && !w.mem.rolloverPending
    ensures Written(w, fs) == Flushed(w, fs)
  {
    hide Flushed;
  }

  lemma {:induction false} DeletedFields(w: World, ids: seq<SegmentId>)
    ensures var m := Deleted(w, ids).mem; m.nextId == w.mem.nextId && m.activeCount == w.mem.activeCount
    decreases |ids|
  {
    hide Logged;
    if ids != [] {
      LoggedFields(w.(disk := WithoutSegment(w.disk, ids[0])), Bare(SegmentDeleted(ids[0])));
      DeletedFields(DeletedOne(w, ids[0]), ids[1..]);
    }
  }

  lemma LoggedFields(w: World, entry: ManifestOp)
    ensures var m := Logged(w, entry).mem; m.nextId == w.mem.nextId && m.activeCount == w.mem.activeCount
  {
    hide WriteAt, Encode, Applied;
  }

  lemma HeadFields(w: World, first: EntryId, pairs: seq<Pair>)
    ensures var m := StartTruncated(w, first, pairs).GetOr(w).mem;
      m.nextId == w.mem.nextId && m.activeCount == w.mem.activeCount
  {
    hide WriteAt, Encode, Applied, Evicted, TruncatedStart;
  }

  lemma CutFields(w: World, last: EntryId)
    requires w.mem.state.segments != []
    ensures EndTruncated(w, last).GetOr(w).mem.nextId == w.mem.nextId
  {
    hide WriteAt, Encode, Applied, CutOffset, EndOp, CutDisk, TruncatedEnd;
  }

  lemma OpenedBooks(trigger: nat, d: Disk, w: World)
    requires StartsAgain(trigger, d, w)
    ensures var w' := Opened(trigger, d, w);
      Counted(w') && w'.mem.nextId > 0 && Highest(w'.mem.state, w'.mem.nextId - 1)
  {
    hide *;
    OpenedIsFresh(trigger, d, w);
    var w' := Opened(trigger, d, w);
    var body := BodyOf(w'.disk, w'.mem.state.segments);
    CountedIs(w', body);
    InvIsSettled(w', body);
    OpenedNumbers(trigger, w'.disk, w'.mem.state, body);
  }

  lemma OpenedNumbers(trigger: nat, d: Disk, s: State, body: Body)
    requires Settled(d, s, body) && 0 < |body| == |s.segments|
    ensures var m := OpenedMem(trigger, d, s, body);
      m.activeCount == |body[|body| - 1]| && m.nextId > 0 && Highest(s, m.nextId - 1)
  {
    var ids := IdSet(s.segments) + s.dead;
    MaxIdBounds(ids);
    assert s.segments[0].id in IdSet(s.segments);
    assert MaxId(ids) in d.segments;
    hide StateOk, BodyOk, FilesOk, ManifestHolds, FreshIndex, MaxId, IdSet, Image;
  }

  /** The numbering law, for every step of a run. */
  lemma NumberStep(w: World, step: Step)
    requires Valid(w) && Enabled(w, step)
    ensures NumberedAfter(w, step, Exec(w, step))
  {
    hide Valid, CanWrite, CanTruncateStart, CanCut, Written, StartTruncated, EndTruncated, DeadDeleted, MetadataWritten,
      Opened, StartsAgain, Highest, AbsStep, Abs, StageOf, Loses, Fits, BodyOf, Inv, Merge, Counted;
    ValidIsInv(w);
    var body := BodyOf(w.disk, w.mem.state.segments);
    match step
    case Batch(fs) => if fs != [] { BatchFields(w, body, fs); } else { EmptyWrite(w); }
    case MoveHead(first, pairs) => HeadFields(w, first, pairs);
    case CutTail(last) => CutFields(w, last);
    case DeleteDead => AllDeletedFields(w);
    case WriteMetadata(pairs) => MetadataFields(w, pairs);
    case Reopen(trigger) => StepRefines(w, step); OpenedBooks(trigger, w.disk, w);
    case Crash(_, left, trigger) => StepRefines(w, step); OpenedBooks(trigger, left, w);
    case LosePower(_, left, trigger) => StepRefines(w, step); OpenedBooks(trigger, left, w);
  }

  lemma AllDeletedFields(w: World)
    ensures var m := DeadDeleted(w).mem; m.nextId == w.mem.nextId && m.activeCount == w.mem.activeCount
  {
    DeletedFields(w, HASH_ORDER(w.mem.state.dead));
    hide Deleted;
  }

  lemma MetadataFields(w: World, pairs: seq<Pair>)
    ensures var m := MetadataWritten(w, pairs).mem; m.nextId == w.mem.nextId && m.activeCount == w.mem.activeCount
  {
    LoggedFields(w, ManifestOp(Metadata, pairs));
    hide Logged;
  }

  lemma LastWritten(w: World, body: Body, fs: seq<Frame>)
    requires body != [] && fs != []
    ensures var body' := WrittenBody(w, body, fs);
      body' != [] && body'[|body'| - 1] == if w.mem.rolloverPending then fs else body[|body| - 1] + fs
  {
    ExtendedAt(body, fs);
    hide Extended;
  }

  lemma BatchCounted(w: World, body: Body, fs: seq<Frame>)
    requires Inv(w, body) && CanWrite(w.mem, fs)
    ensures Counted(Written(w, fs)) <==> Counted(w) || RollsOver(w, Batch(fs))
    ensures Counted(w) && RollsOver(w, Batch(fs)) ==> SealCounts(w, Written(w, fs))
  {
    hide *;
    CountedIs(w, body);
    RollsOverIs(w, fs);
    if fs == [] {
      EmptyWrite(w);
    } else {
      WriteKeepsInv(w, body, fs);
      CountedIs(Written(w, fs), WrittenBody(w, body, fs));
      BatchFields(w, body, fs);
      LastWritten(w, body, fs);
      if w.mem.rolloverPending {
        ActiveFrames(w, body);
        SealedCount(w, fs[0].id);
        SealCountsIs(w, Written(w, fs));
      }
    }
  }

  lemma RollsOverIs(w: World, fs: seq<Frame>)
    ensures RollsOver(w, Batch(fs)) <==> fs != [] && w.mem.rolloverPending
  {
  }

  lemma SealedCount(w: World, first: EntryId)
    ensures var seals := RolledState(w.mem, first).seals;
      w.mem.activeId in seals && seals[w.mem.activeId].entryCount == w.mem.activeCount % 0x1_0000_0000
  {
  }

  lemma SealCountsIs(w: World, w': World)
    requires w.mem.activeId in w'.mem.state.seals
    requires Counted(w) ==> w'.mem.state.seals[w.mem.activeId].entryCount == w.mem.activeCount % 0x1_0000_0000
    ensures Counted(w) ==> SealCounts(w, w')
  {
    hide FramesIn, FileIn;
  }

  lemma HeadCounted(w: World, body: Body, first: EntryId, pairs: seq<Pair>)
    requires Inv(w, body) && CanTruncateStart(w.mem, first, pairs)
    ensures Counted(Exec(w, MoveHead(first, pairs))) <==> Counted(w)
  {
    hide *;
    StartKeepsInv(w, body, first, pairs);
    ExecHead(w, first, pairs);
    HeadFields(w, first, pairs);
    if first >= w.mem.state.firstEntry {
      var k := EvictCount(w.mem.state.segments, w.mem.state.seals, first);
      CountedIs(w, body);
      CountedIs(StartTruncated(w, first, pairs).value, body[k..]);
      assert body[k..][|body| - k - 1] == body[|body| - 1];
    }
  }

  lemma CutCounted(w: World, body: Body, last: EntryId)
    requires Inv(w, body) && w.mem.state.segments != [] && CanCut(w, last)
    ensures Counted(Exec(w, CutTail(last))) <==> Counted(w) && !CutsSomething(w, last)
  {
    hide *;
    ExecCut(w, last);
    if CutsSomething(w, last) {
      HasSegments(w, body);
      CanCutParts(w, last);
      CutsIs(w, last);
      CutFailsIff(w, body, last);
      StoredIs(body, last);
      var i: nat, j: nat :| i < |body| && j < |body[i]| && body[i][j].id == last;
      TargetHolds(w.mem.state, body, last, i, j);
      ExactCut(w, body, i, j);
      CutLength(body, i, j);
      CountedIs(EndTruncated(w, last).value, CutBody(body, i, j));
      EndTruncatedIs(w, last);
      CutResetsCount(w, last, CutOffset(w, last).value);
    }
  }

  lemma CutLength(body: Body, i: nat, j: nat)
    requires i < |body| && j < |body[i]|
    ensures var cut := CutBody(body, i, j); cut != [] && |cut[|cut| - 1]| == j + 1
  {
  }

  lemma CutResetsCount(w: World, last: EntryId, offset: u64)
    requires w.mem.state.segments != []
    ensures EndCut(w, last, offset).mem.activeCount == 0
  {
    hide Logged, CutDisk, EndOp, TruncatedEnd;
  }

  lemma SameCounted(w: World, w': World, body: Body)
    requires Inv(w, body) && Inv(w', body) && w'.mem.activeCount == w.mem.activeCount
    ensures Counted(w) <==> Counted(w')
  {
    hide *;
    CountedIs(w, body);
    CountedIs(w', body);
  }

  /** What a step does to the count: opening and a rollover make it exact, an effective cut makes it wrong, and nothing
      else makes a difference. */
  ghost predicate CountedAfter(w: World, step: Step, w': World) {
    Counted(w') <==>
      Restarts(step) || RollsOver(w, step) || (Counted(w) && !(step.CutTail? && CutsSomething(w, step.last)))
  }

  lemma CountStep(w: World, step: Step)
    requires Valid(w) && Enabled(w, step)
    ensures CountedAfter(w, step, Exec(w, step))
    ensures Counted(w) && RollsOver(w, step) ==> SealCounts(w, Exec(w, step))
  {
    hide Valid, CanWrite, CanTruncateStart, CanCut, Written, StartTruncated, EndTruncated, DeadDeleted, MetadataWritten,
      Opened, StartsAgain, Highest, AbsStep, Abs, StageOf, Loses, Fits, BodyOf, Inv, Merge, Counted, CutsSomething, SealCounts;
    ValidIsInv(w);
    var body := BodyOf(w.disk, w.mem.state.segments);
    match step
    case Batch(fs) => BatchCounted(w, body, fs);
    case MoveHead(first, pairs) => HeadCounted(w, body, first, pairs);
    case CutTail(last) => CutCounted(w, body, last);
    case DeleteDead =>
      DeadDeletedKeepsInv(w, body);
      AllDeletedFields(w);
      SameCounted(w, DeadDeleted(w), body);
    case WriteMetadata(pairs) =>
      MetadataKeepsInv(w, body, pairs);
      MetadataFields(w, pairs);
      SameCounted(w, MetadataWritten(w, pairs), body);
    case Reopen(trigger) => StepRefines(w, step); OpenedBooks(trigger, w.disk, w);
    case Crash(_, left, trigger) => StepRefines(w, step); OpenedBooks(trigger, left, w);
    case LosePower(_, left, trigger) => StepRefines(w, step); OpenedBooks(trigger, left, w);
  }

  // ── Whole runs ──────────────────────────────────────────────────────────────

  /** Step `k` cut entries off, and the store has neither been opened nor rolled over since. */
  ghost predicate LostCountAt(w: World, steps: seq<Step>, k: nat)
    requires k < |steps|
  {
    && steps[k].CutTail? && CutsSomething(Final(w, steps[..k]), steps[k].last)
    && forall i :: k < i < |steps| ==> !Restarts(steps[i]) && !RollsOver(Final(w, steps[..i]), steps[i])
  }

  ghost predicate LostCount(w: World, steps: seq<Step>) {
    exists k :: 0 <= k < |steps| && LostCountAt(w, steps, k)
  }

  lemma LostCountStep(w: World, before: seq<Step>, step: Step)
    ensures LostCount(w, before + [step]) <==>
      || (step.CutTail? && CutsSomething(Final(w, before), step.last))
      || (LostCount(w, before) && !Restarts(step) && !RollsOver(Final(w, before), step))
  {
    hide CutsSomething, RollsOver, Final;
    var steps, n := before + [step], |before|;
    assert steps[..n] == before && steps[n] == step;
    assert forall k :: 0 <= k < n ==> steps[k] == before[k];
    assert forall k :: 0 <= k <= n ==> steps[..k] == before[..k];
    if step.CutTail? && CutsSomething(Final(w, before), step.last) {
      assert LostCountAt(w, steps, n);
    }
    if LostCount(w, before) && !Restarts(step) && !RollsOver(Final(w, before), step) {
      var k :| 0 <= k < n && LostCountAt(w, before, k);
      assert LostCountAt(w, steps, k);
    }
    if LostCount(w, steps) {
      var k :| 0 <= k <= n && LostCountAt(w, steps, k);
      assert k < n ==> LostCountAt(w, before, k);
    }
  }

  /** After any run the count of the active segment is exact if and only if no entries have been cut off since it was
      opened or begun. */
  lemma {:induction false} CountedIff(w: World, steps: seq<Step>)
    requires Valid(w) && Counted(w) && Possible(w, steps)
    ensures Valid(Final(w, steps)) && (Counted(Final(w, steps)) <==> !LostCount(w, steps))
    decreases |steps|
  {
    hide *;
    if steps == [] {
      NothingDue(w);
      NothingLost(w);
    } else {
      var before, step := steps[..|steps| - 1], steps[|steps| - 1];
      assert steps == before + [step];
      LastStep(w, steps);
      CountedIff(w, before);
      StepRefines(Final(w, before), step);
      CountStep(Final(w, before), step);
      CountedAfterIs(Final(w, before), step);
      LostCountStep(w, before, step);
    }
  }

  lemma NothingLost(w: World)
    ensures !LostCount(w, [])
  {
  }

  lemma CountedAfterIs(w: World, step: Step)
    requires CountedAfter(w, step, Exec(w, step))
    ensures !Restarts(step) && !RollsOver(w, step) ==>
      (Counted(Exec(w, step)) <==> Counted(w) && !(step.CutTail? && CutsSomething(w, step.last)))
    ensures Restarts(step) || RollsOver(w, step) ==> Counted(Exec(w, step)) && !step.CutTail?
  {
    hide Counted, CutsSomething, Exec;
  }

  lemma OnlyOne(n: SegmentId)
    requires Highest(FRESH_STATE, n)
    ensures n == 1
  {
  }

  lemma FreshState(trigger: nat)
    ensures Fresh(trigger).mem.state == FRESH_STATE && Fresh(trigger).disk == FreshDisk()
    ensures Fresh(trigger).mem == OpenedMem(trigger, FreshDisk(), FRESH_STATE, [[]])
    ensures Fresh(trigger).mem.activeId == 1
  {
    hide FreshDisk, FreshIndex, MaxId, Image, IdSet;
  }

  /** A new store has segment 1, starting at entry 0, and 2 as its next id. */
  lemma FreshNumbers(trigger: nat)
    ensures var w := Fresh(trigger);
      && Valid(w) && Counted(w) && w.mem.nextId == 2 && w.mem.activeId == 1
      && w.mem.state.segments == [Segment(1, 0)] && w.disk.segments.Keys == {1}
  {
    hide *;
    FreshOpens(trigger);
    FreshFiles();
    FreshState(trigger);
    CountedIs(Fresh(trigger), [[]]);
    FreshSettled();
    FreshParts();
    OpenedNumbers(trigger, FreshDisk(), FRESH_STATE, [[]]);
    OnlyOne(Fresh(trigger).mem.nextId - 1);
  }

  lemma FreshParts()
    ensures FRESH_STATE.segments == [Segment(1, 0)]
  {
  }

  /** Over any run from a new store: unless entries have been cut off since the active segment was opened or begun, the
      entry count that the next rollover records is the number of frames in the sealed file, modulo 2^32. */
  lemma SealedExactly(trigger: nat, steps: seq<Step>, fs: seq<Frame>)
    requires Possible(Fresh(trigger), steps) && !LostCount(Fresh(trigger), steps)
    requires Enabled(Final(Fresh(trigger), steps), Batch(fs)) && RollsOver(Final(Fresh(trigger), steps), Batch(fs))
    ensures var w := Final(Fresh(trigger), steps); SealCounts(w, Exec(w, Batch(fs)))
  {
    hide *;
    FreshNumbers(trigger);
    CountedIff(Fresh(trigger), steps);
    CountStep(Final(Fresh(trigger), steps), Batch(fs));
  }
}
