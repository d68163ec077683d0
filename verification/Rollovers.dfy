/** When a batch starts a new segment, over whole runs. */
module Rollovers {
  import opened Basics
  import opened Frames
  import opened State
  import opened Codec
  import opened Disk
  import opened World
  import opened Invariant
  import opened Writing
  import opened TruncatingStart
  import opened Recovery
  import opened CrashSteps
  import opened Runs

  predicate Writes(step: Step) {
    step.Batch? && step.frames != []
  }

  /** What makes a store forget that a rollover is due: the end of its process, and a cut that takes effect. */
  predicate Forgets(w: World, step: Step) {
    || Restarts(step)
    || (step.CutTail? && w.mem.state.segments != [] && !IsEndNoop(w.mem, step.last) && CutOffset(w, step.last).Some?)
  }

  predicate PastTrigger(w: World) {
    |FileIn(w.disk, w.mem.activeId)| > w.mem.trigger
  }

  /** Step `k` is the last batch, the active file was past the trigger after it, and nothing made the store forget. */
  ghost predicate DueSince(w: World, steps: seq<Step>, k: nat)
    requires k < |steps|
  {
    && Writes(steps[k]) && PastTrigger(Final(w, steps[..k + 1]))
    && forall i :: k < i < |steps| ==> !Writes(steps[i]) && !Forgets(Final(w, steps[..i]), steps[i])
  }

  ghost predicate Due(w: World, steps: seq<Step>) {
    exists k :: 0 <= k < |steps| && DueSince(w, steps, k)
  }

  // ── One step ────────────────────────────────────────────────────────────────

  lemma BatchPending(w: World, fs: seq<Frame>)
    requires Valid(w) && CanWrite(w.mem, fs) && fs != []
    ensures Written(w, fs).mem.rolloverPending <==> PastTrigger(Written(w, fs))
  {
    hide *;
    var body := BodyOf(w.disk, w.mem.state.segments);
    ValidIsInv(w);
    RolloverRule(w, body, fs);
    WrittenTrigger(w, fs);
    PastTriggerIs(Written(w, fs));
  }

  lemma PastTriggerIs(w: World)
    ensures PastTrigger(w) <==> |FileIn(w.disk, w.mem.activeId)| > w.mem.trigger
  {
    hide FileIn;
  }

  lemma WrittenTrigger(w: World, fs: seq<Frame>)
    ensures Written(w, fs).mem.trigger == w.mem.trigger
  {
    hide WriteAt, EncodeAll, Encode, SizeOf, Applied, RollOp;
  }

  lemma {:induction false} DeletedPending(w: World, ids: seq<SegmentId>)
    ensures Deleted(w, ids).mem.rolloverPending == w.mem.rolloverPending
    decreases |ids|
  {
    hide WriteAt, Encode, Applied;
    if ids != [] {
      var unlinked := w.(disk := WithoutSegment(w.disk, ids[0]));
      DeletedPending(Logged(unlinked, Bare(SegmentDeleted(ids[0]))), ids[1..]);
    }
  }

  lemma HeadPending(w: World, first: EntryId, pairs: seq<Pair>)
    ensures StartTruncated(w, first, pairs).GetOr(w).mem.rolloverPending == w.mem.rolloverPending
  {
    hide WriteAt, Encode, Applied, Evicted;
  }

  lemma CutPending(w: World, last: EntryId)
    requires w.mem.state.segments != []
    ensures var v := EndTruncated(w, last).GetOr(w);
      v.mem.rolloverPending <==> w.mem.rolloverPending && (IsEndNoop(w.mem, last) || CutOffset(w, last).None?)
  {
    hide WriteAt, Encode, Applied, CutOffset, EndOp, CutDisk, Logged;
  }

  lemma OpenedPending(trigger: nat, d: Disk, w: World)
    requires StartsAgain(trigger, d, w)
    ensures !Opened(trigger, d, w).mem.rolloverPending
  {
    hide Valid, Scan, AttemptRecovery, IndexFrom;
  }

  lemma MetadataPending(w: World, pairs: seq<Pair>)
    ensures MetadataWritten(w, pairs).mem.rolloverPending == w.mem.rolloverPending
  {
    hide WriteAt, Encode, Applied;
  }

  lemma PendingStep(w: World, step: Step)
    requires Valid(w) && Enabled(w, step)
    ensures Exec(w, step).mem.rolloverPending <==>
      if Writes(step) then PastTrigger(Exec(w, step)) else w.mem.rolloverPending && !Forgets(w, step)
  {
    hide Valid, CanWrite, CanTruncateStart, CanCut, Fits, Written, StartTruncated, EndTruncated, DeadDeleted,
      MetadataWritten, Opened, StartsAgain, PastTrigger, IsEndNoop, CutOffset, Abs, AbsStep, StageOf, Loses;
    match step
    case Batch(fs) => if fs != [] { BatchPending(w, fs); } else { EmptyWrite(w); }
    case MoveHead(first, pairs) => HeadPending(w, first, pairs);
    case CutTail(last) => CutPending(w, last);
    case DeleteDead => AllDeletedPending(w);
    case WriteMetadata(pairs) => MetadataPending(w, pairs);
    case Reopen(trigger) => StepRefines(w, step); OpenedPending(trigger, w.disk, w);
    case Crash(_, left, trigger) => StepRefines(w, step); OpenedPending(trigger, left, w);
    case LosePower(_, left, trigger) => StepRefines(w, step); OpenedPending(trigger, left, w);
  }

  lemma EmptyWrite(w: World)
    ensures Written(w, []) == w
  {
  }

  lemma AllDeletedPending(w: World)
    ensures DeadDeleted(w).mem.rolloverPending == w.mem.rolloverPending
  {
    DeletedPending(w, HASH_ORDER(w.mem.state.dead));
    hide Deleted;
  }

  // ── Whole runs ──────────────────────────────────────────────────────────────

  lemma {:induction false} LastStep(w: World, steps: seq<Step>)
    requires steps != [] && Valid(w) && Possible(w, steps)
    ensures var before, step := steps[..|steps| - 1], steps[|steps| - 1];
      && Possible(w, before) && Valid(Final(w, before)) && Enabled(Final(w, before), step)
      && Final(w, steps) == Exec(Final(w, before), step)
    decreases |steps|
  {
    hide Enabled, Exec, Valid, AbsStep, Abs, StartsAgain, FoundDisk;
    var before := steps[..|steps| - 1];
    if |steps| > 1 {
      StepRefines(w, steps[0]);
      LastStep(Exec(w, steps[0]), steps[1..]);
      assert before[1..] == steps[1..][..|steps| - 2];
    }
  }

  /** Whether a rollover is due, step by step. */
  lemma DueStep(w: World, before: seq<Step>, step: Step)
    ensures Due(w, before + [step]) <==>
      if Writes(step) then PastTrigger(Final(w, before + [step])) else Due(w, before) && !Forgets(Final(w, before), step)
  {
    hide Writes, Forgets, PastTrigger, Final;
    var steps, n := before + [step], |before|;
    assert steps[..n] == before && steps[..n + 1] == steps && steps[n] == step;
    assert forall k :: 0 <= k < n ==> steps[k] == before[k];
    assert forall k :: 0 <= k <= n ==> steps[..k] == before[..k];
    if Writes(step) {
      if PastTrigger(Final(w, steps)) {
        assert DueSince(w, steps, n);
      }
    } else {
      if Due(w, steps) {
        var k :| 0 <= k < |steps| && DueSince(w, steps, k);
        assert k < n;
        assert DueSince(w, before, k);
      }
      if Due(w, before) && !Forgets(Final(w, before), step) {
        var k :| 0 <= k < n && DueSince(w, before, k);
        assert DueSince(w, steps, k);
      }
    }
  }

  lemma {:induction false} PendingIff(w: World, steps: seq<Step>)
    requires Valid(w) && !w.mem.rolloverPending && Possible(w, steps)
    ensures Valid(Final(w, steps)) && (Final(w, steps).mem.rolloverPending <==> Due(w, steps))
    decreases |steps|
  {
    hide *;
    if steps == [] {
      NothingDue(w);
    } else {
      var before, step := steps[..|steps| - 1], steps[|steps| - 1];
      assert steps == before + [step];
      LastStep(w, steps);
      PendingIff(w, before);
      PendingStep(Final(w, before), step);
      StepRefines(Final(w, before), step);
      DueStep(w, before, step);
    }
  }

  lemma NothingDue(w: World)
    ensures Final(w, []) == w && !Due(w, [])
  {
  }

  lemma SegmentsAfter(w: World, fs: seq<Frame>)
    requires Valid(w) && CanWrite(w.mem, fs) && fs != []
    ensures Written(w, fs).mem.state.segments ==
      w.mem.state.segments + if w.mem.rolloverPending then [Segment(w.mem.nextId, fs[0].id)] else []
  {
    hide *;
    var body := BodyOf(w.disk, w.mem.state.segments);
    ValidIsInv(w);
    if w.mem.rolloverPending {
      PlainRoll(w, body, fs);
      RollApplies(w, body, fs[0].id);
      RolledSegments(w, fs[0].id);
      FlushedState(RolledOver(w, fs[0].id), fs);
      WrittenIs(w, fs);
    } else {
      WrittenPlainly(w, fs);
    }
  }

  lemma RolledSegments(w: World, first: EntryId)
    requires Applied(w.mem.state, RollOp(w.mem, first)) == Success(RolledState(w.mem, first))
    ensures RolledOver(w, first).mem.state.segments == w.mem.state.segments + [Segment(w.mem.nextId, first)]
  {
    hide Applied, WriteAt, Encode, RollOp;
  }

  /** The rollover law.  After any run, the next batch starts a segment, at its own first id, if and only if the
      active file was past the trigger after the last batch and since then no reopening, crash, power failure or
      effective cut has made the store forget; otherwise it goes to the file that is active. */
  lemma NextBatchRolls(trigger: nat, steps: seq<Step>, fs: seq<Frame>)
    requires Possible(Fresh(trigger), steps) && Enabled(Final(Fresh(trigger), steps), Batch(fs)) && fs != []
    ensures var w := Final(Fresh(trigger), steps);
      Exec(w, Batch(fs)).mem.state.segments ==
        w.mem.state.segments + if Due(Fresh(trigger), steps) then [Segment(w.mem.nextId, fs[0].id)] else []
  {
    hide *;
    var w := Final(Fresh(trigger), steps);
    FreshOpens(trigger);
    FreshNotPending(trigger);
    PendingIff(Fresh(trigger), steps);
    BatchIs(w, fs);
    SegmentsAfter(w, fs);
  }

  lemma FreshNotPending(trigger: nat)
    ensures !Fresh(trigger).mem.rolloverPending
  {
    hide FreshDisk;
  }

  lemma BatchIs(w: World, fs: seq<Frame>)
    requires Enabled(w, Batch(fs))
    ensures CanWrite(w.mem, fs) && Exec(w, Batch(fs)) == Written(w, fs)
  {
    hide CanWrite, Written;
  }
}
