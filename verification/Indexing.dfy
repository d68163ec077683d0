/** The index over whole runs: what every step leaves in it, and for how long that keeps scans exact. */
module Indexing {
  import opened Basics
  import opened Frames
  import opened State
  import opened StateLaws
  import opened Codec
  import opened Disk
  import opened Index
  import opened Log
  import opened World
  import opened Invariant
  import opened Writing
  import opened TruncatingStart
  import opened TruncatingEnd
  import opened Housekeeping
  import opened Recovery
  import opened Checkpoints
  import opened Reopening
  import opened Reading
  import opened Runs
  import opened Rollovers

  // ── What a step leaves in the index ─────────────────────────────────────────

  predicate CutsSomething(w: World, last: EntryId) {
    w.mem.state.segments != [] && !IsEndNoop(w.mem, last) && CutOffset(w, last).Some?
  }

  /** `p` is the start of a frame whose place in its segment is a multiple of 64. */
  ghost predicate AtStride(w: World, p: IndexPosition) {
    exists i: nat, k: nat :: k % 64 == 0 && PointsAt(p, w.mem.state.segments, BodyOf(w.disk, w.mem.state.segments), i, k)
  }

  /** Batches, deletions and metadata leave every checkpoint, a head move takes exactly those below the new head, a cut
      exactly those above its id, and after opening every 64th frame of each segment has one. */
  ghost predicate IndexedAfter(w: World, step: Step, w': World, p: IndexPosition) {
    match step
    case MoveHead(first, _) =>
      Has(w'.mem.index, p) <==> Has(w.mem.index, p) && (first >= w.mem.state.firstEntry ==> p.checkpoint >= first)
    case CutTail(last) =>
      Has(w'.mem.index, p) <==> Has(w.mem.index, p) && (CutsSomething(w, last) ==> p.checkpoint <= last)
    case _ => if Restarts(step) then Has(w'.mem.index, p) <==> AtStride(w', p) else w'.mem.index == w.mem.index
  }

  lemma WrittenIndex(w: World, fs: seq<Frame>)
    ensures Written(w, fs).mem.index == w.mem.index
  {
    hide WriteAt, EncodeAll, Encode, SizeOf, Applied, RollOp;
  }

  lemma {:induction false} DeletedIndex(w: World, ids: seq<SegmentId>)
    ensures Deleted(w, ids).mem.index == w.mem.index
    decreases |ids|
  {
    hide Logged;
    if ids != [] {
      LoggedIndex(w.(disk := WithoutSegment(w.disk, ids[0])), Bare(SegmentDeleted(ids[0])));
      DeletedIndex(DeletedOne(w, ids[0]), ids[1..]);
    }
  }

  lemma LoggedIndex(w: World, entry: ManifestOp)
    ensures Logged(w, entry).mem.index == w.mem.index
  {
    hide WriteAt, Encode, Applied;
  }

  lemma HeadIndex(w: World, first: EntryId, pairs: seq<Pair>, p: IndexPosition)
    requires IndexOk(w.mem.index)
    ensures IndexedAfter(w, MoveHead(first, pairs), Exec(w, MoveHead(first, pairs)), p)
  {
    TruncatedStartKeeps(w.mem.index, first);
    hide Logged, TruncatedStart, Evicted, Has;
  }

  lemma CutIndexed(w: World, last: EntryId, p: IndexPosition)
    requires IndexOk(w.mem.index)
    ensures IndexedAfter(w, CutTail(last), Exec(w, CutTail(last)), p)
  {
    TruncatedEndKeeps(w.mem.index, last);
    hide Logged, TruncatedEnd, CutOffset, EndOp, CutDisk, Has;
  }

  lemma FreshCheckpoints(fs: seq<Frame>)
    ensures var cps := CheckpointsOf(fs, MAGIC_LEN, INDEX_STRIDE, |fs|);
      && (forall a: nat :: a < |cps| ==>
            a * 64 < |fs| && cps[a] == Checkpoint(fs[a * 64].id, |Image(fs[..a * 64])|))
      && (forall k: nat :: k < |fs| && k % 64 == 0 ==> k / 64 < |cps| && k / 64 * 64 == k)
  {
    CheckpointForm(fs, MAGIC_LEN, |fs|);
    hide CheckpointsOf, SizeOf;
  }

  lemma FreshEntry(segs: seq<Segment>, body: Body, p: IndexPosition, i: nat, a: nat)
    requires |segs| == |body| && HasAt(FreshIndex(segs, body), p, i, a)
    ensures PointsAt(p, segs, body, i, a * 64)
  {
    FreshCheckpoints(body[i]);
    hide CheckpointsOf, Image;
  }

  lemma StrideEntry(segs: seq<Segment>, body: Body, p: IndexPosition, i: nat, k: nat)
    requires |segs| == |body| && k % 64 == 0 && PointsAt(p, segs, body, i, k)
    ensures HasAt(FreshIndex(segs, body), p, i, k / 64)
  {
    FreshCheckpoints(body[i]);
    hide CheckpointsOf, Image;
  }

  lemma FreshHas(segs: seq<Segment>, body: Body, p: IndexPosition)
    requires |segs| == |body|
    ensures Has(FreshIndex(segs, body), p) <==> exists i: nat, k: nat :: k % 64 == 0 && PointsAt(p, segs, body, i, k)
  {
    hide FreshIndex, PointsAt, HasAt;
    if Has(FreshIndex(segs, body), p) {
      var i: nat, a: nat :| HasAt(FreshIndex(segs, body), p, i, a);
      FreshEntry(segs, body, p, i, a);
      assert a * 64 % 64 == 0;
    }
    if exists i: nat, k: nat :: k % 64 == 0 && PointsAt(p, segs, body, i, k) {
      var i: nat, k: nat :| k % 64 == 0 && PointsAt(p, segs, body, i, k);
      StrideEntry(segs, body, p, i, k);
    }
  }

  /** A store that has just opened is the one its own disk opens as. */
  lemma OpenedIsFresh(trigger: nat, d: Disk, w: World)
    requires StartsAgain(trigger, d, w)
    ensures var w', body := Opened(trigger, d, w), BodyOf(Opened(trigger, d, w).disk, Opened(trigger, d, w).mem.state.segments);
      && Inv(w', body) && 0 < |body| == |w'.mem.state.segments|
      && w'.mem == OpenedMem(trigger, w'.disk, w'.mem.state, body)
  {
    hide *;
    var w' := Opened(trigger, d, w);
    StartsAgainParts(trigger, d, w);
    ValidIsInv(w');
    var body := BodyOf(w'.disk, w'.mem.state.segments);
    HasSegments(w', body);
    InvIsSettled(w', body);
    ScanSettled(w'.disk, w'.mem.state, body);
    MemFromSettled(trigger, w'.disk, w'.mem.state, body);
    OpenedFrom(trigger, d, w);
  }

  lemma StartsAgainParts(trigger: nat, d: Disk, w: World)
    requires StartsAgain(trigger, d, w)
    ensures Open(trigger, d).result.Success? && Valid(Opened(trigger, d, w))
  {
    hide Open, Valid;
  }

  lemma OpenedFrom(trigger: nat, d: Disk, w: World)
    requires Open(trigger, d).result.Success?
    ensures var w' := Opened(trigger, d, w); MemFrom(trigger, Scan(w'.disk)) == Some(w'.mem)
  {
    hide Scan, AttemptRecovery, MemFrom;
  }

  lemma OpenedIndex(trigger: nat, d: Disk, w: World, p: IndexPosition)
    requires StartsAgain(trigger, d, w)
    ensures var w' := Opened(trigger, d, w); Has(w'.mem.index, p) <==> AtStride(w', p)
  {
    hide *;
    OpenedIsFresh(trigger, d, w);
    var w' := Opened(trigger, d, w);
    var segs, body := w'.mem.state.segments, BodyOf(w'.disk, w'.mem.state.segments);
    OpenedFields(trigger, w'.disk, w'.mem.state, body);
    FreshHas(segs, body, p);
    AtStrideIs(w', p);
  }

  lemma AtStrideIs(w: World, p: IndexPosition)
    ensures AtStride(w, p) <==>
      exists i: nat, k: nat :: k % 64 == 0 && PointsAt(p, w.mem.state.segments, BodyOf(w.disk, w.mem.state.segments), i, k)
  {
    hide PointsAt, BodyOf;
  }

  /** The index law, for every step of a run. */
  lemma IndexStep(w: World, step: Step, p: IndexPosition)
    requires Valid(w) && Enabled(w, step)
    ensures IndexedAfter(w, step, Exec(w, step), p)
  {
    hide Valid, CanWrite, CanTruncateStart, CanCut, Written, StartTruncated, EndTruncated, DeadDeleted, MetadataWritten,
      Opened, StartsAgain, Has, AtStride, CutsSomething, IndexOk, AbsStep, Abs, StageOf, Loses;
    assert IndexOk(w.mem.index) by {
      ValidIsInv(w);
      IndexOrdered(w, BodyOf(w.disk, w.mem.state.segments));
    }
    match step
    case Batch(fs) => WrittenIndex(w, fs);
    case MoveHead(first, pairs) => HeadIndex(w, first, pairs, p);
    case CutTail(last) => CutIndexed(w, last, p);
    case DeleteDead => AllDeletedIndex(w);
    case WriteMetadata(pairs) => MetadataIndex(w, pairs);
    case Reopen(trigger) => StepRefines(w, step); OpenedIndex(trigger, w.disk, w, p);
    case Crash(_, left, trigger) => StepRefines(w, step); OpenedIndex(trigger, left, w, p);
    case LosePower(_, left, trigger) => StepRefines(w, step); OpenedIndex(trigger, left, w, p);
  }

  lemma AllDeletedIndex(w: World)
    ensures DeadDeleted(w).mem.index == w.mem.index
  {
    DeletedIndex(w, HASH_ORDER(w.mem.state.dead));
    hide Deleted;
  }

  lemma MetadataIndex(w: World, pairs: seq<Pair>)
    ensures MetadataWritten(w, pairs).mem.index == w.mem.index
  {
    LoggedIndex(w, ManifestOp(Metadata, pairs));
    hide Logged;
  }

  // ── Scans stay exact until a batch begins a segment ─────────────────────────

  /** The batch writes the first frame of a segment that is not the first one. */
  ghost predicate Begins(w: World, step: Step) {
    var segs := w.mem.state.segments;
    step.Batch? && step.frames != [] &&
    (w.mem.rolloverPending || (|segs| > 1 && BodyOf(w.disk, segs)[|segs| - 1] == []))
  }

  ghost predicate Known(w: World) {
    FirstsIndexed(w.mem.index, w.mem.state.segments, BodyOf(w.disk, w.mem.state.segments))
  }

  lemma KnownFrom(w: World, body: Body)
    requires Inv(w, body)
    ensures Known(w) <==> FirstsIndexed(w.mem.index, w.mem.state.segments, body)
  {
    InvIsValid(w, body);
    hide Inv, Valid, FirstsIndexed, BodyOf;
  }

  lemma ExtendedFirsts(idx: seq<Indexed>, segs: seq<Segment>, body: Body, fs: seq<Frame>)
    requires FirstsIndexed(idx, segs, body) && body != [] && (|body| > 1 ==> body[|body| - 1] != [])
    ensures FirstsIndexed(idx, segs, Extended(body, fs))
  {
    ExtendedAt(body, fs);
    hide Extended, Has;
    forall i | 0 < i < |body| && Extended(body, fs)[i] != []
      ensures FirstIndexed(idx, segs[i], Extended(body, fs)[i])
    {
      assert FirstIndexed(idx, segs[i], body[i]);
    }
  }

  lemma BatchKnown(w: World, body: Body, fs: seq<Frame>)
    requires Inv(w, body) && CanWrite(w.mem, fs) && Known(w) && !Begins(w, Batch(fs))
    ensures Known(Written(w, fs))
  {
    hide *;
    InvIsValid(w, body);
    HasSegments(w, body);
    KnownFrom(w, body);
    var w' := Written(w, fs);
    WriteKeepsInv(w, body, fs);
    KnownFrom(w', WrittenBody(w, body, fs));
    WrittenIndex(w, fs);
    PlainBatch(w, body, fs);
    if fs != [] {
      WrittenPlainly(w, fs);
      ExtendedFirsts(w.mem.index, w.mem.state.segments, body, fs);
    } else {
      EmptyWrite(w);
    }
  }

  lemma PlainBatch(w: World, body: Body, fs: seq<Frame>)
    requires BodyOf(w.disk, w.mem.state.segments) == body && 0 < |body| == |w.mem.state.segments|
    requires !Begins(w, Batch(fs))
    ensures fs == [] ==> WrittenBody(w, body, fs) == body
    ensures fs != [] ==>
      !w.mem.rolloverPending && (|body| > 1 ==> body[|body| - 1] != []) && WrittenBody(w, body, fs) == Extended(body, fs)
  {
    hide BodyOf, Extended;
  }

  /** Behind the first segment that stays, every frame is above the head. */
  lemma BehindHead(s: State, body: Body, first: EntryId, k: nat, i: nat)
    requires StateOk(s) && BodyOk(s, body) && k == EvictCount(s.segments, s.seals, first) && k < i < |body| && body[i] != []
    ensures body[i][0].id >= first
  {
    EvictableIff(s, body, first, k);
    AcrossSegments(s, body, k, i, |body[k]| - 1, 0);
  }

  lemma MovedFirsts(idx: seq<Indexed>, idx': seq<Indexed>, s: State, body: Body, first: EntryId, k: nat)
    requires StateOk(s) && BodyOk(s, body) && k == EvictCount(s.segments, s.seals, first) && k < |body|
    requires FirstsIndexed(idx, s.segments, body)
    requires forall p :: Has(idx, p) && p.checkpoint >= first ==> Has(idx', p)
    ensures FirstsIndexed(idx', s.segments[k..], body[k..])
  {
    hide StateOk, BodyOk, Has, EvictCount;
    forall i | 0 < i < |body| - k && body[k..][i] != []
      ensures FirstIndexed(idx', s.segments[k..][i], body[k..][i])
    {
      assert FirstIndexed(idx, s.segments[i + k], body[i + k]);
      BehindHead(s, body, first, k, i + k);
    }
  }

  lemma HeadKnown(w: World, body: Body, first: EntryId, pairs: seq<Pair>)
    requires Inv(w, body) && CanTruncateStart(w.mem, first, pairs) && Known(w)
    ensures Known(Exec(w, MoveHead(first, pairs)))
  {
    hide *;
    HasSegments(w, body);
    KnownFrom(w, body);
    StartKeepsInv(w, body, first, pairs);
    ExecHead(w, first, pairs);
    if first >= w.mem.state.firstEntry {
      var s, w' := w.mem.state, StartTruncated(w, first, pairs).value;
      var k := EvictCount(s.segments, s.seals, first);
      IndexOrdered(w, body);
      forall p
        ensures Has(w'.mem.index, p) <==> Has(w.mem.index, p) && p.checkpoint >= first
      {
        HeadIndex(w, first, pairs, p);
        HeadIndexIs(w, first, pairs, w', p);
      }
      MovedFirsts(w.mem.index, w'.mem.index, s, body, first, k);
      HeadMovedSegments(s, first, k, pairs);
      KnownFrom(w', body[k..]);
    }
  }

  lemma ExecHead(w: World, first: EntryId, pairs: seq<Pair>)
    ensures Exec(w, MoveHead(first, pairs)) == StartTruncated(w, first, pairs).GetOr(w)
    ensures StartTruncated(w, first, pairs).None? ==> Exec(w, MoveHead(first, pairs)) == w
    ensures StartTruncated(w, first, pairs).Some? ==> Exec(w, MoveHead(first, pairs)) == StartTruncated(w, first, pairs).value
  {
    hide StartTruncated;
  }

  lemma HeadIndexIs(w: World, first: EntryId, pairs: seq<Pair>, w': World, p: IndexPosition)
    requires IndexedAfter(w, MoveHead(first, pairs), w', p) && first >= w.mem.state.firstEntry
    ensures Has(w'.mem.index, p) <==> Has(w.mem.index, p) && p.checkpoint >= first
  {
    hide Has;
  }

  lemma CutFirsts(idx: seq<Indexed>, idx': seq<Indexed>, s: State, body: Body, i: nat, j: nat)
    requires StateOk(s) && BodyOk(s, body) && i < |body| && j < |body[i]|
    requires FirstsIndexed(idx, s.segments, body)
    requires forall p :: Has(idx, p) && p.checkpoint <= body[i][j].id ==> Has(idx', p)
    ensures FirstsIndexed(idx', s.segments[..i + 1], CutBody(body, i, j))
  {
    BodyIsOrdered(s, body);
    hide StateOk, BodyOk, Has;
    var body' := CutBody(body, i, j);
    forall k | 0 < k < |body'| && body'[k] != []
      ensures FirstIndexed(idx', s.segments[..i + 1][k], body'[k])
    {
      assert body[k] != [] && body'[k][0] == body[k][0];
      assert FirstIndexed(idx, s.segments[k], body[k]);
      assert body[k][0].id <= body[i][j].id by {
        assert Increasing(body[i]);
        assert k < i ==> AllBefore(body[k], body[i]);
      }
    }
  }

  lemma CutKnown(w: World, body: Body, last: EntryId)
    requires Inv(w, body) && w.mem.state.segments != [] && CanCut(w, last) && Known(w)
    ensures Known(Exec(w, CutTail(last)))
  {
    hide *;
    HasSegments(w, body);
    KnownFrom(w, body);
    CanCutParts(w, last);
    TruncateEndExact(w, body, last);
    ExecCut(w, last);
    if CutsSomething(w, last) {
      CutsIs(w, last);
      CutFailsIff(w, body, last);
      StoredIs(body, last);
      var i: nat, j: nat :| i < |body| && j < |body[i]| && body[i][j].id == last;
      TargetHolds(w.mem.state, body, last, i, j);
      ExactCut(w, body, i, j);
      var w' := EndTruncated(w, last).value;
      IndexOrdered(w, body);
      forall p
        ensures Has(w'.mem.index, p) <==> Has(w.mem.index, p) && p.checkpoint <= last
      {
        CutIndexed(w, last, p);
        CutIndexIs(w, last, w', p);
      }
      CutFirsts(w.mem.index, w'.mem.index, w.mem.state, body, i, j);
      RolledBackSegments(w.mem.state, i);
      KnownFrom(w', CutBody(body, i, j));
    }
  }

  lemma ExecCut(w: World, last: EntryId)
    requires w.mem.state.segments != []
    ensures Exec(w, CutTail(last)) == EndTruncated(w, last).GetOr(w)
    ensures EndTruncated(w, last).Some? ==> Exec(w, CutTail(last)) == EndTruncated(w, last).value
    ensures !CutsSomething(w, last) ==> Exec(w, CutTail(last)) == w
  {
    hide CutOffset, EndCut;
  }

  lemma CutsIs(w: World, last: EntryId)
    requires w.mem.state.segments != [] && CutsSomething(w, last)
    ensures !IsEndNoop(w.mem, last) && CutOffset(w, last).Some? && EndTruncated(w, last).Some?
  {
    hide CutOffset, EndCut;
  }

  lemma StoredIs(body: Body, last: EntryId)
    ensures Stored(body, last) ==> exists i: nat, j: nat :: i < |body| && j < |body[i]| && body[i][j].id == last
  {
    if Stored(body, last) {
      var i: nat, j: nat :| StoredAt(body, last, i, j);
      assert i < |body| && j < |body[i]| && body[i][j].id == last;
    }
  }

  lemma CutIndexIs(w: World, last: EntryId, w': World, p: IndexPosition)
    requires IndexedAfter(w, CutTail(last), w', p) && CutsSomething(w, last)
    ensures Has(w'.mem.index, p) <==> Has(w.mem.index, p) && p.checkpoint <= last
  {
    hide Has, CutsSomething;
  }

  lemma SameKnown(w: World, w': World, body: Body)
    requires Inv(w, body) && Inv(w', body) && w'.mem.index == w.mem.index && w'.mem.state.segments == w.mem.state.segments
    ensures Known(w) <==> Known(w')
  {
    hide *;
    KnownFrom(w, body);
    KnownFrom(w', body);
  }

  lemma OpenedKnown(trigger: nat, d: Disk, w: World)
    requires StartsAgain(trigger, d, w)
    ensures Known(Opened(trigger, d, w))
  {
    hide *;
    OpenedIsFresh(trigger, d, w);
    var w' := Opened(trigger, d, w);
    var body := BodyOf(w'.disk, w'.mem.state.segments);
    OpenedFields(trigger, w'.disk, w'.mem.state, body);
    FreshHasFirsts(w'.mem.state.segments, body);
    KnownFrom(w', body);
  }

  /** A step other than a batch that begins a segment keeps the firsts indexed, and an opening makes them so. */
  lemma KnownStep(w: World, step: Step)
    requires Valid(w) && Enabled(w, step) && (Restarts(step) || (Known(w) && !Begins(w, step)))
    ensures Known(Exec(w, step))
  {
    hide Valid, CanWrite, CanTruncateStart, CanCut, Written, StartTruncated, EndTruncated, DeadDeleted, MetadataWritten,
      Opened, StartsAgain, Known, Begins, AbsStep, Abs, StageOf, Loses, Fits, BodyOf, Inv, Merge;
    ValidIsInv(w);
    var body := BodyOf(w.disk, w.mem.state.segments);
    match step
    case Batch(fs) => BatchKnown(w, body, fs);
    case MoveHead(first, pairs) => HeadKnown(w, body, first, pairs);
    case CutTail(last) => CutKnown(w, body, last);
    case DeleteDead =>
      DeadDeletedKeepsInv(w, body);
      AllDeletedIndex(w);
      SameKnown(w, DeadDeleted(w), body);
    case WriteMetadata(pairs) =>
      MetadataKeepsInv(w, body, pairs);
      MetadataIndex(w, pairs);
      SameKnown(w, MetadataWritten(w, pairs), body);
    case Reopen(trigger) => StepRefines(w, step); OpenedKnown(trigger, w.disk, w);
    case Crash(_, left, trigger) => StepRefines(w, step); OpenedKnown(trigger, left, w);
    case LosePower(_, left, trigger) => StepRefines(w, step); OpenedKnown(trigger, left, w);
  }

  /** Step `k` began a segment, and the store has not been opened since. */
  ghost predicate BegunAt(w: World, steps: seq<Step>, k: nat)
    requires k < |steps|
  {
    Begins(Final(w, steps[..k]), steps[k]) && forall i :: k < i < |steps| ==> !Restarts(steps[i])
  }

  ghost predicate Begun(w: World, steps: seq<Step>) {
    exists k :: 0 <= k < |steps| && BegunAt(w, steps, k)
  }

  lemma BegunStep(w: World, before: seq<Step>, step: Step)
    ensures Begins(Final(w, before), step) || (Begun(w, before) && !Restarts(step)) ==> Begun(w, before + [step])
  {
    hide Begins, Final;
    var steps, n := before + [step], |before|;
    assert steps[..n] == before && steps[n] == step;
    assert forall k :: 0 <= k < n ==> steps[..k] == before[..k] && steps[k] == before[k];
    if Begins(Final(w, before), step) {
      assert BegunAt(w, steps, n);
    } else if Begun(w, before) && !Restarts(step) {
      var k :| 0 <= k < n && BegunAt(w, before, k);
      assert BegunAt(w, steps, k);
    }
  }

  lemma {:induction false} KnownAfter(w: World, steps: seq<Step>)
    requires Valid(w) && Known(w) && Possible(w, steps) && !Begun(w, steps)
    ensures Valid(Final(w, steps)) && Known(Final(w, steps))
    decreases |steps|
  {
    hide *;
    if steps == [] {
      NothingDue(w);
    } else {
      var before, step := steps[..|steps| - 1], steps[|steps| - 1];
      assert steps == before + [step];
      LastStep(w, steps);
      StepRefines(Final(w, before), step);
      BegunStep(w, before, step);
      if !Restarts(step) {
        KnownAfter(w, before);
      }
      KnownStep(Final(w, before), step);
    }
  }

  lemma FreshKnown(trigger: nat)
    ensures Valid(Fresh(trigger)) && Known(Fresh(trigger))
  {
    hide *;
    FreshOpens(trigger);
    KnownFrom(Fresh(trigger), [[]]);
    HasSegments(Fresh(trigger), [[]]);
    OneIsIndexed(Fresh(trigger).mem.index, Fresh(trigger).mem.state.segments);
  }

  lemma OneIsIndexed(idx: seq<Indexed>, segs: seq<Segment>)
    requires |segs| == 1
    ensures FirstsIndexed(idx, segs, [[]])
  {
  }

  /** Over any run from a new store: unless a batch has begun a segment since the store was last opened, every scan is
      exact, whatever head moves, cuts, deletions, crashes and power failures there have been. */
  lemma ScansStayExact(trigger: nat, steps: seq<Step>, from: EntryId)
    requires Possible(Fresh(trigger), steps) && !Begun(Fresh(trigger), steps)
    ensures var w := Final(Fresh(trigger), steps);
      && w.mem.state.segments != []
      && Scanned(w, from) == Read(AtLeast(Entries(w), Clamped(w.mem, from)), true)
  {
    hide *;
    FreshKnown(trigger);
    KnownAfter(Fresh(trigger), steps);
    var w := Final(Fresh(trigger), steps);
    var body := BodyOf(w.disk, w.mem.state.segments);
    ValidIsInv(w);
    KnownFrom(w, body);
    EntriesOf(w, body);
    IndexedScansExactly(w, body, from);
  }

  /** In particular a store that has just been opened scans exactly after any accepted head move. */
  lemma ScanExactAfterHeadMove(trigger: nat, w: World, body: Body, first: EntryId, pairs: seq<Pair>, from: EntryId)
    requires Inv(w, body)
    ensures Open(trigger, w.disk).result.Success?
    ensures var store := World(Open(trigger, w.disk).result.value, w.disk);
      CanTruncateStart(store.mem, first, pairs) && first >= w.mem.state.firstEntry ==>
        var r := StartTruncated(store, first, pairs);
        && r.Some? && r.value.mem.state.segments != []
        && Scanned(r.value, from) == Read(AtLeast(Concat(body), if from < first then first else from), true)
  {
    hide *;
    ReopenIsIdentity(w, body, trigger);
    ReopenRefines(trigger, w, body);
    OpenedKnown(trigger, w.disk, w);
    OpenedSame(trigger, w);
    var store := World(Open(trigger, w.disk).result.value, w.disk);
    if CanTruncateStart(store.mem, first, pairs) && first >= w.mem.state.firstEntry {
      HeadKnown(store, body, first, pairs);
      StartKeepsInv(store, body, first, pairs);
      ExecHead(store, first, pairs);
      var moved, k := StartTruncated(store, first, pairs).value, EvictCount(store.mem.state.segments, store.mem.state.seals, first);
      KnownFrom(moved, body[k..]);
      IndexedScansExactly(moved, body[k..], from);
      HasSegments(store, body);
      HeadMovedFields(store.mem.state, first, k, pairs);
      ClampedIs(moved.mem, from);
      var target := Clamped(moved.mem, from);
      AtLeastTwice(Concat(body[k..]), first, target);
      AtLeastTwice(Concat(body), first, target);
    }
  }

  lemma ClampedIs(m: Mem, from: EntryId)
    ensures Clamped(m, from) == if from < m.state.firstEntry then m.state.firstEntry else from
  {
  }

  lemma OpenedSame(trigger: nat, w: World)
    requires Open(trigger, w.disk).result.Success? && Open(trigger, w.disk).disk == w.disk
    ensures Opened(trigger, w.disk, w) == World(Open(trigger, w.disk).result.value, w.disk)
  {
    hide Open;
  }
}
