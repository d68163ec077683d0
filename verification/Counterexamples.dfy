/** Concrete runs on which the store does not do what its documentation says. */
module Counterexamples {
  import opened Basics
  import opened Frames
  import opened State
  import opened StateLaws
  import opened Codec
  import opened Disk
  import opened Index
  import opened Log
  import opened World
  import opened Invariant
  import opened Writing
  import opened TruncatingEnd
  import opened Recovery
  import opened Checkpoints
  import opened Reopening
  import opened Reading
  import opened Crashes
  import opened CrashSteps
  import opened Scanner
  import opened ScannerLaws
  import opened Runs
  import opened Rollovers
  import opened Drifting
  import opened Misplaced

  function Empty(id: EntryId): Frame {
    RawFrame.Frame(id, [])
  }

  lemma EmptySize(id: EntryId)
    ensures SizeOf([Empty(id)]) == HEADER_LEN
  {
    assert [Empty(id)][1..] == [];
  }

  lemma FreshFields(trigger: nat)
    ensures var m := Fresh(trigger).mem;
      && m.trigger == trigger && m.state == FRESH_STATE && m.state.segments == [Segment(1, 0)]
      && m.state.firstEntry == 0 && m.index == [Indexed(1, [])]
      && m.activePos == MAGIC_LEN && m.activeFirst == 0 && m.lastEntry == None && m.nextId == 2 && !m.rolloverPending
  {
    MaxIdBounds({1});
    assert MaxId({1}) == 1;
    FreshApplied();
    EncodeAllEmpty();
    hide MaxId, IdSet, EncodeAll;
    assert CheckpointsOf([], MAGIC_LEN, INDEX_STRIDE, 0) == [];
    assert IdSet(FRESH_STATE.segments) + {} == {1};
  }

  // ── A scan that yields an entry below the request ───────────────────────────

  ghost predicate Small(m: Mem) {
    m.activePos < 1000 && m.nextId < 1000
  }

  lemma WrittenFields(w: World, id: EntryId)
    requires Small(w.mem)
    ensures var m, m' := w.mem, Written(w, [Empty(id)]).mem;
      && m'.lastEntry == Some(id) && m'.trigger == m.trigger && m'.index == m.index
      && m'.activePos == (if m.rolloverPending then MAGIC_LEN else m.activePos) + HEADER_LEN
      && m'.activeFirst == (if m.rolloverPending then id else m.activeFirst)
      && m'.rolloverPending == (m'.activePos > m.trigger)
      && m'.nextId == (if m.rolloverPending then m.nextId + 1 else m.nextId)
  {
    EmptySize(id);
    hide WriteAt, EncodeAll, SizeOf, Encode, RollOp;
  }

  /** One more batch of a single empty entry. */
  lemma OneWritten(w: World, body: Body, id: EntryId)
    requires Inv(w, body) && Small(w.mem)
    requires w.mem.activeFirst <= id && (w.mem.lastEntry.Some? ==> w.mem.lastEntry.value < id)
    ensures CanWrite(w.mem, [Empty(id)]) && body != []
    ensures Inv(Written(w, [Empty(id)]), WrittenBody(w, body, [Empty(id)]))
    ensures Written(w, [Empty(id)]).mem.state.firstEntry == w.mem.state.firstEntry
  {
    hide *;
    HasSegments(w, body);
    CanWriteOne(w.mem, id);
    WriteKeepsInv(w, body, [Empty(id)]);
    WrittenState(w, body, [Empty(id)]);
  }

  lemma CanWriteOne(m: Mem, id: EntryId)
    requires Small(m) && m.activeFirst <= id && (m.lastEntry.Some? ==> m.lastEntry.value < id)
    ensures CanWrite(m, [Empty(id)])
  {
    EmptySize(id);
  }

  const THREE_BATCHES: seq<Step> := [Batch([Empty(1)]), Batch([Empty(2)]), Batch([Empty(3)])]

  lemma ThreeBatchesRun(w: World)
    ensures var w1 := Written(w, [Empty(1)]); var w2 := Written(w1, [Empty(2)]);
      && Final(w, THREE_BATCHES) == Written(w2, [Empty(3)])
      && (CanWrite(w.mem, [Empty(1)]) && CanWrite(w1.mem, [Empty(2)]) && CanWrite(w2.mem, [Empty(3)])
          ==> Possible(w, THREE_BATCHES))
  {
    hide Written, CanWrite;
    var s := THREE_BATCHES;
    assert s[1..] == [Batch([Empty(2)]), Batch([Empty(3)])] && s[1..][1..] == [Batch([Empty(3)])] && s[1..][1..][1..] == [];
    var w1 := Written(w, [Empty(1)]);
    var w2 := Written(w1, [Empty(2)]);
    var w3 := Written(w2, [Empty(3)]);
    assert Final(w2, s[1..][1..]) == Final(w3, []) == w3;
    assert Final(w1, s[1..]) == Final(w2, s[1..][1..]);
    assert Possible(w3, []);
    assert CanWrite(w2.mem, [Empty(3)]) ==> Possible(w2, s[1..][1..]);
    assert CanWrite(w1.mem, [Empty(2)]) && Possible(w2, s[1..][1..]) ==> Possible(w1, s[1..]);
  }

  /** A store whose last batch was the single entry `id`, nothing indexed. */
  ghost predicate Stage(w: World, trigger: nat, body: Body, id: EntryId, next: SegmentId, pos: nat) {
    && Inv(w, body) && body != []
    && w.mem.index == [Indexed(1, [])] && w.mem.state.firstEntry == 0 && w.mem.trigger == trigger
    && w.mem.lastEntry == Some(id) && w.mem.activeFirst <= id
    && w.mem.activePos == pos && w.mem.nextId == next && w.mem.rolloverPending == (pos > trigger)
  }

  lemma FirstStage(trigger: nat)
    ensures CanWrite(Fresh(trigger).mem, [Empty(1)])
    ensures Stage(Written(Fresh(trigger), [Empty(1)]), trigger, [[Empty(1)]], 1, 2, 28)
  {
    hide Inv, Written, CanWrite, WrittenBody, Fresh, Valid, Open, Abs;
    FreshOpens(trigger);
    FreshFields(trigger);
    var w := Fresh(trigger);
    WrittenFields(w, 1);
    OneWritten(w, [[]], 1);
    FirstBodies(w);
  }

  /** The next batch goes to a new segment when a rollover is pending. */
  lemma NextStage(w: World, trigger: nat, body: Body, id: EntryId, next: SegmentId, pos: nat)
    requires Stage(w, trigger, body, id, next, pos) && id < 9 && next < 9 && pos < 100
    ensures CanWrite(w.mem, [Empty(id + 1)])
    ensures var w' := Written(w, [Empty(id + 1)]);
      if pos > trigger then Stage(w', trigger, body + [[Empty(id + 1)]], id + 1, next + 1, 28)
      else Stage(w', trigger, Extended(body, [Empty(id + 1)]), id + 1, next, pos + HEADER_LEN)
  {
    hide Inv, Written, CanWrite, WrittenBody, Extended;
    WrittenFields(w, id + 1);
    OneWritten(w, body, id + 1);
    NextBody(w, body, id + 1);
    assert Extended(body, [Empty(id + 1)]) != [] by { ExtendedAt(body, [Empty(id + 1)]); }
  }

  /** With a rollover after every batch, three batches land in three segments, none of them in the index. */
  lemma ThreeSegments()
    ensures Possible(Fresh(0), THREE_BATCHES)
    ensures Stage(Final(Fresh(0), THREE_BATCHES), 0, [[Empty(1)], [Empty(2)], [Empty(3)]], 3, 4, 28)
  {
    hide *;
    ThreeBatchesRun(Fresh(0));
    var w1 := Written(Fresh(0), [Empty(1)]);
    FirstStage(0);
    NextStage(w1, 0, [[Empty(1)]], 1, 2, 28);
    NextStage(Written(w1, [Empty(2)]), 0, [[Empty(1)]] + [[Empty(2)]], 2, 3, 28);
    assert [[Empty(1)]] + [[Empty(2)]] + [[Empty(3)]] == [[Empty(1)], [Empty(2)], [Empty(3)]];
  }

  lemma FirstBodies(w: World)
    requires !w.mem.rolloverPending
    ensures WrittenBody(w, [[]], [Empty(1)]) == [[Empty(1)]]
  {
    var none: Body := [[]];
    assert none[..0] == [] && [] + [Empty(1)] == [Empty(1)];
  }

  lemma NextBody(w: World, body: Body, id: EntryId)
    requires body != []
    ensures WrittenBody(w, body, [Empty(id)]) ==
      if w.mem.rolloverPending then body + [[Empty(id)]] else Extended(body, [Empty(id)])
  {
  }

  /** `scan` promises entries with id at or above the request.  After three one-entry batches with a rollover
      between them, a scan from 3 also yields entry 2. */
  lemma ScanBelowRequest()
    ensures Possible(Fresh(0), THREE_BATCHES)
    ensures var w := Final(Fresh(0), THREE_BATCHES);
      w.mem.state.segments != [] && Scanned(w, 3) == Read([Empty(2), Empty(3)], true)
  {
    hide *;
    ThreeSegments();
    StageParts(Final(Fresh(0), THREE_BATCHES), 0, [[Empty(1)], [Empty(2)], [Empty(3)]], 3, 4);
    var w, body := Final(Fresh(0), THREE_BATCHES), [[Empty(1)], [Empty(2)], [Empty(3)]];
    HasSegments(w, body);
    NoFloor(w.mem, 3);
    StartIsLive(w, body, 3);
    ScanYields(w, body, 3);
    YieldedOfThree();
  }

  lemma StageParts(w: World, trigger: nat, body: Body, id: EntryId, next: SegmentId)
    requires Stage(w, trigger, body, id, next, 28)
    ensures Inv(w, body) && w.mem.index == [Indexed(1, [])]
    ensures w.mem.state.firstEntry == 0 && w.mem.lastEntry == Some(id)
  {
    hide Inv;
  }

  lemma NoFloor(m: Mem, from: EntryId)
    requires m.index == [Indexed(1, [])] && m.state.firstEntry == 0 && m.lastEntry == Some(3) && from == 3
    ensures Floor(m.index, from) == None && Clamped(m, from) == 3 && LastVisible(m) == Some(3)
  {
  }

  lemma YieldedOfThree()
    ensures Yielded([[Empty(1)], [Empty(2)], [Empty(3)]], 0, 3) == [Empty(2), Empty(3)]
  {
    var body := [[Empty(1)], [Empty(2)], [Empty(3)]];
    assert body[1..] == [[Empty(2)]] + [[Empty(3)]];
    ConcatSplit([[Empty(2)]], [[Empty(3)]]);
    ConcatOne([Empty(2)]);
    ConcatOne([Empty(3)]);
    hide Concat;
    assert [Empty(1)][1..] == [];
  }

  // ── A truncation at the wrong offset ────────────────────────────────────────

  /** Empty entries with ids 0 to n - 1. */
  function Numbered(n: nat): (fs: seq<Frame>)
    requires n <= 200
    ensures |fs| == n && forall i :: 0 <= i < n ==> fs[i] == Empty(i)
  {
    seq(n, i requires 0 <= i < n => Empty(i))
  }

  lemma NumberedTake(n: nat, m: nat)
    requires m <= n <= 200
    ensures Numbered(n)[..m] == Numbered(m)
  {
  }

  lemma {:induction false} NumberedSize(n: nat)
    requires n <= 200
    ensures SizeOf(Numbered(n)) == n * HEADER_LEN
  {
    if n > 0 {
      NumberedSize(n - 1);
      assert Numbered(n) == Numbered(n - 1) + [Empty(n - 1)];
      EncodeAllConcat(Numbered(n - 1), [Empty(n - 1)]);
      EmptySize(n - 1);
    }
  }

  function LongRun(trigger: nat, n: nat): seq<Step>
    requires n <= 200
  {
    [Batch(Numbered(n)), Reopen(trigger)]
  }

  lemma LongBatchRun(trigger: nat, n: nat)
    requires 0 < n <= 200
    ensures Possible(Fresh(trigger), LongRun(trigger, n))
    ensures var w := Final(Fresh(trigger), LongRun(trigger, n));
      && Inv(w, [Numbered(n)]) && w.mem.state.segments == [Segment(1, 0)]
      && w.mem.index == FreshIndex([Segment(1, 0)], [Numbered(n)])
  {
    hide *;
    var w, fs := Fresh(trigger), Numbered(n);
    FreshOpens(trigger);
    FreshFields(trigger);
    LongBatchFits(w.mem, n);
    WriteKeepsInv(w, [[]], fs);
    FirstBody(w, fs);
    var w1 := Written(w, fs);
    WrittenPlainly(w, fs);
    InvIsSettled(w1, [fs]);
    OpenSettled(trigger, w1.disk, w1.mem.state, [fs]);
    OpenedFields(trigger, w1.disk, w1.mem.state, [fs]);
    LongRunIs(trigger, n);
    TwoSteps(w, fs, trigger);
  }

  lemma LongRunIs(trigger: nat, n: nat)
    requires n <= 200
    ensures LongRun(trigger, n) == [Batch(Numbered(n)), Reopen(trigger)]
  {
  }

  lemma LongBatchFits(m: Mem, n: nat)
    requires 0 < n <= 200
    requires m.activePos == MAGIC_LEN && m.activeFirst == 0 && m.lastEntry == None && m.nextId == 2
    ensures CanWrite(m, Numbered(n)) && Numbered(n) != []
  {
    hide SizeOf, Numbered;
    NumberedSize(n);
  }

  lemma FirstBody(w: World, fs: seq<Frame>)
    requires !w.mem.rolloverPending && fs != []
    ensures WrittenBody(w, [[]], fs) == [fs]
  {
    var none: Body := [[]];
    assert none[..0] == [] && [] + fs == fs;
  }

  /** A batch and a reopening. */
  lemma TwoSteps(w: World, fs: seq<Frame>, trigger: nat)
    requires CanWrite(w.mem, fs) && Open(trigger, Written(w, fs).disk).result.Success?
    ensures var steps := [Batch(fs), Reopen(trigger)];
      && Possible(w, steps)
      && var r := Open(trigger, Written(w, fs).disk);
         Final(w, steps) == World(r.result.value, r.disk)
  {
    hide Written, CanWrite, Open;
    var steps := [Batch(fs), Reopen(trigger)];
    var w1 := Written(w, fs);
    assert steps[1..] == [Reopen(trigger)] && steps[1..][1..] == [];
    var w2 := Exec(w1, Reopen(trigger));
    assert Possible(w2, []) && Final(w2, []) == w2;
    assert Possible(w1, steps[1..]) && Final(w1, steps[1..]) == w2;
  }

  lemma LongIndexFloor(n: nat)
    requires 66 <= n <= 200
    ensures Floor(FreshIndex([Segment(1, 0)], [Numbered(n)]), 64) == Some(IndexPosition(1, 64, 1288))
  {
    hide CheckpointsOf, SizeOf, SegmentFind, Floor, Numbered;
    var fs := Numbered(n);
    CheckpointDensity(fs, MAGIC_LEN, 64);
    CheckpointForm(fs, MAGIC_LEN, n);
    var cps := CheckpointsOf(fs, MAGIC_LEN, INDEX_STRIDE, |fs|);
    NumberedTake(n, 64);
    NumberedSize(64);
    assert SegmentFind(cps, 64) == Some(Checkpoint(64, 1288));
    assert cps[0].id == 0;
    assert FreshIndex([Segment(1, 0)], [fs]) == [Indexed(1, cps)];
    OnlyFloor(cps, 64);
  }

  lemma OnlyFloor(cps: seq<Checkpoint>, target: EntryId)
    requires cps != [] && cps[0].id <= target && SegmentFind(cps, target).Some?
    ensures var c := SegmentFind(cps, target).value;
      Floor([Indexed(1, cps)], target) == Some(IndexPosition(1, c.id, c.offset))
  {
    hide SegmentFind;
    assert PartitionPoint([Indexed(1, cps)], StartsAtMost(target)) == 1;
  }

  /** The store after a long batch and a reopening, just before `truncate_end(64)`. */
  lemma BeforeDrift(trigger: nat, n: nat)
    requires 66 <= n <= 200
    ensures Possible(Fresh(trigger), LongRun(trigger, n))
    ensures var w := Final(Fresh(trigger), LongRun(trigger, n));
      && Inv(w, [Numbered(n)]) && w.mem.state.segments != [] && w.mem.state.segments == [Segment(1, 0)]
      && TargetIndex(w.mem.state.segments, 64) == 0 && !IsEndNoop(w.mem, 64)
      && CanTruncateEnd(w, 64) && !NoDrift(w, 64) && CutOffset(w, 64) == Some(2588)
  {
    hide *;
    LongBatchRun(trigger, n);
    LongIndexFloor(n);
    var w, fs := Final(Fresh(trigger), LongRun(trigger, n)), Numbered(n);
    HasSegments(w, [fs]);
    NotNoop(w, fs, n);
    OnlyTarget(w);
    Drifts(w, fs, n);
    StoredLong(fs, n);
    CutOffsetIs(w, [fs], 64);
    LongNumbers(w, n);
  }

  /** `truncate_end(64)` after 66 empty entries and a reopening should leave 1308 bytes.  The scanner starts with
      its position at checkpoint 64 and its reader at the first frame, so the file ends up 2588 bytes long, and the
      store is no longer valid. */
  lemma TruncateEndDrifts(trigger: nat)
    ensures Possible(Fresh(trigger), LongRun(trigger, 66))
    ensures var w := Final(Fresh(trigger), LongRun(trigger, 66));
      && Valid(w) && w.mem.state.segments != []
      && var r := EndTruncated(w, 64);
         && r.Some? && !Valid(r.value)
         && r.value.mem.activePos == 2588
         && |Image(Numbered(66)[..65])| == 1308
  {
    hide *;
    BeforeDrift(trigger, 66);
    var w, fs := Final(Fresh(trigger), LongRun(trigger, 66)), Numbered(66);
    InvIsValid(w, [fs]);
    HasSegments(w, [fs]);
    StoredLong(fs, 66);
    TruncateEndExact(w, [fs], 64);
    EndTruncatedIs(w, 64);
    NumberedImage(66, 65);
    CutPosition(w, 64);
  }

  /** With 200 entries the same call leaves 129 whole frames.  The next open shows ids 65 to 128 again, which were
      rolled back; an entry 65 pushed before that lands behind them. */
  lemma RolledBackReturn(trigger: nat)
    ensures Possible(Fresh(trigger), LongRun(trigger, 200))
    ensures var w := Final(Fresh(trigger), LongRun(trigger, 200));
      && Valid(w) && w.mem.state.segments != [] && Entries(w) == Numbered(200)
      && EndTruncated(w, 64).Some?
      && var v := EndTruncated(w, 64).value; var r := Open(trigger, v.disk);
         && r.result.Success? && Entries(World(r.result.value, r.disk)) == Numbered(129)
         && v.mem.lastEntry == Some(64) && Entries(Written(v, [Empty(65)])) == Numbered(129) + [Empty(65)]
  {
    hide *;
    BeforeDrift(trigger, 200);
    var w, fs := Final(Fresh(trigger), LongRun(trigger, 200)), Numbered(200);
    InvIsValid(w, [fs]);
    HasSegments(w, [fs]);
    EntriesOf(w, [fs]);
    ConcatOne(fs);
    LongCut(w, fs);
    NumberedImage(200, 129);
    FirstFrames(fs, 129);
    CutBehindReopens(trigger, w, [fs], 0, 64, 2588);
    PushBehind(w, [fs], 0, 64, 2588, 129, [Empty(65)]);
    NumberedUpTo();
    NumberedAt(200, 128);
    NumberedAt(200, 64);
  }

  lemma LongCut(w: World, fs: seq<Frame>)
    requires Inv(w, [fs]) && fs == Numbered(200) && w.mem.state.segments != [] && !IsEndNoop(w.mem, 64)
    requires CanTruncateEnd(w, 64) && TargetIndex(w.mem.state.segments, 64) == 0 && CutOffset(w, 64) == Some(2588)
    ensures CutsBehind(w, [fs], 0, 64, 2588)
  {
    hide *;
    NumberedAt(200, 64);
    NumberedImage(200, 65);
    NumberedImage(200, 200);
    assert fs[..200] == fs;
    LongCutParts(w, fs);
  }

  lemma LongCutParts(w: World, fs: seq<Frame>)
    requires Inv(w, [fs]) && |fs| == 200 && fs[64].id == 64 && w.mem.state.segments != [] && !IsEndNoop(w.mem, 64)
    requires CanTruncateEnd(w, 64) && TargetIndex(w.mem.state.segments, 64) == 0 && CutOffset(w, 64) == Some(2588)
    requires |Image(fs[..65])| <= 2588 <= |Image(fs)|
    ensures CutsBehind(w, [fs], 0, 64, 2588)
  {
    hide Inv, IsEndNoop, CanTruncateEnd, TargetIndex, CutOffset, Image;
  }

  lemma NumberedAt(n: nat, k: nat)
    requires k < n <= 200
    ensures |Numbered(n)| == n && Numbered(n)[k].id == k
  {
  }

  lemma NumberedImage(n: nat, m: nat)
    requires m <= n <= 200
    ensures |Numbered(n)| == n && |Image(Numbered(n)[..m])| == MAGIC_LEN + m * HEADER_LEN
    ensures MAGIC_LEN == 8 && HEADER_LEN == 20
  {
    NumberedTake(n, m);
    NumberedSize(m);
    hide SizeOf, EncodeAll;
  }

  lemma FirstFrames(fs: seq<Frame>, m: nat)
    requires m <= |fs|
    ensures MAGIC_LEN <= |Image(fs[..m])| && FramesBefore([fs], 0, |Image(fs[..m])|) == m
  {
    ImageLength(fs[..m]);
    WholeAtBoundary(fs, m);
    hide Image, Whole, SizeOf;
  }

  lemma NumberedUpTo()
    ensures UpToId(Concat([Numbered(200)]), 128) == Numbered(129)
  {
    var kept, gone := Numbered(129), Numbered(200)[129..];
    assert Numbered(200) == kept + gone;
    ConcatOne(Numbered(200));
    assert forall i :: 0 <= i < |kept| ==> kept[i].id <= 128;
    assert forall i :: 0 <= i < |gone| ==> gone[i].id > 128;
    hide Concat, UpToId, Numbered;
    UpToIdConcat(kept, gone, 128);
    UpToIdAll(kept, 128);
    UpToIdNone(gone, 128);
  }

  lemma NotNoop(w: World, fs: seq<Frame>, n: nat)
    requires 66 <= n <= 200 && Inv(w, [fs]) && fs == Numbered(n)
    ensures !IsEndNoop(w.mem, 64)
  {
    assert LastOk(w.mem.lastEntry, w.mem.state, [fs]);
    hide Inv;
  }

  lemma OnlyTarget(w: World)
    requires w.mem.state.segments == [Segment(1, 0)]
    ensures TargetIndex(w.mem.state.segments, 64) == 0 && Target(w, 64) == 1
  {
  }

  lemma Drifts(w: World, fs: seq<Frame>, n: nat)
    requires 66 <= n <= 200 && Inv(w, [fs]) && fs == Numbered(n)
    requires w.mem.state.segments == [Segment(1, 0)] && Target(w, 64) == 1
    requires w.mem.index == FreshIndex([Segment(1, 0)], [fs])
    requires Floor(w.mem.index, 64) == Some(IndexPosition(1, 64, 1288))
    ensures StartOffset(w.mem, Target(w, 64), 64) == 1288 && !NoDrift(w, 64) && CanTruncateEnd(w, 64)
  {
    assert FileAt(w.disk, w.mem.state.segments[0], [fs][0]);
    NumberedSize(n);
    EndRecordFits(w);
    hide Inv, FreshIndex, Floor, Numbered, EncodeAll, SizeOf, Fits, CutOffset;
    assert |FileIn(w.disk, 1)| == |Image(fs)| == MAGIC_LEN + n * HEADER_LEN;
  }

  lemma EndRecordFits(w: World)
    requires w.mem.state.segments == [Segment(1, 0)]
    ensures CutOffset(w, 64).Some? ==> Fits(EndOp(w, 64, CutOffset(w, 64).value))
  {
    hide CutOffset, Fits;
    if CutOffset(w, 64).Some? {
      var op := EndOp(w, 64, CutOffset(w, 64).value);
      assert w.mem.state.segments[1..] == [];
      NumbersFit(op.op);
    }
  }

  lemma StoredLong(fs: seq<Frame>, n: nat)
    requires 66 <= n <= 200 && fs == Numbered(n)
    ensures Stored([fs], 64) && IndexOfId(fs, 64) == Some(64)
  {
    assert StoredAt([fs], 64, 0, 64);
    hide Numbered;
    assert forall i :: 0 <= i < n ==> fs[i].id == i;
  }

  lemma LongNumbers(w: World, n: nat)
    requires 66 <= n <= 200
    requires w.mem.state.segments != [] && StartOffset(w.mem, Target(w, 64), 64) == 1288
    ensures |Numbered(n)| == n && ShiftedEnd(w, Numbered(n), 64, 64) == 2588
  {
    NumberedImage(n, 65);
    hide SizeOf, Image, StartOffset, Numbered;
  }

  lemma CutPosition(w: World, last: EntryId)
    requires w.mem.state.segments != [] && CutOffset(w, last).Some?
    ensures EndCut(w, last, CutOffset(w, last).value).mem.activePos == CutOffset(w, last).value
  {
    hide CutOffset, EndOp, CutDisk, Logged, TruncatedEnd;
  }

  // ── A torn manifest record ──────────────────────────────────────────────────

  /** A new store whose first metadata record was cut right behind its header cannot be opened. */
  lemma TornRecordFails(trigger: nat, pairs: seq<Pair>)
    requires Fits(ManifestOp(Metadata, pairs))
    ensures var f := RecordFrame(ManifestOp(Metadata, pairs)); var w := Fresh(trigger);
      && HEADER_LEN < |Encode(f)|
      && Open(trigger, w.disk.(manifest := w.disk.manifest + Encode(f)[..HEADER_LEN])).result == Failure(RecoveryNotPossible)
  {
    hide *;
    RecordBehindHeader(ManifestOp(Metadata, pairs));
    FreshOpens(trigger);
    TornRecordIff(trigger, Fresh(trigger), [[]], RecordFrame(ManifestOp(Metadata, pairs)), HEADER_LEN);
  }

  lemma RecordBehindHeader(entry: ManifestOp)
    requires Fits(entry)
    ensures |RecordFrame(entry).payload| < U32_LIMIT && 0 <= HEADER_LEN < |Encode(RecordFrame(entry))|
  {
    DecodeOfEncode(entry);
    hide DecodeBytes;
  }

  // ── A lost tail of a sealed segment ─────────────────────────────────────────

  /** The disk with the last byte of a live segment's file gone. */
  function OneByteLost(w: World, i: nat): Disk
    requires i < |w.mem.state.segments|
  {
    var id := w.mem.state.segments[i].id;
    var file := FileIn(w.disk, id);
    WithSegment(w.disk, id, if file == [] then [] else file[..|file| - 1])
  }

  lemma LostFromFirst(before: Disk, segs: seq<Segment>, body: Body, d: Disk)
    requires 0 < |body| == |segs| && FilesOk(before, segs, body) && DistinctIds(segs) && body[0] != []
    requires d == WithSegment(before, segs[0].id, Image(body[0])[..|Image(body[0])| - 1])
    ensures forall i :: 0 <= i < |segs| ==> TailLost(before, d, segs[i].id)
    ensures d.segments.Keys == before.segments.Keys && |d.segments[segs[0].id]| < |before.segments[segs[0].id]|
  {
    assert FileAt(before, segs[0], body[0]);
    ImageGrows(body[0]);
    hide Image;
    forall i | 0 <= i < |segs|
      ensures TailLost(before, d, segs[i].id)
    {
      assert FileAt(before, segs[i], body[i]);
      FileOfBody(SEGMENT_MAGIC, body[i]);
      ImageIs(body[i]);
      assert i > 0 ==> segs[0].id != segs[i].id;
    }
  }

  lemma OneByteIs(w: World, fs: seq<Frame>)
    requires w.mem.state.segments != [] && FileAt(w.disk, w.mem.state.segments[0], fs) && fs != []
    ensures |Image(fs)| > 0
    ensures OneByteLost(w, 0) == WithSegment(w.disk, w.mem.state.segments[0].id, Image(fs)[..|Image(fs)| - 1])
  {
    ImageGrows(fs);
    hide Image;
  }

  lemma OneByteIsTail(w: World, body: Body)
    requires Inv(w, body) && |body| > 1
    ensures |body| == |w.mem.state.segments| && TailsLost(w, OneByteLost(w, 0)) && !SealedWhole(w, OneByteLost(w, 0))
  {
    var segs := w.mem.state.segments;
    ActiveFile(w, body);
    SealedNotEmpty(w, body);
    assert FileAt(w.disk, segs[0], body[0]);
    hide Inv, Image, FilesOk, DistinctIds, OneByteLost, FileAt, LastOk, Increasing, OrderedBody;
    OneByteIs(w, body[0]);
    LostFromFirst(w.disk, segs, body, OneByteLost(w, 0));
    OnlyTailsLost(w, body, OneByteLost(w, 0));
    assert !Kept(w, OneByteLost(w, 0), 0);
  }

  lemma ImageGrows(fs: seq<Frame>)
    requires fs != []
    ensures |Image(fs)| > MAGIC_LEN && SEGMENT_MAGIC <= Image(fs)[..|Image(fs)| - 1]
  {
    FileOfBody(SEGMENT_MAGIC, fs);
    hide EncodeAll;
    assert Image(fs)[..MAGIC_LEN] == SEGMENT_MAGIC;
  }

  lemma ImageIs(fs: seq<Frame>)
    ensures Image(fs) == FileOf(SEGMENT_MAGIC, fs)
  {
  }

  /** After three batches with rollovers, losing the last byte of the first segment makes the store unopenable. */
  lemma SealedTailFails(trigger: nat)
    ensures Possible(Fresh(0), THREE_BATCHES)
    ensures var w := Final(Fresh(0), THREE_BATCHES);
      && w.mem.state.segments != []
      && Open(trigger, OneByteLost(w, 0)).result == Failure(RecoveryNotPossible)
  {
    hide *;
    ThreeSegments();
    var w, body := Final(Fresh(0), THREE_BATCHES), [[Empty(1)], [Empty(2)], [Empty(3)]];
    StageParts(w, 0, body, 3, 4);
    HasSegments(w, body);
    OneByteIsTail(w, body);
    PowerLoss(trigger, w, body, OneByteLost(w, 0));
  }

  // ── A crash inside a truncation into a sealed segment ───────────────────────

  /** With a trigger of 28 bytes, three one-entry batches fill two segments. */
  lemma TwoSegments()
    ensures Possible(Fresh(28), THREE_BATCHES)
    ensures Stage(Final(Fresh(28), THREE_BATCHES), 28, [[Empty(1), Empty(2)], [Empty(3)]], 3, 3, 28)
  {
    hide *;
    ThreeBatchesRun(Fresh(28));
    var w1 := Written(Fresh(28), [Empty(1)]);
    FirstStage(28);
    NextStage(w1, 28, [[Empty(1)]], 1, 2, 28);
    TwoInFirst();
    NextStage(Written(w1, [Empty(2)]), 28, [[Empty(1), Empty(2)]], 2, 2, 48);
    assert [[Empty(1), Empty(2)]] + [[Empty(3)]] == [[Empty(1), Empty(2)], [Empty(3)]];
  }

  lemma TwoInFirst()
    ensures Extended([[Empty(1)]], [Empty(2)]) == [[Empty(1), Empty(2)]] && HEADER_LEN == 20
  {
    var one: Body := [[Empty(1)]];
    assert one[..0] == [] && [Empty(1)] + [Empty(2)] == [Empty(1), Empty(2)];
  }

  lemma OneDropFits(target: SegmentId, offset: u64, id: SegmentId)
    ensures Fits(Bare(TruncateEnd(target, offset, [id])))
  {
    var op := TruncateEnd(target, offset, [id]);
    assert [id][1..] == [];
    assert DropFields([id]) == [U32(TAG_DROP_ID, id)];
    assert Fields(Bare(op)) == Scalars(op) + [U32(TAG_DROP_ID, id)] + [];
  }

  /** `truncate_end(1)` into the sealed first segment, stopped between shrinking the file and recording it: the
      store cannot be opened. */
  lemma CutIntoSealedFails(trigger: nat)
    ensures Possible(Fresh(28), THREE_BATCHES)
    ensures var w := Final(Fresh(28), THREE_BATCHES);
      && w.mem.state.segments != []
      && EndSteps(w, 1) != []
      && Open(trigger, EndSteps(w, 1)[0]).result.Failure?
  {
    hide *;
    TwoSegments();
    var w, body := Final(Fresh(28), THREE_BATCHES), [[Empty(1), Empty(2)], [Empty(3)]];
    StageParts(w, 28, body, 3, 3);
    HasSegments(w, body);
    CutsFirst(w, body);
    ShrunkNotRecorded(trigger, w, body, 0, 0);
    FirstEndStep(w, body);
  }

  lemma FirstEndStep(w: World, body: Body)
    requires CutsAt(w, body, 0, 0)
    ensures EndSteps(w, body[0][0].id) != [] && EndSteps(w, body[0][0].id)[0] == MiddleDisk(w, body[0][0].id)
  {
    ShrunkDisk(w, body, 0, 0);
    hide Inv, CanTruncateEnd, NoDrift, CutOffset, EndCut, CutDisk, Image;
  }

  lemma CutsFirst(w: World, body: Body)
    requires Stage(w, 28, body, 3, 3, 28) && body == [[Empty(1), Empty(2)], [Empty(3)]]
    ensures CutsAt(w, body, 0, 0) && body[0][0].id == 1
  {
    HasSegments(w, body);
    TargetHolds(w.mem.state, body, 1, 0, 0);
    ActiveFile(w, body);
    FilesOkFileIn(w.disk, w.mem.state.segments, body, 0);
    assert Floor(w.mem.index, 1) == None;
    assert body[0] == [Empty(1)] + [Empty(2)] && body[0][1..] == [Empty(2)];
    EmptySize(2);
    ImageIs(body[0]);
    assert |Image(body[0])| == MAGIC_LEN + 2 * HEADER_LEN;
    EndRecordOfTwo(w, 1);
    hide Inv, StateOk, BodyOk, FilesOk, DistinctIds, Image, TargetIndex, Fits, Floor, CutOffset;
  }

  lemma EndRecordOfTwo(w: World, last: EntryId)
    requires |w.mem.state.segments| == 2 && TargetIndex(w.mem.state.segments, last) == 0
    ensures CutOffset(w, last).Some? ==> Fits(EndOp(w, last, CutOffset(w, last).value))
  {
    hide CutOffset, Fits, TargetIndex;
    var segs := w.mem.state.segments;
    if CutOffset(w, last).Some? {
      assert segs[1..][1..] == [];
      assert Ids(segs[1..]) == [segs[1].id];
      OneDropFits(segs[0].id, CutOffset(w, last).value, segs[1].id);
    }
  }

  // ── A broken active file ────────────────────────────────────────────────────

  /** A new store whose segment file is there but empty cannot be recovered, not even with approval. */
  lemma EmptyActiveFails(trigger: nat)
    ensures var d := WithSegment(FreshDisk(), 1, []);
      && Open(trigger, d).result == Failure(ApprovedRecoveryRequired)
      && AttemptRecovery(d, Scan(d).issues, true).result == Failure(IoError)
  {
    hide *;
    FreshOpens(trigger);
    FreshActive(trigger);
    EmptyIsBroken(Fresh(trigger));
    BrokenActiveNeedsApproval(trigger, Fresh(trigger), [[]], WithSegment(FreshDisk(), 1, []));
  }

  lemma FreshActive(trigger: nat)
    ensures Fresh(trigger).disk == FreshDisk() && Fresh(trigger).mem.activeId == 1
    ensures 1 in WithSegment(FreshDisk(), 1, []).segments
  {
    hide FreshDisk, MaxId, IdSet, Image, CheckpointsOf;
  }

  lemma EmptyIsBroken(w: World)
    requires w.disk == FreshDisk() && w.mem.activeId == 1
    ensures ActiveBroken(w, WithSegment(FreshDisk(), 1, []))
  {
    hide FreshDisk;
  }

  // ── An empty payload ────────────────────────────────────────────────────────

  /** A scanner that starts in step and reads one empty frame ends a header behind. */
  lemma EmptyReadFails(id: EntryId)
    ensures var s := ScannerState(Encode(Empty(id)), 0, 0, None);
      && |s.data| == HEADER_LEN && HeaderAt(s.data, 0).len == 0
      && Drift(s) == 0 && Drift(Consumed(s)) == -HEADER_LEN
  {
    hide Encode, HeaderAt;
    var e := Encode(Empty(id));
    assert e[0..0 + HEADER_LEN] == e[..HEADER_LEN];
    HeaderOfEncoded(e, 0, Empty(id));
  }

  // ── A forgotten rollover ────────────────────────────────────────────────────

  const ONE_REOPENED: seq<Step> := [Batch([Empty(1)]), Reopen(0)]

  /** With trigger 0 a rollover is due after every batch.  A reopening forgets it: the active file is past the
      trigger, and still the next batch goes to it. */
  lemma RolloverForgotten()
    ensures Possible(Fresh(0), ONE_REOPENED)
    ensures var w := Final(Fresh(0), ONE_REOPENED);
      && Valid(w) && PastTrigger(w) && !w.mem.rolloverPending
      && Enabled(w, Batch([Empty(2)]))
      && Exec(w, Batch([Empty(2)])).mem.state.segments == w.mem.state.segments
  {
    hide *;
    FirstStage(0);
    var w1, body := Written(Fresh(0), [Empty(1)]), [[Empty(1)]];
    StageParts(w1, 0, body, 1, 2);
    InvIsSettled(w1, body);
    HasSegments(w1, body);
    OpenSettled(0, w1.disk, w1.mem.state, body);
    TwoSteps(Fresh(0), [Empty(1)], 0);
    OneReopenedIs();
    var w := Final(Fresh(0), ONE_REOPENED);
    InvIsValid(w, body);
    FreshFields(0);
    WrittenPlainly(Fresh(0), [Empty(1)]);
    OneReopened(w1.disk);
    ActiveLength(w, body);
    PastTriggerIs(w);
    CanWriteOne(w.mem, 2);
    WrittenPlainly(w, [Empty(2)]);
    BatchEnabled(w, [Empty(2)]);
  }

  lemma OneReopenedIs()
    ensures ONE_REOPENED == [Batch([Empty(1)]), Reopen(0)]
  {
  }

  lemma BatchEnabled(w: World, fs: seq<Frame>)
    ensures Enabled(w, Batch(fs)) == CanWrite(w.mem, fs) && Exec(w, Batch(fs)) == Written(w, fs)
  {
    hide CanWrite, Written;
  }

  lemma OneReopened(d: Disk)
    ensures FRESH_STATE.segments == [Segment(1, 0)]
    ensures var m := OpenedMem(0, d, FRESH_STATE, [[Empty(1)]]);
      && m.state == FRESH_STATE && m.activePos == 28 && m.trigger == 0 && !m.rolloverPending
      && m.lastEntry == Some(1) && m.activeFirst == 0 && m.nextId == 2
  {
    MaxIdBounds({1});
    assert MaxId({1}) == 1;
    FreshApplied();
    EmptySize(1);
    ImageLength([Empty(1)]);
    hide MaxId, IdSet, Image, CheckpointsOf, SizeOf;
    assert IdSet(FRESH_STATE.segments) + {} == {1};
  }

  // ── A smaller id after a crash ──────────────────────────────────────────────

  /** The disk a crash leaves when a rollover for entry 5 is complete, and its batch is not written. */
  function RolledDisk(): Disk {
    RolledOver(Written(Fresh(0), [Empty(1)]), 5).disk
  }

  function CrashRun(): seq<Step> {
    [Batch([Empty(1)]), Crash(Batch([Empty(5)]), RolledDisk(), 0)]
  }

  const SMALLER: seq<Frame> := [Empty(3), Empty(6)]

  const TWO_SEGMENTS: seq<Segment> := [Segment(1, 0), Segment(2, 5)]

  /** One entry in the first segment, none in the second. */
  const ROLLED_BODY: Body := [[Empty(1)], []]

  lemma CrashRunIs()
    ensures CrashRun() == [Batch([Empty(1)]), Crash(Batch([Empty(5)]), RolledDisk(), 0)]
    ensures RolledDisk() == RolledOver(Written(Fresh(0), [Empty(1)]), 5).disk
  {
    hide Written, RolledOver, Fresh;
  }

  lemma RolledFirst()
    ensures CanWrite(Fresh(0).mem, [Empty(1)])
    ensures var w1 := Written(Fresh(0), [Empty(1)]);
      && w1.mem.rolloverPending && CanWrite(w1.mem, [Empty(5)])
      && Inv(RolledOver(w1, 5), ROLLED_BODY) && RolledOver(w1, 5).mem.state.segments == TWO_SEGMENTS
  {
    hide *;
    FirstStage(0);
    var w1, one := Written(Fresh(0), [Empty(1)]), [[Empty(1)]];
    StageParts(w1, 0, one, 1, 2);
    FreshFields(0);
    WrittenPlainly(Fresh(0), [Empty(1)]);
    StagePending(w1, one);
    CanWriteOne(w1.mem, 5);
    PlainRoll(w1, one, [Empty(5)]);
    assert [Empty(5)][0].id == 5 by { EmptyId(5); }
    RollKeepsInv(w1, one, 5);
    RollApplies(w1, one, 5);
    RolledSegments(w1, 5);
    RolledBodyIs();
  }

  lemma EmptyId(id: EntryId)
    ensures Empty(id).id == id
  {
  }

  lemma StagePending(w: World, body: Body)
    requires Stage(w, 0, body, 1, 2, 28)
    ensures w.mem.rolloverPending && w.mem.nextId == 2 && Small(w.mem) && w.mem.activeFirst <= 1
  {
    hide Inv;
  }

  lemma RolledBodyIs()
    ensures [[Empty(1)]] + [[]] == ROLLED_BODY && [Segment(1, 0)] + [Segment(2, 5)] == TWO_SEGMENTS
    ensures |ROLLED_BODY| == 2 && ROLLED_BODY[0] == [Empty(1)] && ROLLED_BODY[1] == []
  {
  }

  lemma CrashAtRoll(w1: World)
    requires w1.mem.rolloverPending
    ensures CrashOf(w1.disk, WriteSteps(w1, [Empty(5)]), RolledOver(w1, 5).disk)
  {
    hide Written, RolledOver, StoppedAt;
    var d := RolledOver(w1, 5).disk;
    var steps := WriteSteps(w1, [Empty(5)]);
    assert steps[2] == d && steps[1..][1..][0] == d;
    assert StoppedAt(steps[1], d, d) by { StopsWhole(steps[1], d); }
    assert CrashOf(steps[1], steps[1..][1..], d);
    assert steps[1..][0] == steps[1];
    assert CrashOf(steps[0], steps[1..], d);
  }

  lemma StopsWhole(before: Disk, after: Disk)
    ensures StoppedAt(before, after, after)
  {
  }

  lemma RunOfTwo(w1: World)
    requires w1 == Written(Fresh(0), [Empty(1)]) && CanWrite(Fresh(0).mem, [Empty(1)])
    requires CanWrite(w1.mem, [Empty(5)]) && CrashOf(w1.disk, WriteSteps(w1, [Empty(5)]), RolledDisk())
    requires Open(0, RolledDisk()).result.Success?
    ensures Possible(Fresh(0), CrashRun())
    ensures var r := Open(0, RolledDisk()); Final(Fresh(0), CrashRun()) == World(r.result.value, r.disk)
  {
    hide Written, CanWrite, CrashOf, WriteSteps, RolledDisk, Fresh, Open;
    var s := CrashRun();
    var w2 := Exec(w1, s[1]);
    assert s[1..] == [s[1]] && s[1..][1..] == [];
    assert Possible(w2, []) && Final(w2, []) == w2;
    assert Possible(w1, s[1..]) && Final(w1, s[1..]) == w2;
  }

  lemma RolledReopened(d: Disk, s: State)
    requires s.segments == TWO_SEGMENTS
    ensures var m := OpenedMem(0, d, s, ROLLED_BODY);
      m.state == s && m.activePos == MAGIC_LEN && !m.rolloverPending && m.lastEntry == Some(1) && m.activeFirst == 5
  {
    EncodeAllEmpty();
    ImageLength([]);
    hide MaxId, IdSet, FreshIndex, EncodeAll;
  }

  lemma SmallerSize()
    ensures SizeOf(SMALLER) == 2 * HEADER_LEN && Increasing(SMALLER)
  {
    assert SMALLER == [Empty(3)] + [Empty(6)] && SMALLER[1..] == [Empty(6)];
    EmptySize(6);
  }

  lemma SmallerFirst(w: World)
    requires Inv(w, ROLLED_BODY) && w.mem.lastEntry == Some(1) && w.mem.activePos == MAGIC_LEN
    ensures FirstBatch(w, ROLLED_BODY, SMALLER)
  {
    hide Inv, SizeOf;
    SmallerSize();
  }

  lemma SmallerLog()
    ensures Concat(ROLLED_BODY) + SMALLER == [Empty(1), Empty(3), Empty(6)]
    ensures SMALLER[0].id == 3 && LastId(SMALLER) == 6 && |SMALLER| == 2
    ensures Extended(ROLLED_BODY, SMALLER) == [[Empty(1)], SMALLER]
  {
    var none: seq<Frame> := [];
    assert ROLLED_BODY[1..] == [none] && ROLLED_BODY[..1] == [[Empty(1)]] && none + SMALLER == SMALLER;
    ConcatOne(none);
  }

  /** Where the search for entry 3 starts. */
  lemma SmallStart(m: Mem, body: Body, segs: seq<Segment>, target: SegmentId)
    requires IndexSound(m.index, segs, body) && body == ROLLED_BODY
    ensures StartOffset(m, target, 3) <= 28
  {
    FloorIsGreatest(m.index, 3);
    hide Floor, Image;
    var p := Floor(m.index, 3);
    if p.Some? {
      var i: nat, k: nat :| PointsAt(p.value, segs, body, i, k);
      assert i == 0 && k == 0;
      EmptyImage(body[0][..k]);
    }
  }

  lemma EmptyImage(fs: seq<Frame>)
    requires fs == []
    ensures |Image(fs)| == MAGIC_LEN
  {
    EncodeAllEmpty();
    ImageLength(fs);
    hide EncodeAll;
  }

  lemma SmallerFits(w: World)
    requires FirstBatch(w, ROLLED_BODY, SMALLER) && w.mem.state.segments == TWO_SEGMENTS
    ensures var v := Written(w, SMALLER);
      v.mem.state.segments == TWO_SEGMENTS && v.mem.state.segments != [] && CanTruncateEnd(v, 3)
  {
    hide *;
    FirstParts(w, ROLLED_BODY, SMALLER);
    FirstStored(w, ROLLED_BODY, SMALLER);
    var v := Written(w, SMALLER);
    TwoAre();
    SmallerLog();
    LookedFile(v, 3, Extended(ROLLED_BODY, SMALLER));
    WhereLooked(TWO_SEGMENTS, 3);
    EmptySize(1);
    ImageLength([Empty(1)]);
    SameIndex(w, SMALLER);
    IndexPart(w, ROLLED_BODY);
    SmallStart(v.mem, ROLLED_BODY, TWO_SEGMENTS, Target(v, 3));
    EndRecordOfTwo(v, 3);
    CanCutFrom(v, 3);
  }

  lemma TwoAre()
    ensures |TWO_SEGMENTS| == 2 && TWO_SEGMENTS[1].firstEntry == 5 && AscendingFirsts(TWO_SEGMENTS)
    ensures MAGIC_LEN == 8 && HEADER_LEN == 20
  {
  }

  lemma CanCutFrom(v: World, last: EntryId)
    requires v.mem.state.segments != []
    requires |FileIn(v.disk, Target(v, last))| <= 100 && StartOffset(v.mem, Target(v, last), last) <= 100
    requires CutOffset(v, last).Some? ==> Fits(EndOp(v, last, CutOffset(v, last).value))
    ensures CanTruncateEnd(v, last)
  {
    hide FileIn, StartOffset, CutOffset, Fits, Target;
  }

  lemma SameIndex(w: World, batch: seq<Frame>)
    requires !w.mem.rolloverPending
    ensures Written(w, batch).mem.index == w.mem.index
  {
    hide WriteAt, EncodeAll, SizeOf;
  }

  lemma IndexPart(w: World, body: Body)
    requires Inv(w, body)
    ensures IndexSound(w.mem.index, w.mem.state.segments, body)
  {
    hide StateOk, BodyOk, FilesOk, CursorOk, LastOk, IdsOk, ManifestOk, IndexSound;
  }

  /** A caller whose entry 5 was lost in a crash goes on with entries 3 and 6, above all that is stored.  They go to
      the segment that was recorded to start at 5.  They are stored, but `truncate_end(3)` looks for 3 in the segment
      before, and fails. */
  lemma SmallerIdNotFound()
    ensures Possible(Fresh(0), CrashRun())
    ensures var w := Final(Fresh(0), CrashRun());
      && Valid(w) && w.mem.lastEntry == Some(1) && w.mem.state.segments != []
      && var v := Written(w, SMALLER);
         && v.mem.state.segments == w.mem.state.segments && v.mem.lastEntry == Some(6)
         && Entries(v) == [Empty(1), Empty(3), Empty(6)]
         && EndTruncated(v, 3) == None
  {
    hide *;
    CrashRunIs();
    RolledFirst();
    var w1 := Written(Fresh(0), [Empty(1)]);
    var rolled := RolledOver(w1, 5);
    RolledBodyIs();
    InvIsSettled(rolled, ROLLED_BODY);
    OpenSettled(0, RolledDisk(), rolled.mem.state, ROLLED_BODY);
    CrashAtRoll(w1);
    RunOfTwo(w1);
    var w := Final(Fresh(0), CrashRun());
    InvIsValid(w, ROLLED_BODY);
    RolledReopened(RolledDisk(), rolled.mem.state);
    SmallerFirst(w);
    FirstStored(w, ROLLED_BODY, SMALLER);
    SmallerLog();
    SmallerFits(w);
    TwoAre();
    BelowFirstNotFound(w, ROLLED_BODY, SMALLER, 0, Written(w, SMALLER));
    WrittenFirst(w, SMALLER);
  }
}
