/** Durability over whole runs: what was synced, and not removed on purpose, survives every power failure after which
    the store opens. */
module Durability {
  import opened Basics
  import opened Frames
  import opened Codec
  import opened State
  import opened StateLaws
  import opened Index
  import opened Disk
  import opened Log
  import opened World
  import opened Invariant
  import opened Writing
  import opened TruncatingStart
  import opened TruncatingEnd
  import opened Housekeeping
  import opened Reopening
  import opened Recovery
  import opened Mending
  import opened Recovering
  import opened Crashes
  import opened CrashSteps
  import opened Reading
  import opened Runs

  /** A store, and how many bytes of its active file are synced. */
  datatype Marked = Marked(world: World, synced: nat)

  /** A sync of the active file, an operation, or a stop in the middle of one, at one of the stores it passes through,
      with what is then left on disk.  Syncing the commit of an empty batch does nothing, and is no event. */
  datatype Event = Syncs | Does(step: Step) | Stops(during: Step, stage: World, left: Disk, trigger: nat)

  /** The synced length of a store `v` that an operation passes through.  A cut syncs the file it leaves active, which
      it shortens before it is recorded.  A rollover starts a file of which the magic is synced.  Otherwise writing
      syncs nothing. */
  function MarkAt(m: Marked, during: Step, v: World): nat {
    if during.CutTail? then
      if v != m.world then v.mem.activePos
      else if ShortensActive(m.world, during.last) then Min(m.synced, CutOffset(m.world, during.last).value)
      else m.synced
    else if v.mem.activeId == m.world.mem.activeId then m.synced
    else MAGIC_LEN
  }

  predicate ShortensActive(w: World, last: EntryId) {
    && w.mem.state.segments != [] && !IsEndNoop(w.mem, last) && CutOffset(w, last).Some?
    && TargetIndex(w.mem.state.segments, last) == |w.mem.state.segments| - 1
  }

  function Min(a: nat, b: nat): nat {
    if a <= b then a else b
  }

  /** After a stop nothing new counts as synced: the process may have died alone, and the power fail later. */
  function Next(m: Marked, e: Event): Marked {
    match e
    case Syncs => Marked(m.world, m.world.mem.activePos)
    case Does(step) => Marked(Exec(m.world, step), MarkAt(m, step, Exec(m.world, step)))
    case Stops(during, stage, left, trigger) =>
      var w := Opened(trigger, left, m.world);
      Marked(w, Min(MarkAt(m, during, stage), w.mem.activePos))
  }

  /** A stop can take anything but the synced part. */
  ghost predicate Allowed(m: Marked, e: Event) {
    match e
    case Syncs => true
    case Does(step) => IsPlain(step) && Enabled(m.world, step)
    case Stops(during, stage, left, _) =>
      && IsPlain(during) && Enabled(m.world, during) && StageOf(m.world, during, stage)
      && Loses(stage, left) && MarkAt(m, during, stage) <= Left(stage, left)
  }

  ghost predicate MarkOk(m: Marked) {
    Valid(m.world) && MAGIC_LEN <= m.synced <= m.world.mem.activePos
  }

  /** The visible entries in the sealed segments and in the first `synced` bytes of the active one. */
  function SafeOf(body: Body, synced: nat, head: EntryId): seq<Frame> {
    if body == [] || synced < MAGIC_LEN then [] else AtLeast(Concat(CutLast(body, synced)), head)
  }

  function Safe(m: Marked): seq<Frame> {
    SafeOf(BodyOf(m.world.disk, m.world.mem.state.segments), m.synced, m.world.mem.state.firstEntry)
  }

  /** What is left of some entries when the tail is cut on purpose. */
  function AfterCut(during: Step, fs: seq<Frame>): seq<Frame> {
    if during.CutTail? then UpToId(fs, during.last) else fs
  }

  function NotCut(e: Event, fs: seq<Frame>): seq<Frame> {
    match e
    case Syncs => fs
    case Does(step) => AfterCut(step, fs)
    case Stops(during, _, _, _) => AfterCut(during, fs)
  }

  // ── Filters and prefixes ────────────────────────────────────────────────────

  lemma {:induction false} AtLeastSame(fs: seq<Frame>, head: EntryId)
    ensures AtLeast(AtLeast(fs, head), head) == AtLeast(fs, head)
  {
    AtLeastTwice(fs, head, head);
  }

  lemma UpToPrefix(a: seq<Frame>, b: seq<Frame>, last: EntryId)
    requires a <= b
    ensures UpToId(a, last) <= UpToId(b, last)
  {
    assert b == a + b[|a|..];
    UpToIdConcat(a, b[|a|..], last);
  }

  lemma {:induction false} UpToIsPrefix(fs: seq<Frame>, last: EntryId)
    requires Increasing(fs)
    ensures UpToId(fs, last) <= fs
  {
    if fs != [] {
      if fs[0].id > last {
        UpToIdNone(fs, last);
      } else {
        UpToIsPrefix(fs[1..], last);
        assert fs == [fs[0]] + fs[1..];
      }
    }
  }

  lemma AfterCutPrefix(during: Step, a: seq<Frame>, b: seq<Frame>)
    requires a <= b
    ensures AfterCut(during, a) <= AfterCut(during, b)
  {
    hide UpToId;
    if during.CutTail? {
      UpToPrefix(a, b, during.last);
    }
  }

  /** Cutting removes only from the end. */
  lemma AfterCutShorter(during: Step, fs: seq<Frame>, head: EntryId)
    requires Increasing(fs)
    ensures AtLeast(AfterCut(during, AtLeast(fs, head)), head) <= AtLeast(fs, head)
  {
    hide AtLeast, UpToId, Increasing;
    AtLeastSame(fs, head);
    if during.CutTail? {
      FiltersCommute(AtLeast(fs, head), head, during.last);
      IncreasingFilter(fs, head);
      UpToIsPrefix(AtLeast(fs, head), during.last);
    }
  }

  lemma IncreasingFilter(fs: seq<Frame>, head: EntryId)
    requires Increasing(fs)
    ensures Increasing(AtLeast(fs, head))
  {
    AtLeastIsSuffix(fs, head);
    hide AtLeast;
  }

  lemma IncreasingPrefix(a: seq<Frame>, b: seq<Frame>)
    requires a <= b && Increasing(b)
    ensures Increasing(a)
  {
  }

  /** The safe part of the stored log. */
  lemma SafePart(w: World, body: Body, k: nat)
    requires Inv(w, body) && MAGIC_LEN <= k
    ensures body != [] && Concat(CutLast(body, k)) <= Concat(body) && Increasing(Concat(CutLast(body, k)))
  {
    hide *;
    HasSegments(w, body);
    LostTailsLog(body, k);
    SealedNotEmpty(w, body);
    IncreasingPrefix(Concat(CutLast(body, k)), Concat(body));
  }

  lemma SafeIs(m: Marked, body: Body)
    requires Inv(m.world, body) && MAGIC_LEN <= m.synced
    ensures body != [] && Safe(m) == AtLeast(Concat(CutLast(body, m.synced)), m.world.mem.state.firstEntry)
  {
    InvIsValid(m.world, body);
    HasSegments(m.world, body);
    hide Inv, CutLast, Concat, AtLeast, BodyOf;
  }

  // ── One stage of an operation ───────────────────────────────────────────────

  /** A later store keeps at least what was safe, unless the head moved past it or a cut removed it. */
  ghost predicate KeepsSafe(m: Marked, during: Step, v: World, body: Body) {
    && Inv(v, body)
    && MAGIC_LEN <= MarkAt(m, during, v) <= v.mem.activePos
    && m.world.mem.state.firstEntry <= v.mem.state.firstEntry
    && AtLeast(AfterCut(during, Safe(m)), v.mem.state.firstEntry) <= SafeOf(body, MarkAt(m, during, v), v.mem.state.firstEntry)
  }

  /** The common case: same head, and the safe part of the stored log has not shrunk. */
  lemma SameHeadKeeps(m: Marked, body: Body, during: Step, v: World, bv: Body)
    requires Inv(m.world, body) && MAGIC_LEN <= m.synced && Inv(v, bv)
    requires MAGIC_LEN <= MarkAt(m, during, v) <= v.mem.activePos
    requires v.mem.state.firstEntry == m.world.mem.state.firstEntry
    requires body != [] && bv != [] && Concat(CutLast(body, m.synced)) <= Concat(CutLast(bv, MarkAt(m, during, v)))
    ensures KeepsSafe(m, during, v, bv)
  {
    hide Inv, MarkAt, CutLast, Concat, AtLeast, AfterCut, Increasing;
    var head := v.mem.state.firstEntry;
    SafePart(m.world, body, m.synced);
    SafeIs(m, body);
    AfterCutShorter(during, Concat(CutLast(body, m.synced)), head);
    FilterPrefix(Concat(CutLast(body, m.synced)), Concat(CutLast(bv, MarkAt(m, during, v))), head);
  }

  lemma UnchangedKeeps(m: Marked, body: Body, during: Step, v: World)
    requires Inv(m.world, body) && MAGIC_LEN <= m.synced <= m.world.mem.activePos
    requires Inv(v, body) && !during.CutTail?
    requires v.mem.activeId == m.world.mem.activeId && v.mem.state.firstEntry == m.world.mem.state.firstEntry
    ensures KeepsSafe(m, during, v, body)
  {
    hide Inv, CutLast, Concat, KeepsSafe, Image;
    HasSegments(m.world, body);
    ActiveFile(m.world, body);
    ActiveFile(v, body);
    SameHeadKeeps(m, body, during, v, body);
  }

  lemma WholeWithin(fs: seq<Frame>, more: seq<Frame>, k: nat)
    requires k <= SizeOf(fs)
    ensures (fs + more)[..Whole(fs + more, k)] == fs[..Whole(fs, k)]
  {
    hide *;
    var all := fs + more;
    var n, m := Whole(fs, k), Whole(all, k);
    WholeIsGreatest(fs, k);
    WholeIsGreatest(all, k);
    assert all[..n] == fs[..n];
    if n < m {
      if m <= |fs| {
        TakeOfFirst(fs, more, m);
        SizesAscend(fs, n + 1, m);
      } else {
        SizesAscend(all, |fs| + 1, m);
        assert all[..|fs|] == fs && fs[..|fs|] == fs;
        SizesAscend(all, |fs|, |fs| + 1);
      }
    } else if m < n {
      TakeOfFirst(fs, more, m + 1);
      SizesAscend(fs, m + 1, n);
    }
  }

  lemma TakeOfFirst(fs: seq<Frame>, more: seq<Frame>, n: nat)
    requires n <= |fs|
    ensures (fs + more)[..n] == fs[..n]
  {
  }

  lemma ExtendedSafe(body: Body, batch: seq<Frame>, k: nat)
    requires body != [] && MAGIC_LEN <= k <= |Image(body[|body| - 1])|
    ensures Extended(body, batch) != [] && CutLast(Extended(body, batch), k) == CutLast(body, k)
  {
    var n := |body| - 1;
    assert |Image(body[n])| == MAGIC_LEN + SizeOf(body[n]);
    ExtendedAt(body, batch);
    hide Image, Whole, Extended, SizeOf;
    WholeWithin(body[n], batch, k - MAGIC_LEN);
    assert Extended(body, batch)[..n] == body[..n];
  }

  lemma NothingOf(fs: seq<Frame>)
    ensures Whole(fs, 0) == 0
  {
  }

  lemma BehindRolled(body: Body, batch: seq<Frame>, k: nat)
    requires body != [] && MAGIC_LEN <= k
    ensures Concat(CutLast(body, k)) <= Concat(CutLast(body + [batch], MAGIC_LEN))
  {
    hide Whole, Concat;
    var grown := body + [batch];
    assert grown[..|body|] == body;
    NothingOf(batch);
    LostTailsLog(body, k);
    CutLastEntries(grown, MAGIC_LEN);
    assert Concat(body) + [] == Concat(body);
  }

  lemma NewActive(w: World, body: Body)
    requires Inv(w, body)
    ensures w.mem.nextId != w.mem.activeId
  {
    hide *;
    NextIsFresh(w, body);
    ActiveFile(w, body);
    LiveFile(w.disk, w.mem.state.segments[|body| - 1], body[|body| - 1]);
  }

  lemma LiveFile(d: Disk, seg: Segment, fs: seq<Frame>)
    requires FileAt(d, seg, fs)
    ensures seg.id in d.segments
  {
    hide Image;
  }

  lemma RolledActive(w: World, first: EntryId)
    ensures RolledOver(w, first).mem.activeId == w.mem.nextId && RolledOver(w, first).mem.activePos == MAGIC_LEN
  {
    hide WriteAt, Encode, RollOp, Applied;
  }

  lemma FlushedActive(w: World, batch: seq<Frame>)
    requires batch != []
    ensures Flushed(w, batch).mem.activeId == w.mem.activeId
  {
    hide WriteAt, EncodeAll, SizeOf;
  }

  lemma WrittenActive(w: World, batch: seq<Frame>)
    ensures Written(w, batch).mem.activeId ==
      if batch != [] && w.mem.rolloverPending then w.mem.nextId else w.mem.activeId
  {
    hide RolledOver, Flushed;
    if batch != [] {
      if w.mem.rolloverPending {
        RolledActive(w, batch[0].id);
        FlushedActive(RolledOver(w, batch[0].id), batch);
      } else {
        FlushedActive(w, batch);
      }
    }
  }

  /** The active file is never shorter than its magic. */
  lemma PositionPastMagic(w: World, body: Body)
    requires Inv(w, body)
    ensures MAGIC_LEN <= w.mem.activePos
  {
    ActiveFile(w, body);
    ImageLength(body[|body| - 1]);
    hide Inv, FilesOk, DistinctIds, SizeOf, FileAt, FileOf;
  }

  lemma BatchKeeps(m: Marked, body: Body, fs: seq<Frame>)
    requires MarkOk(m) && Inv(m.world, body) && CanWrite(m.world.mem, fs)
    ensures body != []
    ensures KeepsSafe(m, Batch(fs), Written(m.world, fs), WrittenBody(m.world, body, fs))
  {
    hide *;
    var w := m.world;
    MarkParts(m);
    HasSegments(w, body);
    var v, bv := Written(w, fs), WrittenBody(w, body, fs);
    WriteKeepsInv(w, body, fs);
    WrittenState(w, body, fs);
    WrittenActive(w, fs);
    ActiveFile(w, body);
    PositionPastMagic(v, bv);
    HasSegments(v, bv);
    WrittenBodyIs(w, body, fs);
    if fs == [] {
      UnchangedKeeps(m, body, Batch(fs), w);
    } else if w.mem.rolloverPending {
      NewActive(w, body);
      MarkNew(m, Batch(fs), v);
      BehindRolled(body, fs, m.synced);
      SameHeadKeeps(m, body, Batch(fs), v, bv);
    } else {
      MarkSame(m, Batch(fs), v);
      ExtendedSafe(body, fs, m.synced);
      ActiveFile(v, bv);
      LongerImage(body, fs);
      SameHeadKeeps(m, body, Batch(fs), v, bv);
    }
  }

  lemma LongerImage(body: Body, fs: seq<Frame>)
    requires body != []
    ensures var grown := Extended(body, fs);
      grown != [] && |Image(body[|body| - 1])| <= |Image(grown[|grown| - 1])|
  {
    ExtendedAt(body, fs);
    EncodeAllConcat(body[|body| - 1], fs);
    hide EncodeAll, SizeOf, Extended;
  }

  lemma MarkParts(m: Marked)
    requires MarkOk(m)
    ensures Valid(m.world) && 0 <= MAGIC_LEN <= m.synced <= m.world.mem.activePos
  {
    hide Valid;
  }

  lemma MarkNew(m: Marked, during: Step, v: World)
    requires !during.CutTail? && v.mem.activeId != m.world.mem.activeId
    ensures MarkAt(m, during, v) == MAGIC_LEN
  {
  }

  lemma MarkSame(m: Marked, during: Step, v: World)
    requires !during.CutTail? && v.mem.activeId == m.world.mem.activeId
    ensures MarkAt(m, during, v) == m.synced
  {
  }

  lemma WrittenBodyIs(w: World, body: Body, fs: seq<Frame>)
    requires body != []
    ensures fs == [] ==> WrittenBody(w, body, fs) == body && Written(w, fs) == w
    ensures fs != [] ==> WrittenBody(w, body, fs) == if w.mem.rolloverPending then body + [fs] else Extended(body, fs)
  {
    hide RolledOver, Flushed, Extended;
  }

  lemma RolledKeeps(m: Marked, body: Body, fs: seq<Frame>)
    requires MarkOk(m) && Inv(m.world, body) && CanWrite(m.world.mem, fs) && fs != [] && m.world.mem.rolloverPending
    ensures KeepsSafe(m, Batch(fs), RolledOver(m.world, fs[0].id), body + [[]])
  {
    hide *;
    var w, v := m.world, RolledOver(m.world, fs[0].id);
    MarkParts(m);
    HasSegments(w, body);
    RolledAbs(w, body, fs);
    PlainRoll(w, body, fs);
    RollApplies(w, body, fs[0].id);
    RolledStateIs(w, fs[0].id);
    RolledActive(w, fs[0].id);
    NewActive(w, body);
    MarkNew(m, Batch(fs), v);
    BehindRolled(body, [], m.synced);
    PositionPastMagic(v, body + [[]]);
    SameHeadKeeps(m, body, Batch(fs), v, body + [[]]);
  }

  // ── Moving the head ─────────────────────────────────────────────────────────

  lemma CutLastTail(body: Body, k: nat, s: nat)
    requires k < |body| && MAGIC_LEN <= s
    ensures Concat(CutLast(body, s)) == Concat(body[..k]) + Concat(CutLast(body[k..], s))
  {
    hide Whole, Concat;
    var n := |body| - 1;
    assert body[k..][..n - k] == body[k..n];
    assert body[..n] == body[..k] + body[k..n];
    assert CutLast(body, s) == body[..k] + CutLast(body[k..], s);
    ConcatSplit(body[..k], CutLast(body[k..], s));
  }

  lemma MovedActive(w: World, first: EntryId, pairs: seq<Pair>)
    requires StartTruncated(w, first, pairs).Some?
    ensures var v := StartTruncated(w, first, pairs).value;
      v.mem.activeId == w.mem.activeId && v.mem.activePos == w.mem.activePos
  {
    hide WriteAt, Encode, Applied, Evicted, TruncatedStart;
  }

  lemma DroppedPart(s: State, body: Body, first: EntryId, k: nat, synced: nat)
    requires BodyOk(s, body) && k < |body| && MAGIC_LEN <= synced
    requires forall i :: 0 <= i < k ==> body[i] != [] && LastId(body[i]) < first
    ensures AtLeast(Concat(CutLast(body, synced)), first) == AtLeast(Concat(CutLast(body[k..], synced)), first)
  {
    DroppedBelow(s, body, first, k);
    hide BodyOk, CutLast, Concat, AtLeast, FramesBelow, LastId;
    CutLastTail(body, k, synced);
    assert forall i :: 0 <= i < k ==> body[..k][i] == body[i];
    ConcatBelow(body[..k], first);
    NoneAtLeast(Concat(body[..k]), first);
    AtLeastConcat(Concat(body[..k]), Concat(CutLast(body[k..], synced)), first);
    assert [] + AtLeast(Concat(CutLast(body[k..], synced)), first) == AtLeast(Concat(CutLast(body[k..], synced)), first);
  }

  lemma NoneAtLeast(fs: seq<Frame>, first: EntryId)
    requires FramesBelow(fs, first)
    ensures AtLeast(fs, first) == []
  {
    AtLeastNone(fs, first);
  }

  lemma MoveHeadKeeps(m: Marked, body: Body, first: EntryId, pairs: seq<Pair>) returns (bv: Body)
    requires MarkOk(m) && Inv(m.world, body) && CanTruncateStart(m.world.mem, first, pairs)
    requires first >= m.world.mem.state.firstEntry
    ensures StartTruncated(m.world, first, pairs).Some?
    ensures KeepsSafe(m, MoveHead(first, pairs), StartTruncated(m.world, first, pairs).value, bv)
  {
    hide *;
    var w := m.world;
    var s := w.mem.state;
    MarkParts(m);
    HasSegments(w, body);
    StartKeepsInv(w, body, first, pairs);
    var v, k := StartTruncated(w, first, pairs).value, EvictCount(s.segments, s.seals, first);
    bv := body[k..];
    EvictedSegments(s, body, first);
    MovedActive(w, first, pairs);
    HeadMovedFields(s, first, k, pairs);
    MarkSame(m, MoveHead(first, pairs), v);
    SafeIs(m, body);
    DroppedPart(s, body, first, k, m.synced);
    AtLeastTwice(Concat(CutLast(body, m.synced)), s.firstEntry, first);
    MovedKeeps(m, first, pairs, v, bv);
  }

  lemma MovedKeeps(m: Marked, first: EntryId, pairs: seq<Pair>, v: World, bv: Body)
    requires Inv(v, bv) && bv != [] && v.mem.state.firstEntry == first && m.world.mem.state.firstEntry <= first
    requires MAGIC_LEN <= m.synced <= v.mem.activePos && MarkAt(m, MoveHead(first, pairs), v) == m.synced
    requires AtLeast(Safe(m), first) == AtLeast(Concat(CutLast(bv, m.synced)), first)
    ensures KeepsSafe(m, MoveHead(first, pairs), v, bv)
  {
    hide Inv, AtLeast, Concat, CutLast, Safe, MarkAt;
  }

  // ── Cutting the tail ────────────────────────────────────────────────────────

  lemma AllOfLast(body: Body)
    requires body != []
    ensures |Image(body[|body| - 1])| >= MAGIC_LEN && CutLast(body, |Image(body[|body| - 1])|) == body
  {
    var fs := body[|body| - 1];
    assert fs[..|fs|] == fs;
    ImageLength(fs);
    WholeAtBoundary(fs, |fs|);
    hide Whole, Image, SizeOf;
  }

  /** Until the cut is recorded the store is as before, but its active file may already be shorter. */
  lemma CutUnderway(m: Marked, body: Body, last: EntryId)
    requires MarkOk(m) && Inv(m.world, body) && m.world.mem.state.segments != [] && CanCut(m.world, last)
    ensures KeepsSafe(m, CutTail(last), m.world, body)
  {
    hide *;
    var w := m.world;
    MarkParts(m);
    HasSegments(w, body);
    ActiveFile(w, body);
    UnderwayMark(m, last);
    if ShortensActive(w, last) {
      var j := ShortenedAt(w, body, last);
      var n, offset := |body| - 1, CutOffset(w, last).value;
      CutKeeps(w.mem.state, body, n, j);
      CutAtBoundary(body, j);
      MinIs(m.synced, offset);
      if m.synced <= offset {
        SameKeeps(m, body, last);
      } else {
        ShortenedKeeps(m, body, last, offset);
      }
    } else {
      SameKeeps(m, body, last);
    }
  }

  lemma UnderwayMark(m: Marked, last: EntryId)
    ensures MarkAt(m, CutTail(last), m.world) ==
      if ShortensActive(m.world, last) then Min(m.synced, CutOffset(m.world, last).value) else m.synced
  {
    hide ShortensActive, Min, CutOffset;
  }

  lemma ShortenedAt(w: World, body: Body, last: EntryId) returns (j: nat)
    requires Inv(w, body) && 0 < |body| == |w.mem.state.segments| && CanCut(w, last) && ShortensActive(w, last)
    ensures j < |body[|body| - 1]| && body[|body| - 1][j].id == last
    ensures CutOffset(w, last) == Some(|Image(body[|body| - 1][..j + 1])|)
  {
    hide Inv, Image, TargetIndex, CutOffset, NoDrift, CanTruncateEnd, IsEndNoop;
    CutOffsetIs(w, body, last);
    var fs := body[|body| - 1];
    j := IndexOfId(fs, last).value;
    ExactEnd(w, fs, j, last);
  }

  lemma CutAtBoundary(body: Body, j: nat)
    requires body != [] && j < |body[|body| - 1]|
    ensures var k := |Image(body[|body| - 1][..j + 1])|;
      && MAGIC_LEN <= k <= |Image(body[|body| - 1])|
      && CutLast(body, k) == CutBody(body, |body| - 1, j)
  {
    var fs := body[|body| - 1];
    ImageLength(fs[..j + 1]);
    ImageTake(fs, j + 1);
    WholeAtBoundary(fs, j + 1);
    hide Whole, Image, SizeOf, SetLen;
  }

  lemma SameKeeps(m: Marked, body: Body, last: EntryId)
    requires MarkOk(m) && Inv(m.world, body) && MarkAt(m, CutTail(last), m.world) == m.synced
    ensures KeepsSafe(m, CutTail(last), m.world, body)
  {
    hide *;
    MarkParts(m);
    HasSegments(m.world, body);
    SameHeadKeeps(m, body, CutTail(last), m.world, body);
  }

  lemma ShortenedKeeps(m: Marked, body: Body, last: EntryId, offset: nat)
    requires MarkOk(m) && Inv(m.world, body) && MarkAt(m, CutTail(last), m.world) == offset
    requires body != [] && MAGIC_LEN <= offset <= m.world.mem.activePos
    requires Concat(CutLast(body, offset)) == UpToId(Concat(body), last)
    ensures KeepsSafe(m, CutTail(last), m.world, body)
  {
    hide *;
    MarkParts(m);
    CutSafe(m, body, last, m.world, body);
  }

  lemma CutTailKeeps(m: Marked, body: Body, last: EntryId) returns (bv: Body)
    requires MarkOk(m) && Inv(m.world, body) && m.world.mem.state.segments != [] && CanCut(m.world, last)
    ensures KeepsSafe(m, CutTail(last), EndTruncated(m.world, last).GetOr(m.world), bv)
  {
    hide *;
    var w := m.world;
    MarkParts(m);
    CanCutParts(w, last);
    TruncateEndExact(w, body, last);
    CutFailsIff(w, body, last);
    bv := body;
    if IsEndNoop(w.mem, last) {
      GetOrSame(w, last);
      CutUnderway(m, body, last);
    } else if !Stored(body, last) {
      GetOrNone(w, last);
      CutUnderway(m, body, last);
    } else {
      StoredSomewhere(body, last);
      var i: nat, j: nat :| i < |body| && j < |body[i]| && body[i][j].id == last;
      HasSegments(w, body);
      TargetHolds(w.mem.state, body, last, i, j);
      ExactCut(w, body, i, j);
      GetOrSome(w, last);
      bv := CutBody(body, i, j);
      var v := EndTruncated(w, last).value;
      RolledBackKeeps(w.mem.state, i);
      CutKeeps(w.mem.state, body, i, j);
      ActiveFile(v, bv);
      AllOfLast(bv);
      RecordedMark(m, last, v);
      CutSafe(m, body, last, v, bv);
    }
  }

  lemma RecordedMark(m: Marked, last: EntryId, v: World)
    requires !IsEndNoop(m.world.mem, last) && v.mem.lastEntry == Some(last)
    ensures MarkAt(m, CutTail(last), v) == v.mem.activePos
  {
    assert v != m.world;
  }

  lemma CutSafe(m: Marked, body: Body, last: EntryId, v: World, bv: Body)
    requires Inv(m.world, body) && MAGIC_LEN <= m.synced && Inv(v, bv) && bv != []
    requires v.mem.state.firstEntry == m.world.mem.state.firstEntry
    requires MAGIC_LEN <= MarkAt(m, CutTail(last), v) <= v.mem.activePos
    requires Concat(CutLast(bv, MarkAt(m, CutTail(last), v))) == UpToId(Concat(body), last)
    ensures KeepsSafe(m, CutTail(last), v, bv)
  {
    hide *;
    var head := v.mem.state.firstEntry;
    SafePart(m.world, body, m.synced);
    SafeIs(m, body);
    SafeOfIs(bv, MarkAt(m, CutTail(last), v), head);
    var safe := Concat(CutLast(body, m.synced));
    AfterCutOf(last, AtLeast(safe, head));
    FiltersCommute(safe, head, last);
    UpToPrefix(safe, Concat(body), last);
    FilterPrefix(UpToId(safe, last), UpToId(Concat(body), last), head);
    AtLeastSame(UpToId(safe, last), head);
    KeepsFromParts(m, CutTail(last), v, bv);
  }

  lemma AfterCutOf(last: EntryId, fs: seq<Frame>)
    ensures AfterCut(CutTail(last), fs) == UpToId(fs, last)
  {
  }

  lemma KeepsFromParts(m: Marked, during: Step, v: World, body: Body)
    requires Inv(v, body) && MAGIC_LEN <= MarkAt(m, during, v) <= v.mem.activePos
    requires m.world.mem.state.firstEntry <= v.mem.state.firstEntry
    requires AtLeast(AfterCut(during, Safe(m)), v.mem.state.firstEntry) <=
             SafeOf(body, MarkAt(m, during, v), v.mem.state.firstEntry)
    ensures KeepsSafe(m, during, v, body)
  {
    hide Inv, MarkAt, Safe, SafeOf, AfterCut, AtLeast;
  }

  // ── Deletion, metadata and reopening ────────────────────────────────────────

  lemma {:induction false} DeletedActive(w: World, ids: seq<SegmentId>)
    ensures var v := Deleted(w, ids);
      && v.mem.activeId == w.mem.activeId
    decreases |ids|
  {
    hide WriteAt, Encode, Applied;
    if ids != [] {
      DeletedActive(DeletedOne(w, ids[0]), ids[1..]);
    }
  }

  lemma DeletedHead(w: World, body: Body, k: nat)
    requires Inv(w, body) && k <= |HASH_ORDER(w.mem.state.dead)|
    ensures Inv(DeletedFirst(w, k), body)
    ensures var v := DeletedFirst(w, k);
      v.mem.activeId == w.mem.activeId && v.mem.state.firstEntry == w.mem.state.firstEntry
  {
    DeletedAbs(w, body, k);
    DeletedActive(w, HASH_ORDER(w.mem.state.dead)[..k]);
    hide Inv, Deleted, Visible, Entries;
  }

  lemma AllDeleted(w: World)
    ensures DeadDeleted(w) == DeletedFirst(w, |HASH_ORDER(w.mem.state.dead)|)
  {
    var ids := HASH_ORDER(w.mem.state.dead);
    assert ids[..|ids|] == ids;
    hide Deleted;
  }

  lemma MetadataActive(w: World, pairs: seq<Pair>)
    ensures MetadataWritten(w, pairs).mem.activeId == w.mem.activeId
  {
    hide WriteAt, Encode, Applied;
  }

  lemma ReopenedIs(trigger: nat, w: World, body: Body)
    requires Inv(w, body)
    ensures var v := Opened(trigger, w.disk, w);
      Inv(v, body) && v.mem.activeId == w.mem.activeId && v.mem.state.firstEntry == w.mem.state.firstEntry
  {
    ReopenIsIdentity(w, body, trigger);
    hide Inv, Open, Entries;
  }

  // ── Every stage ─────────────────────────────────────────────────────────────

  lemma PlainKeeps(m: Marked, body: Body, step: Step) returns (bv: Body)
    requires MarkOk(m) && Inv(m.world, body) && IsPlain(step) && Enabled(m.world, step)
    ensures KeepsSafe(m, step, Exec(m.world, step), bv)
  {
    hide Inv, Valid, KeepsSafe, Opened, CanWrite, CanTruncateStart, CanCut, Fits, Written, EndTruncated, DeadDeleted,
      MetadataWritten, StartTruncated, MarkAt, DeletedFirst, WrittenBody;
    var w := m.world;
    bv := body;
    match step
    case Batch(fs) =>
      BatchKeeps(m, body, fs);
      bv := WrittenBody(w, body, fs);
    case MoveHead(first, pairs) =>
      MoveHeadRefines(w, body, first, pairs);
      if first < w.mem.state.firstEntry {
        UnchangedKeeps(m, body, step, w);
      } else {
        bv := MoveHeadKeeps(m, body, first, pairs);
      }
    case CutTail(last) => bv := CutTailKeeps(m, body, last);
    case DeleteDead =>
      AllDeleted(w);
      DeletedHead(w, body, |HASH_ORDER(w.mem.state.dead)|);
      UnchangedKeeps(m, body, step, DeadDeleted(w));
    case WriteMetadata(pairs) =>
      MetadataKeepsInv(w, body, pairs);
      MetadataActive(w, pairs);
      UnchangedKeeps(m, body, step, MetadataWritten(w, pairs));
    case Reopen(trigger) =>
      ReopenedIs(trigger, w, body);
      UnchangedKeeps(m, body, step, Opened(trigger, w.disk, w));
  }

  lemma StageKeeps(m: Marked, body: Body, during: Step, v: World) returns (bv: Body)
    requires MarkOk(m) && Inv(m.world, body) && IsPlain(during) && Enabled(m.world, during)
    requires StageOf(m.world, during, v)
    ensures KeepsSafe(m, during, v, bv)
  {
    hide Inv, Valid, KeepsSafe, Exec, CanWrite, CanTruncateStart, CanCut, Fits, RolledOver, MarkAt, DeletedFirst;
    var w := m.world;
    bv := body;
    if v == w {
      if during.CutTail? {
        CutUnderway(m, body, during.last);
      } else {
        UnchangedKeeps(m, body, during, w);
      }
    } else if v == Exec(w, during) {
      bv := PlainKeeps(m, body, during);
    } else if during.Batch? {
      RolledKeeps(m, body, during.frames);
      bv := body + [[]];
    } else {
      var k :| 0 <= k <= |HASH_ORDER(w.mem.state.dead)| && v == DeletedFirst(w, k);
      DeletedHead(w, body, k);
      UnchangedKeeps(m, body, during, v);
    }
  }

  // ── The power failure itself ────────────────────────────────────────────────

  lemma WholeGrows(fs: seq<Frame>, k: nat, l: nat)
    requires k <= l
    ensures Whole(fs, k) <= Whole(fs, l)
  {
    hide *;
    var n, m := Whole(fs, k), Whole(fs, l);
    WholeIsGreatest(fs, k);
    WholeIsGreatest(fs, l);
    if m < n {
      SizesAscend(fs, m + 1, n);
    }
  }

  lemma OpensCut(trigger: nat, w: World, v: World, bv: Body, left: Disk)
    requires Inv(v, bv) && Loses(v, left)
    ensures bv != [] && MAGIC_LEN <= Left(v, left)
    ensures var w' := Opened(trigger, left, w);
      Inv(w', CutLast(bv, Left(v, left))) && w'.mem.state.firstEntry == v.mem.state.firstEntry
  {
    hide *;
    HasSegments(v, bv);
    LosesParts(v, left);
    LostTailsRecoverable(v, bv, left);
    OpenRecovers(trigger, left, v.mem.state, CutLast(bv, Left(v, left)));
    OpenedIs(trigger, left, w);
    ReconciledHead(left, v.mem.state);
  }

  lemma OpenedIs(trigger: nat, left: Disk, w: World)
    requires Open(trigger, left).result.Success?
    ensures Opened(trigger, left, w) == World(Open(trigger, left).result.value, Open(trigger, left).disk)
  {
    hide Open;
  }

  lemma ReconciledHead(d: Disk, s: State)
    ensures Reconciled(d, s).firstEntry == s.firstEntry
  {
  }

  /** Cutting twice is cutting once, at the shorter length. */
  lemma CutTwice(body: Body, k: nat, l: nat)
    requires body != [] && MAGIC_LEN <= k <= l
    ensures var cut := CutLast(body, l);
      cut != [] && CutLast(cut, Min(k, |Image(cut[|cut| - 1])|)) == CutLast(body, k)
  {
    var n := |body| - 1;
    var fs, cut := body[n], CutLast(body, l);
    var m := Whole(fs, l - MAGIC_LEN);
    assert cut[..n] == body[..n] && cut[n] == fs[..m];
    assert |Image(fs[..m])| == MAGIC_LEN + SizeOf(fs[..m]);
    hide Image, Whole, SizeOf;
    CutTwiceFrames(fs, k - MAGIC_LEN, l - MAGIC_LEN);
  }

  lemma CutTwiceFrames(fs: seq<Frame>, k: nat, l: nat)
    requires k <= l
    ensures var m := Whole(fs, l);
      && fs[..m][..Whole(fs[..m], Min(k, SizeOf(fs[..m])))] == fs[..Whole(fs, k)]
  {
    hide Whole, SizeOf;
    var m := Whole(fs, l);
    var kept, size := fs[..m], SizeOf(fs[..m]);
    assert fs == kept + fs[m..];
    if k <= size {
      WholeWithin(kept, fs[m..], k);
    } else {
      WholeGrows(fs, k, l);
      AllWhole(kept);
      WholeWithin(kept, fs[m..], size);
      WholeGrows(fs, size, k);
      assert kept[..m] == kept;
    }
  }

  lemma AllWhole(fs: seq<Frame>)
    ensures Whole(fs, SizeOf(fs)) == |fs|
  {
    hide *;
    assert fs[..|fs|] == fs;
    ImageLength(fs);
    WholeAtBoundary(fs, |fs|);
  }

  lemma StopKeeps(m: Marked, body: Body, e: Event)
    requires MarkOk(m) && Inv(m.world, body) && e.Stops? && Allowed(m, e)
    ensures MarkOk(Next(m, e)) && m.world.mem.state.firstEntry <= Next(m, e).world.mem.state.firstEntry
    ensures AtLeast(NotCut(e, Safe(m)), Next(m, e).world.mem.state.firstEntry) <= Safe(Next(m, e))
  {
    hide Inv, Valid, Opened, KeepsSafe, StageOf, Loses, MarkAt, Enabled, IsPlain, Safe, AfterCut, SafeOf, AtLeast,
      CutLast, Left, Image, Min;
    var v, w' := e.stage, Opened(e.trigger, e.left, m.world);
    var k, l, head := MarkAt(m, e.during, v), Left(v, e.left), v.mem.state.firstEntry;
    var bv := StageKeeps(m, body, e.during, v);
    KeepsParts(m, e.during, v, bv);
    OpensCut(e.trigger, m.world, v, bv, e.left);
    var cut := CutLast(bv, l);
    CutTwice(bv, k, l);
    InvIsValid(w', cut);
    ActiveFile(w', cut);
    PositionPastMagic(w', cut);
    MinIs(k, w'.mem.activePos);
    SafeIs(Next(m, e), cut);
    SafeOfIs(bv, k, head);
  }

  lemma MinIs(a: nat, b: nat)
    ensures Min(a, b) <= a && Min(a, b) <= b && (Min(a, b) == a || Min(a, b) == b)
  {
  }

  lemma SafeOfIs(body: Body, k: nat, head: EntryId)
    requires body != [] && MAGIC_LEN <= k
    ensures SafeOf(body, k, head) == AtLeast(Concat(CutLast(body, k)), head)
  {
  }

  lemma KeepsParts(m: Marked, during: Step, v: World, body: Body)
    requires KeepsSafe(m, during, v, body)
    ensures Inv(v, body) && MAGIC_LEN <= MarkAt(m, during, v) <= v.mem.activePos
    ensures m.world.mem.state.firstEntry <= v.mem.state.firstEntry
    ensures AtLeast(AfterCut(during, Safe(m)), v.mem.state.firstEntry) <= SafeOf(body, MarkAt(m, during, v), v.mem.state.firstEntry)
  {
    hide Inv, MarkAt, Safe, SafeOf, AfterCut, AtLeast;
  }

  // ── One event ───────────────────────────────────────────────────────────────

  lemma SafeIsVisible(m: Marked, body: Body)
    requires MarkOk(m) && Inv(m.world, body)
    ensures Safe(m) <= Visible(m.world)
    ensures m.synced == m.world.mem.activePos ==> Safe(m) == Visible(m.world)
  {
    hide *;
    MarkParts(m);
    InvIsValid(m.world, body);
    EntriesOf(m.world, body);
    SafeIs(m, body);
    SafePart(m.world, body, m.synced);
    var head := m.world.mem.state.firstEntry;
    FilterPrefix(Concat(CutLast(body, m.synced)), Concat(body), head);
    VisibleIs(m.world);
    ActiveFile(m.world, body);
    AllOfLast(body);
  }

  lemma VisibleIs(w: World)
    ensures Visible(w) == AtLeast(Entries(w), w.mem.state.firstEntry)
  {
  }

  /** Whatever happens next, what is safe stays safe, except for entries that the head passes or a cut removes. */
  lemma EventKeeps(m: Marked, e: Event)
    requires MarkOk(m) && Allowed(m, e)
    ensures var m' := Next(m, e);
      && MarkOk(m') && m.world.mem.state.firstEntry <= m'.world.mem.state.firstEntry
      && AtLeast(NotCut(e, Safe(m)), m'.world.mem.state.firstEntry) <= Safe(m')
  {
    hide Inv, Valid, Exec, KeepsSafe, Enabled, IsPlain, MarkAt, Safe, SafeOf, AfterCut, AtLeast, BodyOf;
    var body := BodyOf(m.world.disk, m.world.mem.state.segments);
    ValidIsInv(m.world);
    match e {
      case Syncs => SyncKeeps(m, body);
      case Does(step) =>
        var bv := PlainKeeps(m, body, step);
        KeepsParts(m, step, Exec(m.world, step), bv);
        InvIsValid(Exec(m.world, step), bv);
        SafeIsOf(Next(m, e), bv);
      case Stops(_, _, _, _) => StopKeeps(m, body, e);
    }
  }

  lemma SafeIsOf(m: Marked, body: Body)
    requires BodyOf(m.world.disk, m.world.mem.state.segments) == body
    ensures Safe(m) == SafeOf(body, m.synced, m.world.mem.state.firstEntry)
  {
    hide SafeOf, BodyOf;
  }

  lemma SyncKeeps(m: Marked, body: Body)
    requires MarkOk(m) && Inv(m.world, body)
    ensures var m' := Next(m, Syncs);
      && MarkOk(m') && Safe(m') == Visible(m.world)
      && AtLeast(Safe(m), m.world.mem.state.firstEntry) <= Safe(m')
  {
    hide Inv, Valid, Visible, Safe, AtLeast;
    SafeIsVisible(m, body);
    SafeIsVisible(Next(m, Syncs), body);
    SafeFiltered(m, body);
  }

  lemma SafeFiltered(m: Marked, body: Body)
    requires MarkOk(m) && Inv(m.world, body)
    ensures AtLeast(Safe(m), m.world.mem.state.firstEntry) == Safe(m)
  {
    hide *;
    MarkParts(m);
    SafeIs(m, body);
    AtLeastSame(Concat(CutLast(body, m.synced)), m.world.mem.state.firstEntry);
  }

  // ── Whole runs ──────────────────────────────────────────────────────────────

  ghost predicate AllAllowed(m: Marked, es: seq<Event>)
    decreases |es|
  {
    es == [] || (Allowed(m, es[0]) && AllAllowed(Next(m, es[0]), es[1..]))
  }

  function After(m: Marked, es: seq<Event>): Marked
    decreases |es|
  {
    if es == [] then m else After(Next(m, es[0]), es[1..])
  }

  /** What the cuts of a run leave of some entries. */
  function NeverCut(es: seq<Event>, fs: seq<Frame>): seq<Frame>
    decreases |es|
  {
    if es == [] then fs else NeverCut(es[1..], NotCut(es[0], fs))
  }

  lemma NotCutPrefix(e: Event, a: seq<Frame>, b: seq<Frame>)
    requires a <= b
    ensures NotCut(e, a) <= NotCut(e, b)
  {
    hide AfterCut;
    match e
    case Syncs =>
    case Does(step) => AfterCutPrefix(step, a, b);
    case Stops(during, _, _, _) => AfterCutPrefix(during, a, b);
  }

  lemma NotCutCommutes(e: Event, fs: seq<Frame>, head: EntryId)
    ensures NotCut(e, AtLeast(fs, head)) == AtLeast(NotCut(e, fs), head)
  {
    hide AtLeast, UpToId;
    match e
    case Does(CutTail(last)) => FiltersCommute(fs, head, last);
    case Stops(CutTail(last), _, _, _) => FiltersCommute(fs, head, last);
    case _ =>
  }

  lemma {:induction false} NeverCutPrefix(es: seq<Event>, a: seq<Frame>, b: seq<Frame>)
    requires a <= b
    ensures NeverCut(es, a) <= NeverCut(es, b)
    decreases |es|
  {
    hide NotCut;
    if es != [] {
      NotCutPrefix(es[0], a, b);
      NeverCutPrefix(es[1..], NotCut(es[0], a), NotCut(es[0], b));
    }
  }

  lemma {:induction false} NeverCutCommutes(es: seq<Event>, fs: seq<Frame>, head: EntryId)
    ensures NeverCut(es, AtLeast(fs, head)) == AtLeast(NeverCut(es, fs), head)
    decreases |es|
  {
    hide NotCut, AtLeast;
    if es != [] {
      NotCutCommutes(es[0], fs, head);
      NeverCutCommutes(es[1..], NotCut(es[0], fs), head);
    }
  }

  /** Over any run, the entries that are safe at its start are there at its end, except those that the head has passed
      or a cut has removed. */
  lemma {:induction false} SafeSurvives(m: Marked, es: seq<Event>)
    requires MarkOk(m) && AllAllowed(m, es)
    ensures var last := After(m, es);
      && MarkOk(last) && m.world.mem.state.firstEntry <= last.world.mem.state.firstEntry
      && AtLeast(NeverCut(es, Safe(m)), last.world.mem.state.firstEntry) <= Safe(last)
      && Safe(last) <= Visible(last.world)
    decreases |es|
  {
    hide MarkOk, Allowed, Next, Safe, AtLeast, NotCut, Visible;
    var last := After(m, es);
    if es == [] {
      SafeNow(m);
    } else {
      var m1 := Next(m, es[0]);
      EventKeeps(m, es[0]);
      SafeSurvives(m1, es[1..]);
      var kept, h1, h := NotCut(es[0], Safe(m)), m1.world.mem.state.firstEntry, last.world.mem.state.firstEntry;
      NeverCutPrefix(es[1..], AtLeast(kept, h1), Safe(m1));
      NeverCutCommutes(es[1..], kept, h1);
      FilterPrefix(NeverCut(es[1..], AtLeast(kept, h1)), NeverCut(es[1..], Safe(m1)), h);
      AtLeastTwice(NeverCut(es[1..], kept), h1, h);
    }
  }

  lemma SafeNow(m: Marked)
    requires MarkOk(m)
    ensures AtLeast(Safe(m), m.world.mem.state.firstEntry) <= Safe(m) && Safe(m) <= Visible(m.world)
  {
    hide *;
    MarkParts(m);
    var body := BodyOf(m.world.disk, m.world.mem.state.segments);
    ValidIsInv(m.world);
    SafeFiltered(m, body);
    SafeIsVisible(m, body);
  }

  /** Every synced entry survives.  After a sync, let anything happen: batches, rollovers, truncations, reopenings, and
      power failures between and inside operations.  All entries that were visible at the sync are still there, in
      order, except those that the head has passed or a cut has removed. */
  lemma SyncedSurvives(m: Marked, es: seq<Event>)
    requires MarkOk(m) && AllAllowed(Next(m, Syncs), es)
    ensures var last := After(Next(m, Syncs), es);
      && Valid(last.world)
      && AtLeast(NeverCut(es, Visible(m.world)), last.world.mem.state.firstEntry) <= Visible(last.world)
  {
    hide *;
    var synced := Next(m, Syncs);
    MarkParts(m);
    ValidIsInv(m.world);
    SyncKeeps(m, BodyOf(m.world.disk, m.world.mem.state.segments));
    SafeSurvives(synced, es);
    MarkParts(After(synced, es));
  }
}
