/** Whole runs: from a fresh store, any sequence of operations, reopenings, crashes and power failures keeps the
    invariant, and what a caller sees follows a plain ordered log with a head and metadata. */
module Runs {
  import opened Basics
  import opened Frames
  import opened State
  import opened StateLaws
  import opened Codec
  import opened Disk
  import opened Log
  import opened World
  import opened Invariant
  import opened Writing
  import opened TruncatingStart
  import opened TruncatingEnd
  import opened Housekeeping
  import opened Recovery
  import opened Reopening
  import opened Mending
  import opened Crashes
  import opened CrashSteps
  import opened Reading

  datatype Step =
    | Batch(frames: seq<Frame>)
    | MoveHead(first: EntryId, pairs: seq<Pair>)
    | CutTail(last: EntryId)
    | DeleteDead
    | WriteMetadata(pairs: seq<Pair>)
    | Reopen(trigger: nat)
    | Crash(during: Step, left: Disk, trigger: nat)
    | LosePower(during: Step, left: Disk, trigger: nat)

  // ── The abstract log ────────────────────────────────────────────────────────

  datatype Abstract = Abstract(log: seq<Frame>, head: EntryId, meta: seq<Pair>)

  function Abs(w: World): Abstract {
    Abstract(Visible(w), w.mem.state.firstEntry, w.mem.state.meta)
  }

  ghost predicate HasId(log: seq<Frame>, id: EntryId) {
    exists i :: 0 <= i < |log| && log[i].id == id
  }

  /** A crash inside a batch keeps a prefix of it; inside any other operation it is all or nothing.  A power failure
      can also take entries off the end, of what was there before the operation or of what it was making. */
  ghost predicate AbsStep(a: Abstract, step: Step, b: Abstract) {
    match step
    case Batch(fs) => b == a.(log := a.log + AtLeast(fs, a.head))
    case MoveHead(first, pairs) =>
      if first < a.head then b == a else b == Abstract(AtLeast(a.log, first), first, Merge(a.meta, pairs))
    case CutTail(last) => CutAbs(a, last, b)
    case DeleteDead => b == a
    case WriteMetadata(pairs) => b == a.(meta := Merge(a.meta, pairs))
    case Reopen(_) => b == a
    case Crash(during, _, _) => (during.Batch? && PartWritten(a, during.frames, b)) || b == a || AbsStep(a, during, b)
    case LosePower(during, _, _) => exists c :: (c == a || AbsStep(a, during, c)) && LostFrom(c, b)
  }

  ghost predicate LostFrom(a: Abstract, b: Abstract) {
    b.head == a.head && b.meta == a.meta && b.log <= a.log
  }

  /** Cutting at a visible id keeps exactly the entries up to it.  An id that is not visible changes nothing,
      unless it is that of a stored entry below the head: then nothing visible is left. */
  ghost predicate CutAbs(a: Abstract, last: EntryId, b: Abstract) {
    if HasId(a.log, last) then b == a.(log := UpToId(a.log, last))
    else b == a || (last < a.head && b == a.(log := []))
  }

  ghost predicate PartWritten(a: Abstract, fs: seq<Frame>, b: Abstract) {
    exists m: nat :: m <= |fs| && WrittenTo(a, fs, m, b)
  }

  ghost predicate WrittenTo(a: Abstract, fs: seq<Frame>, m: nat, b: Abstract)
    requires m <= |fs|
  {
    b == a.(log := a.log + AtLeast(fs[..m], a.head))
  }

  // ── The concrete steps ──────────────────────────────────────────────────────

  /** What the original asks of its callers, integer widths included. */
  ghost predicate Enabled(w: World, step: Step) {
    match step
    case Batch(fs) => CanWrite(w.mem, fs)
    case MoveHead(first, pairs) => CanTruncateStart(w.mem, first, pairs)
    case CutTail(last) => w.mem.state.segments != [] && CanCut(w, last)
    case DeleteDead => true
    case WriteMetadata(pairs) => Fits(ManifestOp(Metadata, pairs))
    case Reopen(_) => true
    case Crash(during, left, _) =>
      && IsPlain(during) && Enabled(w, during)
      && (during.CutTail? ==> w.mem.state.segments != [] && CutsActive(w, during.last))
      && CrashOf(w.disk, DiskSteps(w, during), left)
    case LosePower(during, left, _) =>
      && IsPlain(during) && Enabled(w, during)
      && exists v :: StageOf(w, during, v) && Loses(v, left)
  }

  predicate IsPlain(step: Step) {
    !step.Crash? && !step.LosePower?
  }

  /** The stores that an operation passes through: before it, after it, and in between when it has several records. */
  ghost predicate StageOf(w: World, during: Step, v: World) {
    || v == w
    || v == Exec(w, during)
    || (during.Batch? && during.frames != [] && w.mem.rolloverPending && v == RolledOver(w, during.frames[0].id))
    || (during.DeleteDead? && exists k :: 0 <= k <= |HASH_ORDER(w.mem.state.dead)| && v == DeletedFirst(w, k))
  }

  function DeletedFirst(w: World, k: nat): World
    requires k <= |HASH_ORDER(w.mem.state.dead)|
  {
    Deleted(w, HASH_ORDER(w.mem.state.dead)[..k])
  }

  /** The power fails on this store, in a way that it opens again: see `PowerLoss`. */
  ghost predicate Loses(v: World, left: Disk) {
    TailsLost(v, left) && SealedWhole(v, left)
  }

  /** The cut is exact: nothing to do, an error, or a scan that starts without drift. */
  ghost predicate CanCut(w: World, last: EntryId)
    requires w.mem.state.segments != []
  {
    CanTruncateEnd(w, last) && (IsEndNoop(w.mem, last) || CutOffset(w, last).None? || NoDrift(w, last))
  }

  ghost predicate CutsActive(w: World, last: EntryId)
    requires w.mem.state.segments != []
  {
    IsEndNoop(w.mem, last) || CutOffset(w, last).None? || TargetIndex(w.mem.state.segments, last) == |w.mem.state.segments| - 1
  }

  function Opened(trigger: nat, d: Disk, w: World): World {
    var r := Open(trigger, d);
    if r.result.Success? then World(r.result.value, r.disk) else w
  }

  /** Opening succeeds, with a valid store. */
  ghost predicate StartsAgain(trigger: nat, d: Disk, w: World) {
    Open(trigger, d).result.Success? && Valid(Opened(trigger, d, w))
  }

  predicate Restarts(step: Step) {
    step.Reopen? || step.Crash? || step.LosePower?
  }

  /** The disk that the next open finds. */
  function FoundDisk(w: World, step: Step): Disk
    requires Restarts(step)
  {
    if step.Reopen? then w.disk else step.left
  }

  function Exec(w: World, step: Step): World {
    match step
    case Batch(fs) => Written(w, fs)
    case MoveHead(first, pairs) => StartTruncated(w, first, pairs).GetOr(w)
    case CutTail(last) => if w.mem.state.segments == [] then w else EndTruncated(w, last).GetOr(w)
    case DeleteDead => DeadDeleted(w)
    case WriteMetadata(pairs) => MetadataWritten(w, pairs)
    case Reopen(trigger) => Opened(trigger, w.disk, w)
    case Crash(_, left, trigger) => Opened(trigger, left, w)
    case LosePower(_, left, trigger) => Opened(trigger, left, w)
  }

  function DiskSteps(w: World, step: Step): seq<Disk> {
    match step
    case Batch(fs) => WriteSteps(w, fs)
    case MoveHead(first, pairs) =>
      var r := StartTruncated(w, first, pairs);
      if r.None? then [] else [r.value.disk]
    case CutTail(last) => if w.mem.state.segments == [] then [] else EndSteps(w, last)
    case DeleteDead => DeleteSteps(w, HASH_ORDER(w.mem.state.dead))
    case WriteMetadata(pairs) => [MetadataWritten(w, pairs).disk]
    case _ => []
  }

  ghost predicate Possible(w: World, steps: seq<Step>)
    decreases |steps|
  {
    steps == [] || (Enabled(w, steps[0]) && Possible(Exec(w, steps[0]), steps[1..]))
  }

  function Final(w: World, steps: seq<Step>): World
    decreases |steps|
  {
    if steps == [] then w else Final(Exec(w, steps[0]), steps[1..])
  }

  ghost predicate AbsRun(a: Abstract, steps: seq<Step>, b: Abstract)
    decreases |steps|
  {
    if steps == [] then a == b else exists c :: AbsStep(a, steps[0], c) && AbsRun(c, steps[1..], b)
  }

  // ── One step ────────────────────────────────────────────────────────────────

  lemma StateKept(w: World, w': World)
    requires w'.mem.state.firstEntry == w.mem.state.firstEntry && w'.mem.state.meta == w.mem.state.meta
    requires Entries(w') == Entries(w)
    ensures Abs(w') == Abs(w)
  {
    hide AtLeast, Entries;
  }

  lemma WrittenState(w: World, body: Body, fs: seq<Frame>)
    requires Inv(w, body) && CanWrite(w.mem, fs)
    ensures var s := Written(w, fs).mem.state; s.firstEntry == w.mem.state.firstEntry && s.meta == w.mem.state.meta
  {
    hide *;
    if fs != [] && w.mem.rolloverPending {
      PlainRoll(w, body, fs);
      RollApplies(w, body, fs[0].id);
      RolledStateIs(w, fs[0].id);
      FlushedState(RolledOver(w, fs[0].id), fs);
      WrittenIs(w, fs);
    } else {
      WrittenPlainly(w, fs);
    }
  }

  lemma RolledStateIs(w: World, first: EntryId)
    requires Applied(w.mem.state, RollOp(w.mem, first)) == Success(RolledState(w.mem, first))
    ensures var s := RolledOver(w, first).mem.state; s.firstEntry == w.mem.state.firstEntry && s.meta == w.mem.state.meta
  {
    hide Applied, WriteAt, Encode, RollOp;
  }

  lemma WrittenIs(w: World, fs: seq<Frame>)
    requires fs != [] && w.mem.rolloverPending
    ensures Written(w, fs) == Flushed(RolledOver(w, fs[0].id), fs)
  {
    hide Flushed, RolledOver;
  }

  lemma WrittenPlainly(w: World, fs: seq<Frame>)
    requires fs == [] || !w.mem.rolloverPending
    ensures Written(w, fs).mem.state == w.mem.state
  {
    hide WriteAt, EncodeAll, SizeOf;
  }

  lemma BatchRefines(w: World, body: Body, fs: seq<Frame>)
    requires Inv(w, body) && CanWrite(w.mem, fs)
    ensures Valid(Written(w, fs)) && Abs(Written(w, fs)) == Abs(w).(log := Abs(w).log + AtLeast(fs, w.mem.state.firstEntry))
  {
    hide *;
    HasSegments(w, body);
    var w', body' := Written(w, fs), WrittenBody(w, body, fs);
    WriteKeepsInv(w, body, fs);
    WriteAppends(w, body, fs);
    WrittenState(w, body, fs);
    InvIsValid(w', body');
    InvIsValid(w, body);
    EntriesOf(w, body);
    EntriesOf(w', body');
    AppendedAbs(w, w', fs);
  }

  lemma AppendedAbs(w: World, w': World, fs: seq<Frame>)
    requires w'.mem.state.firstEntry == w.mem.state.firstEntry && w'.mem.state.meta == w.mem.state.meta
    requires Entries(w') == Entries(w) + fs
    ensures Abs(w') == Abs(w).(log := Abs(w).log + AtLeast(fs, w.mem.state.firstEntry))
  {
    hide AtLeast, Entries;
    AtLeastConcat(Entries(w), fs, w.mem.state.firstEntry);
  }

  lemma MoveHeadRefines(w: World, body: Body, first: EntryId, pairs: seq<Pair>)
    requires Inv(w, body) && CanTruncateStart(w.mem, first, pairs)
    ensures StartTruncated(w, first, pairs).None? <==> first < w.mem.state.firstEntry
    ensures first >= w.mem.state.firstEntry ==>
      var w' := StartTruncated(w, first, pairs).value;
      Valid(w') && Abs(w') == Abstract(AtLeast(Abs(w).log, first), first, Merge(Abs(w).meta, pairs))
  {
    hide *;
    StartKeepsInv(w, body, first, pairs);
    if first >= w.mem.state.firstEntry {
      var k, w' := EvictCount(w.mem.state.segments, w.mem.state.seals, first), StartTruncated(w, first, pairs).value;
      HasSegments(w, body);
      InvIsValid(w, body);
      InvIsValid(w', body[k..]);
      EntriesOf(w, body);
      EntriesOf(w', body[k..]);
      HeadMovedFields(w.mem.state, first, k, pairs);
      MovedAbs(w, w', first, pairs);
    }
  }

  lemma HeadMovedFields(s: State, first: EntryId, k: nat, pairs: seq<Pair>)
    requires k <= |s.segments|
    ensures var t := HeadMoved(s, first, k, pairs); t.firstEntry == first && t.meta == Merge(s.meta, pairs)
  {
    hide Merge, IdSet;
  }

  lemma MovedAbs(w: World, w': World, first: EntryId, pairs: seq<Pair>)
    requires first >= w.mem.state.firstEntry
    requires w'.mem.state.firstEntry == first && w'.mem.state.meta == Merge(w.mem.state.meta, pairs)
    requires AtLeast(Entries(w'), first) == AtLeast(Entries(w), first)
    ensures Abs(w') == Abstract(AtLeast(Abs(w).log, first), first, Merge(Abs(w).meta, pairs))
  {
    AtLeastTwice(Entries(w), w.mem.state.firstEntry, first);
    hide AtLeast, Entries, Merge;
  }

  // ── Cutting the tail, seen through the head ─────────────────────────────────

  lemma {:induction false} AtLeastHas(fs: seq<Frame>, from: EntryId, id: EntryId)
    ensures HasId(AtLeast(fs, from), id) <==> id >= from && HasId(fs, id)
  {
    if fs != [] {
      AtLeastHas(fs[1..], from, id);
      var first := if fs[0].id >= from then [fs[0]] else [];
      HasIdConcat(first, AtLeast(fs[1..], from), id);
      HasIdConcat([fs[0]], fs[1..], id);
      assert [fs[0]] + fs[1..] == fs;
      assert HasId([fs[0]], id) <==> fs[0].id == id by { HasIdOne(fs[0], id); }
    }
  }

  lemma HasIdOne(f: Frame, id: EntryId)
    ensures HasId([f], id) <==> f.id == id
  {
    if f.id == id {
      assert [f][0].id == id;
    }
  }

  lemma HasIdConcat(a: seq<Frame>, b: seq<Frame>, id: EntryId)
    ensures HasId(a + b, id) <==> HasId(a, id) || HasId(b, id)
  {
    if HasId(a, id) {
      var i :| 0 <= i < |a| && a[i].id == id;
      assert (a + b)[i].id == id;
    }
    if HasId(b, id) {
      var i :| 0 <= i < |b| && b[i].id == id;
      assert (a + b)[|a| + i].id == id;
    }
    if i :| 0 <= i < |a + b| && (a + b)[i].id == id {
      assert if i < |a| then a[i].id == id else b[i - |a|].id == id;
    }
  }

  lemma {:induction false} ConcatHas(body: Body, id: EntryId)
    ensures HasId(Concat(body), id) <==> Stored(body, id)
  {
    if body != [] {
      ConcatHas(body[1..], id);
      HasIdConcat(body[0], Concat(body[1..]), id);
      if HasId(body[0], id) {
        var j :| 0 <= j < |body[0]| && body[0][j].id == id;
        assert StoredAt(body, id, 0, j);
      }
      if Stored(body[1..], id) {
        var i: nat, j: nat :| StoredAt(body[1..], id, i, j);
        assert StoredAt(body, id, i + 1, j);
      }
      if Stored(body, id) {
        var i: nat, j: nat :| StoredAt(body, id, i, j);
        if i > 0 {
          assert StoredAt(body[1..], id, i - 1, j);
        } else {
          assert body[0][j].id == id;
        }
      }
    }
  }

  /** Cutting the stored log cuts the visible one. */
  lemma CutSeenThroughHead(log: seq<Frame>, a: Abstract, last: EntryId)
    requires a.log == AtLeast(log, a.head) && HasId(log, last)
    ensures CutAbs(a, last, a.(log := AtLeast(UpToId(log, last), a.head)))
  {
    FiltersCommute(log, a.head, last);
    AtLeastHas(log, a.head, last);
    if last < a.head {
      AllAtLeast(log, a.head);
      UpToIdNone(a.log, last);
    }
  }

  lemma {:induction false} AllAtLeast(fs: seq<Frame>, from: EntryId)
    ensures forall i :: 0 <= i < |AtLeast(fs, from)| ==> AtLeast(fs, from)[i].id >= from
  {
    if fs != [] {
      AllAtLeast(fs[1..], from);
    }
  }

  lemma CutTailRefines(w: World, body: Body, last: EntryId)
    requires Inv(w, body) && w.mem.state.segments != [] && CanCut(w, last)
    ensures Valid(EndTruncated(w, last).GetOr(w)) && CutAbs(Abs(w), last, Abs(EndTruncated(w, last).GetOr(w)))
  {
    hide *;
    InvIsValid(w, body);
    EntriesOf(w, body);
    CanCutParts(w, last);
    TruncateEndExact(w, body, last);
    CutFailsIff(w, body, last);
    ConcatHas(body, last);
    if IsEndNoop(w.mem, last) {
      NoopAbs(w, body, last);
      GetOrSame(w, last);
    } else if !Stored(body, last) {
      NotStoredAbs(w, last);
      GetOrNone(w, last);
    } else {
      CutVisible(w, body, last);
      GetOrSome(w, last);
    }
  }

  lemma GetOrSame(w: World, last: EntryId)
    requires w.mem.state.segments != [] && EndTruncated(w, last) == Some(w)
    ensures EndTruncated(w, last).GetOr(w) == w
  {
    hide EndTruncated;
  }

  lemma GetOrNone(w: World, last: EntryId)
    requires w.mem.state.segments != [] && EndTruncated(w, last).None?
    ensures EndTruncated(w, last).GetOr(w) == w
  {
    hide EndTruncated;
  }

  lemma GetOrSome(w: World, last: EntryId)
    requires w.mem.state.segments != [] && EndTruncated(w, last).Some?
    ensures EndTruncated(w, last).GetOr(w) == EndTruncated(w, last).value
  {
    hide EndTruncated;
  }

  lemma CanCutParts(w: World, last: EntryId)
    requires w.mem.state.segments != [] && CanCut(w, last)
    ensures CanTruncateEnd(w, last)
    ensures !IsEndNoop(w.mem, last) && CutOffset(w, last).Some? ==> NoDrift(w, last)
  {
    hide CanTruncateEnd, CutOffset, NoDrift;
  }

  lemma NotStoredAbs(w: World, last: EntryId)
    requires !HasId(Entries(w), last)
    ensures CutAbs(Abs(w), last, Abs(w))
  {
    AtLeastHas(Entries(w), w.mem.state.firstEntry, last);
    hide AtLeast, Entries, HasId;
  }

  /** At or past the last id the cut keeps everything. */
  lemma NoopAbs(w: World, body: Body, last: EntryId)
    requires Inv(w, body) && IsEndNoop(w.mem, last)
    ensures CutAbs(Abs(w), last, Abs(w))
  {
    hide *;
    InvIsValid(w, body);
    EntriesOf(w, body);
    SealedNotEmpty(w, body);
    LastIsLast(w.mem, body);
    NoopKeepsAll(w, last);
  }

  lemma NoopKeepsAll(w: World, last: EntryId)
    requires IsEndNoop(w.mem, last) && Increasing(Entries(w))
    requires Entries(w) != [] ==> w.mem.lastEntry == Some(LastId(Entries(w)))
    ensures CutAbs(Abs(w), last, Abs(w))
  {
    var log, head := Entries(w), w.mem.state.firstEntry;
    hide Entries;
    assert forall i :: 0 <= i < |log| ==> log[i].id <= LastId(log);
    AtLeastIsSuffix(log, head);
    UpToIdAll(AtLeast(log, head), last);
    hide AtLeast, UpToId, HasId;
  }

  lemma CutVisible(w: World, body: Body, last: EntryId)
    requires Inv(w, body) && w.mem.state.segments != [] && CanTruncateEnd(w, last) && NoDrift(w, last)
    requires !IsEndNoop(w.mem, last) && Stored(body, last)
    ensures EndTruncated(w, last).Some? && Valid(EndTruncated(w, last).value)
    ensures CutAbs(Abs(w), last, Abs(EndTruncated(w, last).value))
  {
    hide *;
    StoredSomewhere(body, last);
    var i: nat, j: nat :| i < |body| && j < |body[i]| && body[i][j].id == last;
    HasSegments(w, body);
    TargetHolds(w.mem.state, body, last, i, j);
    ExactCut(w, body, i, j);
    RolledBackKeeps(w.mem.state, i);
    InvIsValid(w, body);
    EntriesOf(w, body);
    ConcatHas(body, last);
    CutAbsOf(w, EndTruncated(w, last).value, last);
  }

  lemma StoredSomewhere(body: Body, last: EntryId)
    requires Stored(body, last)
    ensures exists i: nat, j: nat :: i < |body| && j < |body[i]| && body[i][j].id == last
  {
    var i: nat, j: nat :| StoredAt(body, last, i, j);
    assert body[i][j].id == last;
  }

  lemma CutAbsOf(w: World, w': World, last: EntryId)
    requires HasId(Entries(w), last) && Entries(w') == UpToId(Entries(w), last)
    requires w'.mem.state.firstEntry == w.mem.state.firstEntry && w'.mem.state.meta == w.mem.state.meta
    ensures CutAbs(Abs(w), last, Abs(w'))
  {
    hide Entries, AtLeast, UpToId, HasId;
    CutSeenThroughHead(Entries(w), Abs(w), last);
  }

  // ── Deletion, metadata and reopening ────────────────────────────────────────

  lemma DeleteRefines(w: World, body: Body)
    requires Inv(w, body)
    ensures Valid(DeadDeleted(w)) && Abs(DeadDeleted(w)) == Abs(w)
  {
    hide *;
    DeadDeletedKeepsInv(w, body);
    InvIsValid(w, body);
    InvIsValid(DeadDeleted(w), body);
    EntriesOf(w, body);
    EntriesOf(DeadDeleted(w), body);
    StateKept(w, DeadDeleted(w));
  }

  lemma MetadataRefines(w: World, body: Body, pairs: seq<Pair>)
    requires Inv(w, body) && Fits(ManifestOp(Metadata, pairs))
    ensures Valid(MetadataWritten(w, pairs))
    ensures Abs(MetadataWritten(w, pairs)) == Abs(w).(meta := Merge(Abs(w).meta, pairs))
  {
    hide *;
    var w' := MetadataWritten(w, pairs);
    MetadataKeepsInv(w, body, pairs);
    InvIsValid(w, body);
    InvIsValid(w', body);
    EntriesOf(w, body);
    EntriesOf(w', body);
    MetaAbs(w, w', pairs);
  }

  lemma MetaAbs(w: World, w': World, pairs: seq<Pair>)
    requires w'.mem.state == w.mem.state.(meta := Merge(w.mem.state.meta, pairs)) && Entries(w') == Entries(w)
    ensures Abs(w') == Abs(w).(meta := Merge(Abs(w).meta, pairs))
  {
    hide Entries, AtLeast, Merge;
  }

  lemma ReopensAbs(trigger: nat, d: Disk, w: World, entries: seq<Frame>, head: EntryId, meta: seq<Pair>)
    requires Reopens(trigger, d, entries, head, meta)
    ensures StartsAgain(trigger, d, w) && Abs(Opened(trigger, d, w)) == Abstract(AtLeast(entries, head), head, meta)
  {
    hide Open, Valid, Entries, AtLeast;
  }

  lemma LikeAbs(trigger: nat, d: Disk, w: World, like: World)
    requires ReopensLike(trigger, d, like)
    ensures StartsAgain(trigger, d, w) && Abs(Opened(trigger, d, w)) == Abs(like)
  {
    hide Reopens, Entries, AtLeast, Opened;
    ReopensAbs(trigger, d, w, Entries(like), like.mem.state.firstEntry, like.mem.state.meta);
  }

  // ── Crashes and power loss ──────────────────────────────────────────────────

  lemma NoSteps(trigger: nat, w: World, body: Body, d: Disk)
    requires Inv(w, body) && CrashOf(w.disk, [], d)
    ensures StartsAgain(trigger, d, w) && Abs(Opened(trigger, d, w)) == Abs(w)
  {
    assert d == w.disk;
    hide *;
    LikeItself(trigger, w, body);
    LikeAbs(trigger, d, w, w);
  }

  lemma BatchCrashRefines(trigger: nat, w: World, body: Body, fs: seq<Frame>, d: Disk)
    requires Inv(w, body) && CanWrite(w.mem, fs) && CrashOf(w.disk, WriteSteps(w, fs), d)
    ensures StartsAgain(trigger, d, w) && PartWritten(Abs(w), fs, Abs(Opened(trigger, d, w)))
  {
    hide *;
    WriteCrash(trigger, w, body, fs, d);
    PartAbs(trigger, w, fs, d);
  }

  lemma PartAbs(trigger: nat, w: World, fs: seq<Frame>, d: Disk)
    requires ReopensWithPart(trigger, d, w, fs)
    ensures StartsAgain(trigger, d, w) && PartWritten(Abs(w), fs, Abs(Opened(trigger, d, w)))
  {
    hide Reopens, Entries, AtLeast, Opened;
    var m: nat :| m <= |fs| && ReopensWith(trigger, d, w, fs, m);
    var head := w.mem.state.firstEntry;
    ReopensAbs(trigger, d, w, Entries(w) + fs[..m], head, w.mem.state.meta);
    AtLeastConcat(Entries(w), fs[..m], head);
    assert WrittenTo(Abs(w), fs, m, Abs(Opened(trigger, d, w)));
  }

  lemma MoveHeadCrashRefines(trigger: nat, w: World, body: Body, first: EntryId, pairs: seq<Pair>, d: Disk)
    requires Inv(w, body) && CanTruncateStart(w.mem, first, pairs)
    requires CrashOf(w.disk, DiskSteps(w, MoveHead(first, pairs)), d)
    ensures StartsAgain(trigger, d, w)
    ensures var b := Abs(Opened(trigger, d, w)); b == Abs(w) || AbsStep(Abs(w), MoveHead(first, pairs), b)
  {
    hide *;
    MoveHeadRefines(w, body, first, pairs);
    MoveHeadSteps(w, first, pairs);
    InvIsValid(w, body);
    if first < w.mem.state.firstEntry {
      NoSteps(trigger, w, body, d);
    } else {
      var w' := StartTruncated(w, first, pairs).value;
      TruncateStartCrash(trigger, w, first, pairs, d);
      if ReopensLike(trigger, d, w) {
        LikeAbs(trigger, d, w, w);
      } else {
        LikeAbs(trigger, d, w, w');
        HeadStepAbs(w, first, pairs);
      }
    }
  }

  lemma HeadStepAbs(w: World, first: EntryId, pairs: seq<Pair>)
    requires first >= w.mem.state.firstEntry
    ensures AbsStep(Abs(w), MoveHead(first, pairs), Abstract(AtLeast(Abs(w).log, first), first, Merge(Abs(w).meta, pairs)))
  {
    hide AtLeast, Visible, Merge;
  }

  lemma MoveHeadSteps(w: World, first: EntryId, pairs: seq<Pair>)
    ensures DiskSteps(w, MoveHead(first, pairs)) ==
      if StartTruncated(w, first, pairs).None? then [] else [StartTruncated(w, first, pairs).value.disk]
  {
    hide StartTruncated;
  }

  lemma CutTailCrashRefines(trigger: nat, w: World, body: Body, last: EntryId, d: Disk)
    requires Inv(w, body) && w.mem.state.segments != [] && CanCut(w, last) && CutsActive(w, last)
    requires CrashOf(w.disk, EndSteps(w, last), d)
    ensures StartsAgain(trigger, d, w)
    ensures var b := Abs(Opened(trigger, d, w)); b == Abs(w) || CutAbs(Abs(w), last, b)
  {
    hide *;
    CanCutParts(w, last);
    CutFailsIff(w, body, last);
    NothingCut(w, last);
    if IsEndNoop(w.mem, last) || CutOffset(w, last).None? {
      NoSteps(trigger, w, body, d);
    } else {
      StoredSomewhere(body, last);
      var i: nat, j: nat :| i < |body| && j < |body[i]| && body[i][j].id == last;
      HasSegments(w, body);
      TargetHolds(w.mem.state, body, last, i, j);
      CutsActiveIs(w, last);
      MakesCutsAt(w, body, i, j);
      TruncateEndCrash(trigger, w, body, i, j, d);
      InvIsValid(w, body);
      EntriesOf(w, body);
      ConcatHas(body, last);
      CutCrashAbs(trigger, w, last, d);
    }
  }

  lemma NothingCut(w: World, last: EntryId)
    requires w.mem.state.segments != []
    ensures IsEndNoop(w.mem, last) || CutOffset(w, last).None? ==> EndSteps(w, last) == []
  {
    hide CutOffset, EndCut, CutDisk;
  }

  lemma CutsActiveIs(w: World, last: EntryId)
    requires w.mem.state.segments != [] && CutsActive(w, last) && !IsEndNoop(w.mem, last) && CutOffset(w, last).Some?
    ensures TargetIndex(w.mem.state.segments, last) == |w.mem.state.segments| - 1
  {
    hide CutOffset, TargetIndex;
  }

  lemma MakesCutsAt(w: World, body: Body, i: nat, j: nat)
    requires Inv(w, body) && i < |body| && j < |body[i]| && w.mem.state.segments != []
    requires var last := body[i][j].id; !IsEndNoop(w.mem, last) && CanTruncateEnd(w, last) && NoDrift(w, last)
    ensures CutsAt(w, body, i, j)
  {
    hide Inv, CanTruncateEnd, NoDrift;
  }

  lemma CutCrashAbs(trigger: nat, w: World, last: EntryId, d: Disk)
    requires HasId(Entries(w), last)
    requires ReopensLike(trigger, d, w)
          || Reopens(trigger, d, UpToId(Entries(w), last), w.mem.state.firstEntry, w.mem.state.meta)
    ensures StartsAgain(trigger, d, w)
    ensures var b := Abs(Opened(trigger, d, w)); b == Abs(w) || CutAbs(Abs(w), last, b)
  {
    hide Reopens, ReopensLike, Entries, AtLeast, UpToId, HasId, Opened, CutAbs;
    if ReopensLike(trigger, d, w) {
      LikeAbs(trigger, d, w, w);
    } else {
      ReopensAbs(trigger, d, w, UpToId(Entries(w), last), w.mem.state.firstEntry, w.mem.state.meta);
      CutSeenThroughHead(Entries(w), Abs(w), last);
    }
  }

  lemma LossAbs(trigger: nat, w: World, v: World, d: Disk)
    requires Valid(v) && Loses(v, d)
    ensures StartsAgain(trigger, d, w) && LostFrom(Abs(v), Abs(Opened(trigger, d, w)))
  {
    hide *;
    var body := BodyOf(v.disk, v.mem.state.segments);
    ValidIsInv(v);
    LosesParts(v, d);
    PowerLoss(trigger, v, body, d);
    EntriesOf(v, body);
    var left := Concat(CutLast(body, Left(v, d)));
    ReopensAbs(trigger, d, w, left, v.mem.state.firstEntry, v.mem.state.meta);
    FilterPrefix(left, Concat(body), v.mem.state.firstEntry);
    AbsIs(v);
    LostFromIs(Abs(v), Abs(Opened(trigger, d, w)));
  }

  lemma ValidIsInv(w: World)
    requires Valid(w)
    ensures Inv(w, BodyOf(w.disk, w.mem.state.segments))
  {
    hide Inv;
  }

  lemma LosesParts(v: World, d: Disk)
    requires Loses(v, d)
    ensures TailsLost(v, d) && SealedWhole(v, d)
  {
    hide TailsLost, SealedWhole;
  }

  lemma LostFromIs(a: Abstract, b: Abstract)
    requires b.head == a.head && b.meta == a.meta && b.log <= a.log
    ensures LostFrom(a, b)
  {
  }

  lemma AbsIs(w: World)
    ensures Abs(w) == Abstract(AtLeast(Entries(w), w.mem.state.firstEntry), w.mem.state.firstEntry, w.mem.state.meta)
  {
    hide Entries, AtLeast;
  }

  lemma FilterPrefix(a: seq<Frame>, b: seq<Frame>, from: EntryId)
    requires a <= b
    ensures AtLeast(a, from) <= AtLeast(b, from)
  {
    assert b == a + b[|a|..];
    AtLeastConcat(a, b[|a|..], from);
  }

  lemma CrashRefines(trigger: nat, w: World, body: Body, during: Step, d: Disk)
    requires Inv(w, body) && Enabled(w, Crash(during, d, trigger))
    ensures StartsAgain(trigger, d, w) && AbsStep(Abs(w), Crash(during, d, trigger), Abs(Opened(trigger, d, w)))
  {
    hide Inv, Valid, Abs, Opened, CrashOf, CanWrite, CanTruncateStart, CanCut, CutsActive, CutAbs, PartWritten, Fits,
      WriteSteps, EndSteps, DeleteSteps, MetadataWritten, StartTruncated, ReopensLike;
    InvIsValid(w, body);
    match during
    case Batch(fs) => BatchCrashRefines(trigger, w, body, fs, d);
    case MoveHead(first, pairs) => MoveHeadCrashRefines(trigger, w, body, first, pairs, d);
    case CutTail(last) => CutTailCrashRefines(trigger, w, body, last, d);
    case DeleteDead =>
      DeleteCrash(trigger, w, d);
      LikeAbs(trigger, d, w, w);
    case WriteMetadata(pairs) =>
      MetadataCrash(trigger, w, pairs, d);
      MetadataRefines(w, body, pairs);
      if ReopensLike(trigger, d, w) {
        LikeAbs(trigger, d, w, w);
      } else {
        LikeAbs(trigger, d, w, MetadataWritten(w, pairs));
      }
    case Reopen(_) => NoSteps(trigger, w, body, d);
  }

  lemma ReopenRefines(trigger: nat, w: World, body: Body)
    requires Inv(w, body)
    ensures StartsAgain(trigger, w.disk, w) && Abs(Opened(trigger, w.disk, w)) == Abs(w)
  {
    hide *;
    LikeItself(trigger, w, body);
    LikeAbs(trigger, w.disk, w, w);
  }

  ghost predicate Follows(w: World, step: Step) {
    Valid(Exec(w, step)) && AbsStep(Abs(w), step, Abs(Exec(w, step)))
  }

  lemma PlainStepFollows(w: World, body: Body, step: Step)
    requires Inv(w, body) && Enabled(w, step) && IsPlain(step)
    ensures Follows(w, step) && (Restarts(step) ==> StartsAgain(step.trigger, FoundDisk(w, step), w))
  {
    hide Inv, Valid, Visible, Opened, Open, CanWrite, CanTruncateStart, CanCut, CutAbs, Fits, Written, EndTruncated,
      DeadDeleted, MetadataWritten, StartTruncated;
    InvIsValid(w, body);
    match step
    case Batch(fs) => BatchRefines(w, body, fs);
    case MoveHead(first, pairs) => MoveHeadRefines(w, body, first, pairs);
    case CutTail(last) => CutTailRefines(w, body, last);
    case DeleteDead => DeleteRefines(w, body);
    case WriteMetadata(pairs) => MetadataRefines(w, body, pairs);
    case Reopen(trigger) => ReopenRefines(trigger, w, body);
  }

  lemma RolledAbs(w: World, body: Body, fs: seq<Frame>)
    requires Inv(w, body) && CanWrite(w.mem, fs) && fs != [] && w.mem.rolloverPending
    ensures Inv(RolledOver(w, fs[0].id), body + [[]]) && Valid(RolledOver(w, fs[0].id))
    ensures Abs(RolledOver(w, fs[0].id)) == Abs(w)
  {
    hide *;
    var rolled := RolledOver(w, fs[0].id);
    PlainRoll(w, body, fs);
    RollKeepsInv(w, body, fs[0].id);
    RollApplies(w, body, fs[0].id);
    RolledStateIs(w, fs[0].id);
    InvIsValid(w, body);
    InvIsValid(rolled, body + [[]]);
    EntriesOf(w, body);
    EntriesOf(rolled, body + [[]]);
    ConcatSplit(body, [[]]);
    ConcatOne([]);
    assert Concat(body) + [] == Concat(body);
    StateKept(w, rolled);
  }

  lemma DeletedAbs(w: World, body: Body, k: nat)
    requires Inv(w, body) && k <= |HASH_ORDER(w.mem.state.dead)|
    ensures Inv(DeletedFirst(w, k), body) && Valid(DeletedFirst(w, k)) && Abs(DeletedFirst(w, k)) == Abs(w)
  {
    var ids := HASH_ORDER(w.mem.state.dead);
    assert Enumerates(ids, w.mem.state.dead);
    EnumeratedSet(ids, w.mem.state.dead);
    hide Inv, Valid, Abs, Deleted, Entries;
    DeleteKeepsInv(w, body, ids[..k]);
    InvIsValid(w, body);
    InvIsValid(DeletedFirst(w, k), body);
    EntriesOf(w, body);
    EntriesOf(DeletedFirst(w, k), body);
    StateKept(w, DeletedFirst(w, k));
  }

  /** Every store an operation passes through is valid, and shows what was there before or what the operation makes. */
  lemma StageFollows(w: World, body: Body, during: Step, v: World)
    requires Inv(w, body) && IsPlain(during) && Enabled(w, during) && StageOf(w, during, v)
    ensures Valid(v) && (Abs(v) == Abs(w) || AbsStep(Abs(w), during, Abs(v)))
  {
    hide Inv, Valid, Abs, AbsStep, Exec, CanWrite, CanTruncateStart, CanCut, Fits, RolledOver, DeletedFirst;
    InvIsValid(w, body);
    if v == w {
    } else if v == Exec(w, during) {
      PlainStepFollows(w, body, during);
    } else if during.Batch? {
      RolledAbs(w, body, during.frames);
    } else {
      var k :| 0 <= k <= |HASH_ORDER(w.mem.state.dead)| && v == DeletedFirst(w, k);
      DeletedAbs(w, body, k);
    }
  }

  lemma LosePowerRefines(trigger: nat, w: World, body: Body, during: Step, d: Disk)
    requires Inv(w, body) && Enabled(w, LosePower(during, d, trigger))
    ensures StartsAgain(trigger, d, w) && AbsStep(Abs(w), LosePower(during, d, trigger), Abs(Opened(trigger, d, w)))
  {
    hide Inv, Valid, Abs, Opened, StageOf, Loses, LostFrom, CanWrite, CanTruncateStart, CanCut, Fits, CutAbs, TailsLost;
    var v :| StageOf(w, during, v) && Loses(v, d);
    StageFollows(w, body, during, v);
    LossAbs(trigger, w, v, d);
    assert (Abs(v) == Abs(w) || AbsStep(Abs(w), during, Abs(v))) && LostFrom(Abs(v), Abs(Opened(trigger, d, w)));
  }

  lemma LossStepFollows(w: World, body: Body, step: Step)
    requires Inv(w, body) && Enabled(w, step) && (step.Crash? || step.LosePower?)
    ensures Follows(w, step) && StartsAgain(step.trigger, FoundDisk(w, step), w)
  {
    hide Inv, Valid, Visible, Opened, Open, Enabled, AbsStep;
    if step.LosePower? {
      LosePowerRefines(step.trigger, w, body, step.during, step.left);
    } else {
      CrashRefines(step.trigger, w, body, step.during, step.left);
    }
  }

  /** Every enabled step keeps the invariant and follows the abstract log; after each that ends the process, opening
      succeeds. */
  lemma StepRefines(w: World, step: Step)
    requires Valid(w) && Enabled(w, step)
    ensures Valid(Exec(w, step)) && AbsStep(Abs(w), step, Abs(Exec(w, step)))
    ensures Restarts(step) ==> StartsAgain(step.trigger, FoundDisk(w, step), w)
  {
    hide Inv, Enabled, Exec, AbsStep, Abs, StartsAgain, FoundDisk;
    var body := BodyOf(w.disk, w.mem.state.segments);
    if step.Crash? || step.LosePower? {
      LossStepFollows(w, body, step);
    } else {
      PlainStepFollows(w, body, step);
    }
  }

  // ── No application of a record fails ────────────────────────────────────────

  ghost predicate Accepted(w: World, entry: ManifestOp) {
    Applied(w.mem.state, entry).Success?
  }

  ghost predicate DeletesAccepted(w: World, ids: seq<SegmentId>)
    decreases |ids|
  {
    ids == [] || (Accepted(w, Bare(SegmentDeleted(ids[0]))) && DeletesAccepted(DeletedOne(w, ids[0]), ids[1..]))
  }

  /** The records an operation is about to write are all accepted by the state they are applied to. */
  ghost predicate RecordsAccepted(w: World, step: Step) {
    match step
    case Batch(fs) => fs != [] && w.mem.rolloverPending ==> Accepted(w, RollOp(w.mem, fs[0].id))
    case MoveHead(first, pairs) =>
      first >= w.mem.state.firstEntry ==>
        Accepted(w, ManifestOp(TruncateStart(first, Evicted(w.mem.state.segments, w.mem.state.seals, first)), pairs))
    case CutTail(last) =>
      w.mem.state.segments != [] && !IsEndNoop(w.mem, last) && CutOffset(w, last).Some? ==>
        Accepted(w, EndOp(w, last, CutOffset(w, last).value))
    case DeleteDead => DeletesAccepted(w, HASH_ORDER(w.mem.state.dead))
    case WriteMetadata(pairs) => Accepted(w, ManifestOp(Metadata, pairs))
    case _ => true
  }

  lemma {:induction false} DeletesApply(w: World, body: Body, ids: seq<SegmentId>)
    requires Inv(w, body)
    requires forall i :: 0 <= i < |ids| ==> ids[i] in w.mem.state.dead
    requires forall i, j :: 0 <= i < j < |ids| ==> ids[i] != ids[j]
    ensures DeletesAccepted(w, ids)
    decreases |ids|
  {
    hide Inv, DeletedOne;
    if ids != [] {
      DeleteOneKeepsInv(w, body, ids[0]);
      DeletesApply(DeletedOne(w, ids[0]), body, ids[1..]);
    }
  }

  lemma RollAccepted(w: World, body: Body, fs: seq<Frame>)
    requires Inv(w, body) && CanWrite(w.mem, fs) && fs != [] && w.mem.rolloverPending
    ensures Accepted(w, RollOp(w.mem, fs[0].id))
  {
    hide Inv, CanWrite, CanRoll, Applied, RollOp;
    PlainRoll(w, body, fs);
    RollApplies(w, body, fs[0].id);
  }

  lemma HeadAccepted(w: World, body: Body, first: EntryId, pairs: seq<Pair>)
    requires Inv(w, body) && first >= w.mem.state.firstEntry
    ensures Accepted(w, ManifestOp(TruncateStart(first, Evicted(w.mem.state.segments, w.mem.state.seals, first)), pairs))
  {
    var s := w.mem.state;
    HasSegments(w, body);
    hide Inv, StateOk, BodyOk, Applied, Evicted, EvictCount;
    EvictedSegments(s, body, first);
    TruncateStartKeeps(s, first, EvictCount(s.segments, s.seals, first), pairs);
  }

  lemma CutAccepted(w: World, body: Body, last: EntryId, offset: u64)
    requires Inv(w, body) && w.mem.state.segments != []
    ensures Accepted(w, EndOp(w, last, offset))
  {
    HasSegments(w, body);
    hide Inv, StateOk, BodyOk, Applied, Ids, TargetIndex;
    TruncateEndKeeps(w.mem.state, TargetIndex(w.mem.state.segments, last), offset);
  }

  lemma MetadataAccepted(w: World, pairs: seq<Pair>)
    ensures Accepted(w, ManifestOp(Metadata, pairs))
  {
    hide Merge;
  }

  /** Every `expect` on applying a record is unreachable in every valid store, and so in every reachable one. */
  lemma NoExpectFails(w: World, step: Step)
    requires Valid(w) && Enabled(w, step)
    ensures RecordsAccepted(w, step)
  {
    var body := BodyOf(w.disk, w.mem.state.segments);
    assert Inv(w, body);
    hide Inv, Valid, CanWrite, CanTruncateStart, CanCut, Accepted, RollOp, Evicted, EndOp, CutOffset, DeletesAccepted,
      TargetIndex;
    match step
    case Batch(fs) =>
      if fs != [] && w.mem.rolloverPending {
        RollAccepted(w, body, fs);
      }
    case MoveHead(first, pairs) =>
      if first >= w.mem.state.firstEntry {
        HeadAccepted(w, body, first, pairs);
      }
    case CutTail(last) =>
      if w.mem.state.segments != [] && CutOffset(w, last).Some? {
        CutAccepted(w, body, last, CutOffset(w, last).value);
      }
    case DeleteDead =>
      var ids := HASH_ORDER(w.mem.state.dead);
      assert Enumerates(ids, w.mem.state.dead);
      EnumeratedSet(ids, w.mem.state.dead);
      DeletesApply(w, body, ids);
    case WriteMetadata(pairs) => MetadataAccepted(w, pairs);
    case _ =>
  }

  // ── Whole runs ──────────────────────────────────────────────────────────────

  /** `open_or_create` on an empty directory: manifest, first segment, then the record that names it. */
  function FreshDisk(): Disk {
    var created := Disk(MANIFEST_MAGIC, map[1 := SEGMENT_MAGIC]);
    Appended(created, CreateSegment(1, 0))
  }

  /** Its disk steps. */
  function CreateSteps(): seq<Disk> {
    [Disk(MANIFEST_MAGIC, map[]), Disk(MANIFEST_MAGIC, map[1 := []]), Disk(MANIFEST_MAGIC, map[1 := SEGMENT_MAGIC]), FreshDisk()]
  }

  const FRESH_STATE := State([Segment(1, 0)], map[], Some(1), {}, 0, [])

  lemma FreshApplied()
    ensures Applied(EMPTY, Bare(CreateSegment(1, 0))) == Success(FRESH_STATE)
    ensures StateOk(FRESH_STATE) && BodyOk(FRESH_STATE, [[]])
    ensures IdSet(FRESH_STATE.segments) == {1}
  {
    var segs := FRESH_STATE.segments;
    assert segs[..0] == [];
  }

  lemma EmptyManifestHolds()
    ensures ManifestHolds(MANIFEST_MAGIC, EMPTY)
  {
    NothingReplays();
    EncodeAllEmpty();
    hide Replays, EncodeAll;
    assert FileOf(MANIFEST_MAGIC, []) == MANIFEST_MAGIC + [] == MANIFEST_MAGIC;
  }

  lemma FreshFiles()
    ensures FilesOk(FreshDisk(), FRESH_STATE.segments, [[]])
    ensures FreshDisk().segments == map[1 := SEGMENT_MAGIC]
  {
    EncodeAllEmpty();
    assert Image([]) == SEGMENT_MAGIC + [] == SEGMENT_MAGIC;
    hide EncodeAll, WriteAt, Encode;
    assert FileAt(FreshDisk(), FRESH_STATE.segments[0], []);
  }

  lemma FreshSettled()
    ensures Settled(FreshDisk(), FRESH_STATE, [[]])
  {
    FreshApplied();
    EmptyManifestHolds();
    FreshFiles();
    NumbersFit(CreateSegment(1, 0));
    hide StateOk, BodyOk, ManifestHolds, FilesOk, IdSet, Fits, Applied, EncodeAll;
    AppendRecord(Disk(MANIFEST_MAGIC, map[1 := SEGMENT_MAGIC]), EMPTY, CreateSegment(1, 0), FRESH_STATE);
  }

  function Fresh(trigger: nat): World {
    World(OpenedMem(trigger, FreshDisk(), FRESH_STATE, [[]]), FreshDisk())
  }

  /** A newly created store opens, is valid, and is empty with head 0 and no metadata. */
  lemma FreshOpens(trigger: nat)
    ensures Open(trigger, FreshDisk()) == Outcome(FreshDisk(), Success(Fresh(trigger).mem))
    ensures Inv(Fresh(trigger), [[]]) && Valid(Fresh(trigger)) && Abs(Fresh(trigger)) == Abstract([], 0, [])
  {
    FreshSettled();
    assert Fresh(trigger).mem.state == FRESH_STATE;
    hide Open, Inv, Valid, Settled, FreshDisk, OpenedMem, BodyOf;
    OpenSettled(trigger, FreshDisk(), FRESH_STATE, [[]]);
    InvIsValid(Fresh(trigger), [[]]);
    ConcatOne([]);
    assert Entries(Fresh(trigger)) == [];
  }

  lemma {:induction false} RunRefinesFrom(w: World, steps: seq<Step>)
    requires Valid(w) && Possible(w, steps)
    ensures Valid(Final(w, steps)) && AbsRun(Abs(w), steps, Abs(Final(w, steps)))
    decreases |steps|
  {
    hide Valid, Enabled, Exec, AbsStep, Abs;
    if steps != [] {
      StepRefines(w, steps[0]);
      RunRefinesFrom(Exec(w, steps[0]), steps[1..]);
      assert AbsRun(Abs(Exec(w, steps[0])), steps[1..], Abs(Final(w, steps)));
    }
  }

  lemma AbsHeadMoves(a: Abstract, step: Step, b: Abstract)
    requires AbsStep(a, step, b)
    ensures a.head <= b.head
  {
    hide AtLeast, UpToId, Merge;
    if step.Crash? && !(step.during.Batch? && PartWritten(a, step.during.frames, b)) && b != a {
      AbsHeadMoves(a, step.during, b);
    } else if step.LosePower? {
      var c :| (c == a || AbsStep(a, step.during, c)) && LostFrom(c, b);
      if c != a {
        AbsHeadMoves(a, step.during, c);
      }
    }
  }

  lemma {:induction false} HeadNeverDecreases(a: Abstract, steps: seq<Step>, b: Abstract)
    requires AbsRun(a, steps, b)
    ensures a.head <= b.head
    decreases |steps|
  {
    hide AbsStep;
    if steps != [] {
      var c :| AbsStep(a, steps[0], c) && AbsRun(c, steps[1..], b);
      AbsHeadMoves(a, steps[0], c);
      HeadNeverDecreases(c, steps[1..], b);
    }
  }

  /** The refinement over whole runs.  After any run from a fresh store the invariant holds, the visible log has
      strictly increasing ids, none below the head, and the run is one of the abstract log's. */
  lemma RunRefines(trigger: nat, steps: seq<Step>)
    requires Possible(Fresh(trigger), steps)
    ensures var w := Final(Fresh(trigger), steps);
      && Valid(w) && AbsRun(Abstract([], 0, []), steps, Abs(w))
      && Increasing(Abs(w).log) && forall i :: 0 <= i < |Abs(w).log| ==> Abs(w).log[i].id >= Abs(w).head
  {
    hide *;
    FreshOpens(trigger);
    RunRefinesFrom(Fresh(trigger), steps);
    var w := Final(Fresh(trigger), steps);
    EntriesIncrease(w);
    VisibleOrdered(w);
  }

  lemma VisibleOrdered(w: World)
    requires Increasing(Entries(w))
    ensures Increasing(Abs(w).log) && forall i :: 0 <= i < |Abs(w).log| ==> Abs(w).log[i].id >= Abs(w).head
  {
    AtLeastIsSuffix(Entries(w), w.mem.state.firstEntry);
    AllAtLeast(Entries(w), w.mem.state.firstEntry);
    hide Entries, AtLeast;
  }
}
