/** What each operation asks of a state, which error it answers otherwise, and what it does: for every state, also
    those no store reaches, since a manifest on disk can record anything. */
module Transitions {
  import opened Basics
  import opened State
  import opened StateLaws

  // ── What is accepted ────────────────────────────────────────────────────────

  ghost predicate Accepts(s: State, op: Op) {
    match op
    case CreateSegment(_, _) => |s.segments| == 0
    case RollSegment(sealed, _, _, _, _, _, _) => s.active == Some(sealed)
    case TruncateStart(first, _) => s.firstEntry <= first
    case TruncateEnd(target, _, drop) =>
      HasSegment(s.segments, target) && forall i :: 0 <= i < |drop| ==> HasSegment(s.segments, drop[i])
    case SegmentDeleted(id) => id in s.dead
    case RecordOrphan(_) => true
    case Metadata => true
  }

  /** `i` is the first place in `ids` with an id that is not live. */
  ghost predicate FirstNotLive(segs: seq<Segment>, ids: seq<SegmentId>, i: nat) {
    i < |ids| && !HasSegment(segs, ids[i]) && forall j :: 0 <= j < i ==> HasSegment(segs, ids[j])
  }

  lemma {:induction false} MissingIs(s: State, ids: seq<SegmentId>) returns (i: nat)
    ensures match FirstMissing(s.segments, ids)
      case None => i == |ids| && forall j :: 0 <= j < |ids| ==> HasSegment(s.segments, ids[j])
      case Some(id) => FirstNotLive(s.segments, ids, i) && id == ids[i]
  {
    i := 0;
    if ids != [] && HasSegment(s.segments, ids[0]) {
      i := MissingIs(s, ids[1..]);
      i := i + 1;
      assert forall j :: 0 < j < |ids| ==> ids[j] == ids[1..][j - 1];
    }
  }

  /** An operation is accepted exactly when the state meets its condition; `truncate_end` in particular only when its
      target and every dropped segment are live. */
  lemma AcceptedIff(s: State, entry: ManifestOp)
    ensures Applied(s, entry).Success? <==> Accepts(s, entry.op)
  {
    if entry.op.TruncateEnd? {
      var i := MissingIs(s, entry.op.drop);
      hide FirstMissing, KillAll, Merge;
    }
  }

  /** The error of a refused operation.  `truncate_end` names the first id that is not live, the dropped ones first. */
  lemma RefusedWith(s: State, entry: ManifestOp)
    requires !Accepts(s, entry.op)
    ensures match entry.op
      case CreateSegment(_, _) => Applied(s, entry) == Failure(StoreNotEmpty)
      case RollSegment(sealed, _, _, _, _, _, _) => Applied(s, entry) == Failure(NotActiveSegment(sealed))
      case TruncateStart(first, _) => Applied(s, entry) == Failure(TruncateStartBeforeFirst(first))
      case TruncateEnd(target, _, drop) =>
        var named := drop + [target];
        exists i: nat :: FirstNotLive(s.segments, named, i) && Applied(s, entry) == Failure(SegmentNotFound(named[i]))
      case SegmentDeleted(id) => Applied(s, entry) == Failure(SegmentNotDead(id))
      case _ => false
  {
    if entry.op.TruncateEnd? {
      var drop, named := entry.op.drop, entry.op.drop + [entry.op.newActiveId];
      var i := MissingIs(s, drop);
      hide FirstMissing, KillAll, Merge;
      assert forall j :: 0 <= j < |drop| ==> named[j] == drop[j];
      assert FirstNotLive(s.segments, named, i);
    }
  }

  // ── What it does ────────────────────────────────────────────────────────────

  /** The segments that are not among `gone`, in order. */
  function Survivors(segs: seq<Segment>, gone: set<SegmentId>): seq<Segment> {
    if segs == [] then []
    else (if segs[0].id in gone then [] else [segs[0]]) + Survivors(segs[1..], gone)
  }

  lemma {:induction false} WithoutSurvives(segs: seq<Segment>, id: SegmentId, gone: set<SegmentId>)
    ensures Survivors(Without(segs, id), gone) == Survivors(segs, {id} + gone)
  {
    if segs != [] {
      WithoutSurvives(segs[1..], id, gone);
    }
  }

  lemma {:induction false} NoneGone(segs: seq<Segment>)
    ensures Survivors(segs, {}) == segs
  {
    if segs != [] {
      NoneGone(segs[1..]);
    }
  }

  /** Removing dropped segments one after the other, each in a pass over the list, leaves what one pass would. */
  lemma {:induction false} KilledAtOnce(s: State, ids: seq<SegmentId>)
    ensures KillAll(s, ids).segments == Survivors(s.segments, Elements(ids))
    decreases |ids|
  {
    if ids == [] {
      NoneGone(s.segments);
      assert Elements(ids) == {};
    } else {
      KilledAtOnce(Kill(s, ids[0]), ids[1..]);
      WithoutSurvives(s.segments, ids[0], Elements(ids[1..]));
      assert Elements(ids) == {ids[0]} + Elements(ids[1..]);
    }
  }

  /** The state after an accepted operation, apart from metadata. */
  lemma AppliedTo(s: State, entry: ManifestOp)
    requires Accepts(s, entry.op)
    ensures Applied(s, entry).Success?
    ensures var t := Applied(s, entry).value.(meta := s.meta);
      match entry.op
      case CreateSegment(id, first) =>
        t == State([Segment(id, first)], s.seals, Some(id), s.dead, first, s.meta)
      case RollSegment(sealed, first, last, count, size, newId, newFirst) =>
        t == State(s.segments + [Segment(newId, newFirst)], s.seals[sealed := Seal(first, last, count, size)], Some(newId),
                   s.dead, s.firstEntry, s.meta)
      case TruncateStart(first, drop) =>
        var gone := Elements(drop);
        t == State(Survivors(s.segments, gone), s.seals - gone, s.active, s.dead + gone, first, s.meta)
      case TruncateEnd(target, _, drop) =>
        var gone := Elements(drop);
        t == State(Survivors(s.segments, gone), s.seals - gone - {target}, Some(target), s.dead + gone, s.firstEntry, s.meta)
      case SegmentDeleted(id) => t == s.(dead := s.dead - {id})
      case RecordOrphan(id) => t == s.(dead := s.dead + {id})
      case Metadata => t == s
    ensures Applied(s, entry).value.meta == Merge(s.meta, entry.meta)
  {
    AcceptedIff(s, entry);
    TransitionKeepsMeta(s, entry.op);
    if entry.op.TruncateStart? || entry.op.TruncateEnd? {
      KillAllFrame(s, entry.op.drop);
      KilledAtOnce(s, entry.op.drop);
      hide KillAll, FirstMissing, HasSegment, Survivors, Merge;
    }
  }
}
