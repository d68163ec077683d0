/** Advancing the log head keeps the invariant and hides exactly the entries below the new head. */
module TruncatingStart {
  import opened Basics
  import opened Frames
  import opened State
  import opened StateLaws
  import opened Codec
  import opened Disk
  import opened Index
  import opened Log
  import opened World
  import opened Invariant

  predicate Evictable(seals: map<SegmentId, Seal>, seg: Segment, first: EntryId) {
    seg.id in seals && seals[seg.id].lastEntry < first
  }

  function EvictCount(segs: seq<Segment>, seals: map<SegmentId, Seal>, first: EntryId): (k: nat)
    ensures k <= |segs|
    ensures forall i :: 0 <= i < k ==> Evictable(seals, segs[i], first)
    ensures k < |segs| ==> !Evictable(seals, segs[k], first)
  {
    if segs == [] || !Evictable(seals, segs[0], first) then 0 else 1 + EvictCount(segs[1..], seals, first)
  }

  lemma {:induction false} NoneEvicted(segs: seq<Segment>, seals: map<SegmentId, Seal>, first: EntryId)
    requires forall i :: 0 <= i < |segs| ==> !Evictable(seals, segs[i], first)
    ensures Evicted(segs, seals, first) == []
  {
    if segs != [] {
      NoneEvicted(segs[1..], seals, first);
    }
  }

  lemma {:induction false} EvictedIsPrefix(segs: seq<Segment>, seals: map<SegmentId, Seal>, first: EntryId)
    requires forall i, j :: 0 <= i < j < |segs| && Evictable(seals, segs[j], first) ==> Evictable(seals, segs[i], first)
    ensures Evicted(segs, seals, first) == Ids(segs[..EvictCount(segs, seals, first)])
  {
    if segs == [] {
    } else if !Evictable(seals, segs[0], first) {
      NoneEvicted(segs, seals, first);
    } else {
      var k := EvictCount(segs, seals, first);
      EvictedIsPrefix(segs[1..], seals, first);
      assert segs[..k] == [segs[0]] + segs[1..][..k - 1];
      assert Ids(segs[..k]) == [segs[0].id] + Ids(segs[1..][..k - 1]);
    }
  }

  /** Only sealed segments can be evicted, and a sealed one is evicted exactly when its last frame is below. */
  lemma EvictableIff(s: State, body: Body, first: EntryId, i: nat)
    requires StateOk(s) && BodyOk(s, body) && i < |body|
    ensures i == |body| - 1 ==> !Evictable(s.seals, s.segments[i], first)
    ensures i < |body| - 1 ==> body[i] != [] && (Evictable(s.seals, s.segments[i], first) <==> LastId(body[i]) < first)
  {
    var n := |body|;
    if i == n - 1 {
      IdSetDisjoint(s.segments, n - 1);
      assert s.segments[n - 1..][0] == s.segments[n - 1];
      assert s.segments[n - 1].id in IdSet(s.segments[n - 1..]);
    } else {
      assert SealedAt(s, body, i);
    }
  }

  lemma EvictionMonotone(s: State, body: Body, first: EntryId, i: nat, j: nat)
    requires StateOk(s) && BodyOk(s, body) && i < j < |body| && Evictable(s.seals, s.segments[j], first)
    ensures Evictable(s.seals, s.segments[i], first)
  {
    EvictableIff(s, body, first, i);
    EvictableIff(s, body, first, j);
    AcrossSegments(s, body, i, j, |body[i]| - 1, |body[j]| - 1);
  }

  /** The segments evicted for a new head are the leading ones that hold nothing at or above it: all of the sealed ones
      that do, and never the active one. */
  lemma EvictedSegments(s: State, body: Body, first: EntryId)
    requires StateOk(s) && BodyOk(s, body)
    ensures var k := EvictCount(s.segments, s.seals, first);
      && k < |body|
      && Evicted(s.segments, s.seals, first) == Ids(s.segments[..k])
      && (forall i :: 0 <= i < k ==> body[i] != [] && LastId(body[i]) < first)
      && (forall i :: k <= i < |body| - 1 ==> body[i] != [] && LastId(body[i]) >= first)
  {
    var k := EvictCount(s.segments, s.seals, first);
    BodyLength(s, body);
    EvictableIff(s, body, first, |body| - 1);
    forall i, j | 0 <= i < j < |s.segments| && Evictable(s.seals, s.segments[j], first)
      ensures Evictable(s.seals, s.segments[i], first)
    {
      EvictionMonotone(s, body, first, i, j);
    }
    EvictedIsPrefix(s.segments, s.seals, first);
    hide StateOk, BodyOk, Evictable, LastId, Evicted;
    forall i | 0 <= i < k
      ensures body[i] != [] && LastId(body[i]) < first
    {
      EvictableIff(s, body, first, i);
    }
    forall i | k <= i < |body| - 1
      ensures body[i] != [] && LastId(body[i]) >= first
    {
      EvictableIff(s, body, first, i);
    }
  }

  // ── The parts of the invariant ──────────────────────────────────────────────

  lemma HeadMovedBody(s: State, body: Body, first: EntryId, k: nat, meta: seq<Pair>)
    requires StateOk(s) && BodyOk(s, body) && k < |body|
    ensures BodyOk(HeadMoved(s, first, k, meta), body[k..])
  {
    var t := HeadMoved(s, first, k, meta);
    forall i | 0 <= i < |body| - k
      ensures InSegment(t.segments[i], body[k..][i])
    {
      assert InSegment(s.segments[i + k], body[i + k]);
    }
    IdSetDisjoint(s.segments, k);
    hide InSegment;
    forall i | 0 <= i < |body| - k - 1
      ensures SealedAt(t, body[k..], i)
    {
      assert SealedAt(s, body, i + k);
      assert s.segments[k..][i] == s.segments[i + k];
      assert t.segments[i].id in IdSet(s.segments[k..]);
    }
  }

  lemma HeadMovedFiles(d: Disk, segs: seq<Segment>, body: Body, k: nat)
    requires FilesOk(d, segs, body) && k <= |body|
    ensures FilesOk(d, segs[k..], body[k..])
  {
    forall i | 0 <= i < |body| - k
      ensures FileAt(d, segs[k..][i], body[k..][i])
    {
      assert FileAt(d, segs[i + k], body[i + k]);
    }
  }

  lemma LastMoved(last: Option<EntryId>, s: State, body: Body, t: State, body': Body, k: nat)
    requires LastOk(last, s, body) && k < |body| && |body'| == |t.segments| == |body| - k
    requires forall i :: 0 <= i < |body'| ==> body'[i] == body[i + k] && t.segments[i] == s.segments[i + k]
    requires s.firstEntry <= t.firstEntry
    requires var n := |body| - 1;
      n > 0 && body[n] == [] ==>
        && body[n - 1] != [] && LastId(body[n - 1]) < s.segments[n].firstEntry
        && (k == n ==> LastId(body[n - 1]) < t.firstEntry)
    ensures LastOk(last, t, body')
  {
    hide LastId;
    assert body'[|body'| - 1] == body[|body| - 1] && t.segments[|body'| - 1] == s.segments[|body| - 1];
  }

  lemma HeadMovedLast(last: Option<EntryId>, s: State, body: Body, first: EntryId, k: nat, meta: seq<Pair>)
    requires BodyOk(s, body) && LastOk(last, s, body) && k < |body| && s.firstEntry <= first
    requires forall i :: 0 <= i < k ==> body[i] != [] && LastId(body[i]) < first
    ensures LastOk(last, HeadMoved(s, first, k, meta), body[k..])
  {
    hide Merge, IdSet, LastOk, InSegment, LastId;
    var n := |body| - 1;
    if n > 0 {
      assert SealedAt(s, body, n - 1);
    }
    LastMoved(last, s, body, HeadMoved(s, first, k, meta), body[k..], k);
  }

  ghost predicate FramesBelow(fs: seq<Frame>, first: EntryId) {
    forall i :: 0 <= i < |fs| ==> fs[i].id < first
  }

  lemma DroppedBelow(s: State, body: Body, first: EntryId, k: nat)
    requires BodyOk(s, body) && k <= |body|
    requires forall i :: 0 <= i < k ==> body[i] != [] && LastId(body[i]) < first
    ensures forall i :: 0 <= i < k ==> FramesBelow(body[i], first)
  {
    forall i | 0 <= i < k
      ensures FramesBelow(body[i], first)
    {
      assert InSegment(s.segments[i], body[i]);
      assert forall j :: 0 <= j < |body[i]| ==> body[i][j].id <= LastId(body[i]);
    }
  }

  lemma HeadMovedIndex(idx: seq<Indexed>, s: State, body: Body, first: EntryId, k: nat)
    requires IndexSound(idx, s.segments, body) && BodyOk(s, body) && k < |body|
    requires forall i :: 0 <= i < k ==> body[i] != [] && LastId(body[i]) < first
    ensures IndexSound(TruncatedStart(idx, first), s.segments[k..], body[k..])
  {
    TruncatedStartKeeps(idx, first);
    DroppedBelow(s, body, first, k);
    hide BodyOk, InSegment, IndexOk, TruncatedStart;
    forall p | Has(TruncatedStart(idx, first), p)
      ensures Points(p, s.segments[k..], body[k..])
    {
      assert Points(p, s.segments, body);
      var i: nat, j: nat :| PointsAt(p, s.segments, body, i, j);
      assert i >= k;
      assert PointsAt(p, s.segments[k..], body[k..], i - k, j);
    }
  }

  lemma HeadMovedCursor(m: Mem, body: Body, first: EntryId, k: nat, meta: seq<Pair>, pos: nat, idx: seq<Indexed>)
    requires CursorOk(m, body) && k < |body|
    ensures CursorOk(m.(manifestPos := pos, state := HeadMoved(m.state, first, k, meta), index := idx), body[k..])
  {
    assert body[k..][|body| - k - 1] == body[|body| - 1];
    assert m.state.segments[k..][|body| - k - 1] == m.state.segments[|body| - 1];
    hide Merge, IdSet;
  }

  lemma HeadMovedIdsOk(m: Mem, d: Disk, first: EntryId, k: nat, meta: seq<Pair>)
    requires IdsOk(m, d) && k <= |m.state.segments|
    ensures IdsOk(m.(state := HeadMoved(m.state, first, k, meta)), d)
  {
    IdSetSplit(m.state.segments, k);
    hide Merge, IdSet;
  }

  ghost predicate CanTruncateStart(m: Mem, first: EntryId, meta: seq<Pair>) {
    Fits(ManifestOp(TruncateStart(first, Evicted(m.state.segments, m.state.seals, first)), meta))
  }

  /** Truncating the start is refused exactly when it would move the head back; otherwise it keeps the
      invariant and drops exactly the leading segments without entries at or above the new head. */
  lemma StartKeepsInv(w: World, body: Body, first: EntryId, meta: seq<Pair>)
    requires Inv(w, body) && CanTruncateStart(w.mem, first, meta)
    ensures StartTruncated(w, first, meta).None? <==> first < w.mem.state.firstEntry
    ensures first >= w.mem.state.firstEntry ==>
      var k := EvictCount(w.mem.state.segments, w.mem.state.seals, first);
      var w' := StartTruncated(w, first, meta).value;
      && k < |body| && Inv(w', body[k..])
      && w'.mem.state == HeadMoved(w.mem.state, first, k, meta)
      && w'.mem.lastEntry == w.mem.lastEntry
      && AtLeast(Concat(body[k..]), first) == AtLeast(Concat(body), first)
  {
    if first >= w.mem.state.firstEntry {
      var s := w.mem.state;
      var k := EvictCount(s.segments, s.seals, first);
      EvictedSegments(s, body, first);
      StartParts(w, body, first, k, meta);
      StartHides(s, body, first, k);
    }
  }

  lemma StartHides(s: State, body: Body, first: EntryId, k: nat)
    requires BodyOk(s, body) && k < |body|
    requires forall i :: 0 <= i < k ==> body[i] != [] && LastId(body[i]) < first
    ensures AtLeast(Concat(body[k..]), first) == AtLeast(Concat(body), first)
  {
    assert body == body[..k] + body[k..];
    ConcatSplit(body[..k], body[k..]);
    AtLeastConcat(Concat(body[..k]), Concat(body[k..]), first);
    DroppedBelow(s, body, first, k);
    ConcatBelow(body[..k], first);
    AtLeastNone(Concat(body[..k]), first);
    assert [] + AtLeast(Concat(body[k..]), first) == AtLeast(Concat(body[k..]), first);
  }

  lemma {:induction false} ConcatBelow(body: Body, first: EntryId)
    requires forall i :: 0 <= i < |body| ==> FramesBelow(body[i], first)
    ensures FramesBelow(Concat(body), first)
  {
    if body != [] {
      ConcatBelow(body[1..], first);
    }
  }

  lemma StartParts(w: World, body: Body, first: EntryId, k: nat, meta: seq<Pair>)
    requires Inv(w, body) && first >= w.mem.state.firstEntry && k < |body|
    requires var s := w.mem.state; Evicted(s.segments, s.seals, first) == Ids(s.segments[..k])
    requires Fits(ManifestOp(TruncateStart(first, Ids(w.mem.state.segments[..k])), meta))
    requires forall i :: 0 <= i < k ==> body[i] != [] && LastId(body[i]) < first
    ensures var w' := StartTruncated(w, first, meta).value;
      && Inv(w', body[k..])
      && w'.mem.state == HeadMoved(w.mem.state, first, k, meta)
      && w'.mem.lastEntry == w.mem.lastEntry
  {
    var s, m := w.mem.state, w.mem;
    var entry := ManifestOp(TruncateStart(first, Ids(s.segments[..k])), meta);
    var t, idx := HeadMoved(s, first, k, meta), TruncatedStart(m.index, first);
    assert StateOk(s) && k < |s.segments|;
    assert BodyOk(s, body) && FilesOk(w.disk, s.segments, body) && LastOk(m.lastEntry, s, body) && IdsOk(m, w.disk);
    assert ManifestOk(w) && CursorOk(m, body) && IndexSound(m.index, s.segments, body);
    var w' := StartTruncated(w, first, meta).value;
    var logged := Logged(w, entry);
    assert w' == logged.(mem := logged.mem.(index := idx));
    hide StateOk, BodyOk, FilesOk, LastOk, IdsOk, ManifestOk, CursorOk, IndexSound, Logged, HeadMoved, Ids;
    TruncateStartKeeps(s, first, k, meta);
    LoggedKeepsManifest(w, entry, t);
    HeadMovedParts(w, body, first, k, meta, logged.mem.manifestPos);
    HeadMovedSegments(s, first, k, meta);
    IgnoresIndex(w', logged);
    OnlyState(m.(state := t), w'.mem, w.disk, w'.disk);
  }

  lemma HeadMovedParts(w: World, body: Body, first: EntryId, k: nat, meta: seq<Pair>, pos: nat)
    requires Inv(w, body) && k < |body| && w.mem.state.firstEntry <= first
    requires forall i :: 0 <= i < k ==> body[i] != [] && LastId(body[i]) < first
    ensures var m := w.mem;
      var t, idx := HeadMoved(m.state, first, k, meta), TruncatedStart(m.index, first);
      && BodyOk(t, body[k..])
      && FilesOk(w.disk, m.state.segments[k..], body[k..])
      && LastOk(m.lastEntry, t, body[k..])
      && IndexSound(idx, m.state.segments[k..], body[k..])
      && CursorOk(m.(manifestPos := pos, state := t, index := idx), body[k..])
      && IdsOk(m.(state := t), w.disk)
  {
    var s, m := w.mem.state, w.mem;
    BodyLength(s, body);
    hide StateOk, BodyOk, FilesOk, LastOk, IdsOk, ManifestOk, CursorOk, IndexSound, HeadMoved, TruncatedStart;
    HeadMovedBody(s, body, first, k, meta);
    HeadMovedFiles(w.disk, s.segments, body, k);
    HeadMovedLast(m.lastEntry, s, body, first, k, meta);
    HeadMovedIndex(m.index, s, body, first, k);
    HeadMovedCursor(m, body, first, k, meta, pos, TruncatedStart(m.index, first));
    HeadMovedIdsOk(m, w.disk, first, k, meta);
  }

  lemma HeadMovedSegments(s: State, first: EntryId, k: nat, meta: seq<Pair>)
    requires k <= |s.segments|
    ensures HeadMoved(s, first, k, meta).segments == s.segments[k..]
  {
  }

  lemma IgnoresIndex(w': World, w: World)
    requires w'.disk == w.disk && w'.mem.state == w.mem.state && w'.mem.manifestPos == w.mem.manifestPos
    ensures ManifestOk(w') <==> ManifestOk(w)
  {
    hide ManifestHolds;
  }

  lemma OnlyState(m: Mem, m': Mem, d: Disk, d': Disk)
    requires m.state == m'.state && m.nextId == m'.nextId && d.segments == d'.segments
    ensures IdsOk(m, d) <==> IdsOk(m', d')
    ensures forall segs, body :: FilesOk(d, segs, body) <==> FilesOk(d', segs, body)
  {
    hide IdSet;
    forall segs, body
      ensures FilesOk(d, segs, body) <==> FilesOk(d', segs, body)
    {
      SameFiles(d, d', segs, body);
      SameFiles(d', d, segs, body);
    }
  }

  lemma SameFiles(d: Disk, d': Disk, segs: seq<Segment>, body: Body)
    requires d.segments == d'.segments
    ensures FilesOk(d, segs, body) ==> FilesOk(d', segs, body)
  {
    if FilesOk(d, segs, body) {
      forall i | 0 <= i < |body|
        ensures FileAt(d', segs[i], body[i])
      {
        assert FileAt(d, segs[i], body[i]);
      }
    }
  }
}
