/** Rolling back the tail: what `truncate_end` computes, when it is exact, and when it is not. */
module TruncatingEnd {
  import opened Basics
  import opened Frames
  import opened State
  import opened StateLaws
  import opened Codec
  import opened Disk
  import opened Index
  import opened Log
  import opened World
  import opened Invariant

  // ── Finding the target ──────────────────────────────────────────────────────

  lemma TargetSplits(segs: seq<Segment>, last: EntryId)
    requires segs != [] && AscendingFirsts(segs)
    ensures var i := TargetIndex(segs, last);
      && (forall k :: i < k < |segs| ==> segs[k].firstEntry > last)
      && (i > 0 ==> segs[i].firstEntry <= last)
  {
    PrefixSplits(segs, StartsBy(last));
  }

  /** A stored id can only be in the segment `truncate_end` looks in. */
  lemma TargetHolds(s: State, body: Body, last: EntryId, i: nat, j: nat)
    requires StateOk(s) && BodyOk(s, body)
    requires i < |body| && j < |body[i]| && body[i][j].id == last
    ensures TargetIndex(s.segments, last) == i
  {
    TargetSplits(s.segments, last);
    var t := TargetIndex(s.segments, last);
    assert InSegment(s.segments[i], body[i]);
    assert body[i][j].id <= LastId(body[i]);
    assert i + 1 < |body| ==> SealedAt(s, body, i);
  }

  function IndexOfId(fs: seq<Frame>, target: EntryId): (j: Option<nat>)
    ensures j.Some? ==> j.value < |fs| && fs[j.value].id == target
    ensures j.None? ==> forall k :: 0 <= k < |fs| ==> fs[k].id != target
  {
    if fs == [] then None
    else if fs[0].id == target then Some(0)
    else
      match IndexOfId(fs[1..], target)
      case None => None
      case Some(j) => Some(j + 1)
  }

  lemma AfterStep(data: seq<byte>, c: nat, f: Frame, target: EntryId)
    requires c + |Encode(f)| <= |data| && data[c..c + |Encode(f)|] == Encode(f)
    ensures AfterFrom(data, c, target) ==
      if f.id == target then Some(c + |Encode(f)|) else AfterFrom(data, c + |Encode(f)|, target)
  {
    CheckEncoded(data, c, f);
    hide Encode, HeaderAt;
  }

  /** The offset right behind the frame with id `target`, when the frames `fs` start at `c`. */
  function EndOf(c: nat, fs: seq<Frame>, target: EntryId): Option<nat> {
    match IndexOfId(fs, target)
    case None => None
    case Some(j) => Some(c + SizeOf(fs[..j + 1]))
  }

  lemma EndOfStep(c: nat, fs: seq<Frame>, target: EntryId)
    requires fs != []
    ensures EndOf(c, fs, target) ==
      if fs[0].id == target then Some(c + |Encode(fs[0])|) else EndOf(c + |Encode(fs[0])|, fs[1..], target)
  {
    hide Encode;
    assert fs[..1] == [fs[0]] + [];
    EncodeAllCons(fs[0], []);
    match IndexOfId(fs[1..], target)
    case None =>
    case Some(j) => TakeShift(fs, j);
  }

  lemma AfterNothing(data: seq<byte>, target: EntryId)
    ensures AfterFrom(data, |data|, target) == None && EndOf(|data|, [], target) == None
  {
  }

  /** Walking headers over encoded frames stops right behind the frame with the wanted id, or fails. */
  lemma {:induction false} AfterEncoded(data: seq<byte>, c: nat, fs: seq<Frame>, target: EntryId)
    requires c <= |data| && data[c..] == EncodeAll(fs)
    ensures AfterFrom(data, c, target) == EndOf(c, fs, target)
    decreases |fs|
  {
    hide *;
    if fs == [] {
      EncodeAllEmpty();
      assert |data[c..]| == 0;
      AfterNothing(data, target);
    } else {
      var f, n := fs[0], |Encode(fs[0])|;
      FirstAndRest(data, c, fs);
      AfterStep(data, c, f, target);
      EndOfStep(c, fs, target);
      AfterEncoded(data, c + n, fs[1..], target);
    }
  }

  lemma FirstAndRest(data: seq<byte>, c: nat, fs: seq<Frame>)
    requires c <= |data| && data[c..] == EncodeAll(fs) && fs != []
    ensures var n := |Encode(fs[0])|;
      && c + n <= |data| && data[c..c + n] == Encode(fs[0]) && data[c + n..] == EncodeAll(fs[1..])
      && SizeOf(fs[..1]) == n
  {
    FramesAt(data, c, fs, 0);
    FramesAt(data, c, fs, 1);
    EncodeAllEmpty();
    assert fs[..0] == [];
    hide Encode, EncodeAll, SizeOf;
  }

  lemma TakeShift(fs: seq<Frame>, j: nat)
    requires j + 1 < |fs|
    ensures SizeOf(fs[..j + 2]) == |Encode(fs[0])| + SizeOf(fs[1..][..j + 1])
  {
    assert fs[..j + 2] == [fs[0]] + fs[1..][..j + 1];
    EncodeAllCons(fs[0], fs[1..][..j + 1]);
  }

  lemma AfterInImage(fs: seq<Frame>, target: EntryId)
    ensures AfterFrom(Image(fs), MAGIC_LEN, target) ==
      match IndexOfId(fs, target) { case None => None case Some(j) => Some(|Image(fs[..j + 1])|) }
  {
    FileOfBody(SEGMENT_MAGIC, fs);
    hide AfterFrom, EncodeAll, FileOf, SizeOf;
    AfterEncoded(Image(fs), MAGIC_LEN, fs, target);
  }

  // ── The parts of the invariant after an exact cut ───────────────────────────

  function CutBody(body: Body, i: nat, j: nat): Body
    requires i < |body| && j < |body[i]|
  {
    body[..i] + [body[i][..j + 1]]
  }

  lemma CutBodyOk(s: State, body: Body, i: nat, j: nat)
    requires StateOk(s) && BodyOk(s, body) && i < |body| && j < |body[i]|
    ensures BodyOk(RolledBack(s, i), CutBody(body, i, j))
  {
    var t, body' := RolledBack(s, i), CutBody(body, i, j);
    assert forall k :: 0 <= k < i ==> body'[k] == body[k];
    forall k | 0 <= k < |body'|
      ensures InSegment(t.segments[k], body'[k])
    {
      assert InSegment(s.segments[k], body[k]);
    }
    hide InSegment;
    IdSetDisjoint(s.segments, i + 1);
    forall k | 0 <= k < |body'| - 1
      ensures SealedAt(t, body', k)
    {
      assert SealedAt(s, body, k);
      assert s.segments[k].id != s.segments[i].id;
      assert s.segments[..i + 1][k].id in IdSet(s.segments[..i + 1]);
    }
  }

  lemma CutFiles(d: Disk, segs: seq<Segment>, body: Body, i: nat, j: nat)
    requires FilesOk(d, segs, body) && DistinctIds(segs) && i < |body| && j < |body[i]|
    ensures FilesOk(WithSegment(d, segs[i].id, SetLen(FileIn(d, segs[i].id), |Image(body[i][..j + 1])|)),
                    segs[..i + 1], CutBody(body, i, j))
  {
    assert FileAt(d, segs[i], body[i]);
    FileOfTake(SEGMENT_MAGIC, body[i], j + 1);
    hide SetLen, FileOf;
    var d' := WithSegment(d, segs[i].id, SetLen(FileIn(d, segs[i].id), |Image(body[i][..j + 1])|));
    forall k | 0 <= k < i + 1
      ensures FileAt(d', segs[..i + 1][k], CutBody(body, i, j)[k])
    {
      assert FileAt(d, segs[k], body[k]);
      assert k < i ==> segs[k].id != segs[i].id;
    }
  }

  lemma CutIndex(idx: seq<Indexed>, s: State, body: Body, i: nat, j: nat)
    requires IndexSound(idx, s.segments, body) && StateOk(s) && BodyOk(s, body) && i < |body| && j < |body[i]|
    ensures IndexSound(TruncatedEnd(idx, body[i][j].id), s.segments[..i + 1], CutBody(body, i, j))
  {
    var last := body[i][j].id;
    TruncatedEndKeeps(idx, last);
    forall p | Has(TruncatedEnd(idx, last), p)
      ensures Points(p, s.segments[..i + 1], CutBody(body, i, j))
    {
      assert Has(idx, p) && Points(p, s.segments, body);
      var a: nat, b: nat :| PointsAt(p, s.segments, body, a, b);
      PointStays(s, body, i, j, p, a, b);
    }
  }

  lemma PointStays(s: State, body: Body, i: nat, j: nat, p: IndexPosition, a: nat, b: nat)
    requires StateOk(s) && BodyOk(s, body) && i < |body| && j < |body[i]|
    requires PointsAt(p, s.segments, body, a, b) && p.checkpoint <= body[i][j].id
    ensures Points(p, s.segments[..i + 1], CutBody(body, i, j))
  {
    if a > i {
      AcrossSegments(s, body, i, a, j, b);
      assert false;
    }
    assert InSegment(s.segments[i], body[i]);
    assert a == i ==> b <= j;
    assert CutBody(body, i, j)[a][..b] == body[a][..b];
    assert PointsAt(p, s.segments[..i + 1], CutBody(body, i, j), a, b);
  }

  lemma CutIds(m: Mem, d: Disk, i: nat, file: seq<byte>)
    requires IdsOk(m, d) && i < |m.state.segments|
    ensures IdsOk(m.(state := RolledBack(m.state, i)), WithSegment(d, m.state.segments[i].id, file))
  {
    IdSetSplit(m.state.segments, i + 1);
    assert m.state.segments[..i + 1][i].id in IdSet(m.state.segments[..i + 1]);
    hide IdSet;
  }

  lemma {:induction false} ConcatUpTo(body: Body, last: EntryId)
    requires forall k :: 0 <= k < |body| ==> AllUpTo(body[k], last)
    ensures AllUpTo(Concat(body), last)
  {
    if body != [] {
      ConcatUpTo(body[1..], last);
    }
  }

  lemma {:induction false} ConcatAbove(body: Body, last: EntryId)
    requires forall k :: 0 <= k < |body| ==> AllAboveId(body[k], last)
    ensures AllAboveId(Concat(body), last)
  {
    if body != [] {
      ConcatAbove(body[1..], last);
    }
  }

  ghost predicate AllUpTo(fs: seq<Frame>, last: EntryId) {
    forall i :: 0 <= i < |fs| ==> fs[i].id <= last
  }

  ghost predicate AllAboveId(fs: seq<Frame>, last: EntryId) {
    forall i :: 0 <= i < |fs| ==> fs[i].id > last
  }

  /** The cut body holds exactly the entries with id at most the one kept last. */
  lemma CutKeeps(s: State, body: Body, i: nat, j: nat)
    requires StateOk(s) && BodyOk(s, body) && i < |body| && j < |body[i]|
    ensures Concat(CutBody(body, i, j)) == UpToId(Concat(body), body[i][j].id)
  {
    var last := body[i][j].id;
    var kept, gone := body[i][..j + 1], body[i][j + 1..];
    assert InSegment(s.segments[i], body[i]);
    forall k | 0 <= k < i
      ensures AllUpTo(body[..i][k], last)
    {
      forall a | 0 <= a < |body[k]|
        ensures body[k][a].id <= last
      {
        AcrossSegments(s, body, k, i, a, j);
      }
    }
    var tail := body[i + 1..];
    forall k | 0 <= k < |tail|
      ensures AllAboveId(tail[k], last)
    {
      forall a | 0 <= a < |tail[k]|
        ensures tail[k][a].id > last
      {
        AcrossSegments(s, body, i, i + 1 + k, j, a);
      }
    }
    assert AllUpTo(kept, last) && AllAboveId(gone, last);
    hide BodyOk, StateOk, InSegment;
    ConcatUpTo(body[..i], last);
    ConcatAbove(tail, last);
    FilterParts(Concat(body[..i]), kept, gone, Concat(tail), last);
    ConcatAt(body, i);
    assert body[i] == kept + gone;
    ConcatSplit(body[..i], [kept]);
    ConcatOne(kept);
  }

  lemma FilterParts(a: seq<Frame>, kept: seq<Frame>, gone: seq<Frame>, b: seq<Frame>, last: EntryId)
    requires AllUpTo(a, last) && AllUpTo(kept, last) && AllAboveId(gone, last) && AllAboveId(b, last)
    ensures UpToId(a + ((kept + gone) + b), last) == a + kept
  {
    UpToIdConcat(a, (kept + gone) + b, last);
    UpToIdConcat(kept + gone, b, last);
    UpToIdConcat(kept, gone, last);
    UpToIdAll(a, last);
    UpToIdAll(kept, last);
    UpToIdNone(gone, last);
    UpToIdNone(b, last);
    assert kept + [] == kept;
  }

  // ── The operation ───────────────────────────────────────────────────────────

  ghost predicate StoredAt(body: Body, last: EntryId, i: nat, j: nat) {
    i < |body| && j < |body[i]| && body[i][j].id == last
  }

  ghost predicate Stored(body: Body, last: EntryId) {
    exists i: nat, j: nat :: StoredAt(body, last, i, j)
  }

  function Target(w: World, last: EntryId): SegmentId
    requires w.mem.state.segments != []
  {
    w.mem.state.segments[TargetIndex(w.mem.state.segments, last)].id
  }

  /** The scanner starts with its logical position where its reader is: the checkpoint used for `last` lies in
      another segment, or is the first frame of the target. */
  predicate NoDrift(w: World, last: EntryId)
    requires w.mem.state.segments != []
  {
    StartOffset(w.mem, Target(w, last), last) == MAGIC_LEN
  }

  /** Integer widths only: the record fits a frame, and no byte offset leaves 64 bits. */
  ghost predicate CanTruncateEnd(w: World, last: EntryId)
    requires w.mem.state.segments != []
  {
    && |FileIn(w.disk, Target(w, last))| + StartOffset(w.mem, Target(w, last), last) < U64_LIMIT
    && (CutOffset(w, last).Some? ==> Fits(EndOp(w, last, CutOffset(w, last).value)))
  }

  lemma StartAfterMagic(w: World, body: Body, last: EntryId)
    requires Inv(w, body)
    ensures MAGIC_LEN <= StartOffset(w.mem, Target(w, last), last)
  {
    var p := Floor(w.mem.index, last);
    FloorIsGreatest(w.mem.index, last);
    hide Floor, StateOk, BodyOk, FilesOk, CursorOk, LastOk, IdsOk, ManifestOk, TargetIndex;
    if p.Some? {
      assert Points(p.value, w.mem.state.segments, body);
      var i: nat, k: nat :| PointsAt(p.value, w.mem.state.segments, body, i, k);
    }
  }

  lemma TargetFile(w: World, body: Body, last: EntryId)
    requires Inv(w, body)
    ensures var i := TargetIndex(w.mem.state.segments, last);
      && i < |body|
      && OpenSegment(w.disk, Target(w, last)) == Some(Image(body[i]))
      && FileIn(w.disk, Target(w, last)) == Image(body[i])
      && Target(w, last) in w.disk.segments
  {
    var segs, i := w.mem.state.segments, TargetIndex(w.mem.state.segments, last);
    BodyLength(w.mem.state, body);
    assert FileAt(w.disk, segs[i], body[i]);
    FileOfBody(SEGMENT_MAGIC, body[i]);
    hide Inv, FileOf, TargetIndex;
  }

  /** The cut offset when the frame is found: its end, shifted by how far the logical position was ahead. */
  function ShiftedEnd(w: World, fs: seq<Frame>, j: nat, last: EntryId): int
    requires j < |fs| && w.mem.state.segments != []
  {
    |Image(fs[..j + 1])| - MAGIC_LEN + StartOffset(w.mem, Target(w, last), last)
  }

  lemma CutOffsetIs(w: World, body: Body, last: EntryId)
    requires Inv(w, body) && CanTruncateEnd(w, last)
    ensures var i := TargetIndex(w.mem.state.segments, last);
      && i < |body|
      && match IndexOfId(body[i], last) {
           case None => CutOffset(w, last) == None
           case Some(j) => CutOffset(w, last).Some? && CutOffset(w, last).value == ShiftedEnd(w, body[i], j, last)
         }
  {
    hide *;
    TargetFile(w, body, last);
    var i := TargetIndex(w.mem.state.segments, last);
    AfterInImage(body[i], last);
    var j := IndexOfId(body[i], last);
    if j.Some? {
      ImageTake(body[i], j.value + 1);
    }
    CutOffsetOf(w, body[i], last);
  }

  lemma CutOffsetOf(w: World, fs: seq<Frame>, last: EntryId)
    requires w.mem.state.segments != [] && CanTruncateEnd(w, last)
    requires OpenSegment(w.disk, Target(w, last)) == Some(Image(fs)) && FileIn(w.disk, Target(w, last)) == Image(fs)
    requires AfterFrom(Image(fs), MAGIC_LEN, last) ==
      match IndexOfId(fs, last) { case None => None case Some(j) => Some(|Image(fs[..j + 1])|) }
    requires IndexOfId(fs, last).Some? ==> |Image(fs[..IndexOfId(fs, last).value + 1])| <= |Image(fs)|
    ensures match IndexOfId(fs, last) {
      case None => CutOffset(w, last) == None
      case Some(j) => CutOffset(w, last).Some? && CutOffset(w, last).value == ShiftedEnd(w, fs, j, last)
    }
  {
    hide Image, FileOf, TargetIndex, StartOffset, AfterFrom, OpenSegment, FileIn, EndOp, IndexOfId, Fits;
  }

  lemma ImageTake(fs: seq<Frame>, n: nat)
    requires n <= |fs|
    ensures |Image(fs[..n])| <= |Image(fs)|
    ensures SetLen(Image(fs), |Image(fs[..n])|) == Image(fs[..n])
  {
    FileOfTake(SEGMENT_MAGIC, fs, n);
    hide SetLen, FileOf;
  }

  /** The scan fails exactly when no stored entry carries the id. */
  lemma CutFailsIff(w: World, body: Body, last: EntryId)
    requires Inv(w, body) && CanTruncateEnd(w, last)
    ensures CutOffset(w, last).None? <==> !Stored(body, last)
  {
    CutOffsetIs(w, body, last);
    var i := TargetIndex(w.mem.state.segments, last);
    hide CutOffset, TargetIndex, StartOffset, CanTruncateEnd;
    if Stored(body, last) {
      var a: nat, b: nat :| StoredAt(body, last, a, b);
      TargetHolds(w.mem.state, body, last, a, b);
    }
    if IndexOfId(body[i], last).Some? {
      assert StoredAt(body, last, i, IndexOfId(body[i], last).value);
    }
  }

  lemma UniqueId(fs: seq<Frame>, j: nat)
    requires Increasing(fs) && j < |fs|
    ensures IndexOfId(fs, fs[j].id) == Some(j)
  {
  }

  lemma CutStatePart(w: World, body: Body, i: nat, j: nat, offset: u64)
    requires Inv(w, body) && i < |body| && j < |body[i]| && offset == |Image(body[i][..j + 1])|
    ensures var segs := w.mem.state.segments;
      var t, d := RolledBack(w.mem.state, i), WithSegment(w.disk, segs[i].id, SetLen(FileIn(w.disk, segs[i].id), offset));
      && Applied(w.mem.state, Bare(TruncateEnd(segs[i].id, offset, Ids(segs[i + 1..])))) == Success(t)
      && StateOk(t) && BodyOk(t, CutBody(body, i, j))
      && FilesOk(d, segs[..i + 1], CutBody(body, i, j))
      && IdsOk(w.mem.(state := t), d)
      && IndexSound(TruncatedEnd(w.mem.index, body[i][j].id), segs[..i + 1], CutBody(body, i, j))
  {
    var s := w.mem.state;
    BodyLength(s, body);
    assert DistinctIds(s.segments);
    hide StateOk, BodyOk, FilesOk, IdsOk, ManifestOk, IndexSound, CursorOk, LastOk, Applied, RolledBack, Ids, CutBody,
      SetLen, TruncatedEnd;
    TruncateEndKeeps(s, i, offset);
    CutBodyOk(s, body, i, j);
    CutFiles(w.disk, s.segments, body, i, j);
    CutIndex(w.mem.index, s, body, i, j);
    CutIds(w.mem, w.disk, i, SetLen(FileIn(w.disk, s.segments[i].id), offset));
  }

  lemma CutLogged(w: World, i: nat, last: EntryId, offset: u64, t: State)
    requires ManifestOk(w) && i < |w.mem.state.segments| && i == TargetIndex(w.mem.state.segments, last)
    requires Fits(EndOp(w, last, offset))
    requires Applied(w.mem.state, Bare(TruncateEnd(w.mem.state.segments[i].id, offset, Ids(w.mem.state.segments[i + 1..])))) == Success(t)
    ensures var logged := Logged(w.(disk := CutDisk(w, last, offset)), EndOp(w, last, offset));
      && ManifestOk(logged)
      && logged.mem == w.mem.(manifestPos := logged.mem.manifestPos, state := t)
      && logged.disk == CutDisk(w, last, offset).(manifest := logged.disk.manifest)
  {
    var op, cut := EndOp(w, last, offset), w.(disk := CutDisk(w, last, offset));
    assert op == Bare(TruncateEnd(w.mem.state.segments[i].id, offset, Ids(w.mem.state.segments[i + 1..])));
    assert cut.disk.manifest == w.disk.manifest;
    hide *;
    ManifestOkSame(w, cut);
    LoggedKeepsManifest(cut, op, t);
  }

  lemma CutCursor(w': World, body: Body, i: nat, j: nat, t: State)
    requires i < |body| && j < |body[i]| && |t.segments| == i + 1
    requires w'.mem.state == t && w'.mem.activeId == t.segments[i].id && w'.mem.activeFirst == t.segments[i].firstEntry
    requires w'.mem.activePos == |Image(body[i][..j + 1])| && !w'.mem.rolloverPending
    requires w'.mem.lastEntry == Some(body[i][j].id)
    ensures CursorOk(w'.mem, CutBody(body, i, j)) && LastOk(w'.mem.lastEntry, t, CutBody(body, i, j))
  {
    hide Image;
    assert CutBody(body, i, j)[i] == body[i][..j + 1];
  }

  lemma CutParts(w: World, body: Body, i: nat, j: nat, offset: u64)
    requires Inv(w, body) && i < |body| && j < |body[i]| && offset == |Image(body[i][..j + 1])|
    requires var last := body[i][j].id; Fits(EndOp(w, last, offset)) && TargetIndex(w.mem.state.segments, last) == i
    ensures Inv(EndCut(w, body[i][j].id, offset), CutBody(body, i, j))
    ensures EndCut(w, body[i][j].id, offset).mem.state == RolledBack(w.mem.state, i)
  {
    var s, last := w.mem.state, body[i][j].id;
    var d, t, w' := CutDisk(w, last, offset), RolledBack(s, i), EndCut(w, last, offset);
    BodyLength(s, body);
    assert d == WithSegment(w.disk, s.segments[i].id, SetLen(FileIn(w.disk, s.segments[i].id), offset));
    RolledBackSegments(s, i);
    assert ManifestOk(w);
    hide Inv, StateOk, BodyOk, FilesOk, IdsOk, ManifestOk, IndexSound, CursorOk, LastOk, Applied, RolledBack, Ids,
      CutBody, SetLen, Image, Fits, TruncatedEnd, TargetIndex, Logged, EndCut, CutDisk, EndOp;
    CutStatePart(w, body, i, j, offset);
    CutLogged(w, i, last, offset, t);
    CutMem(w, i, last, offset, t);
    CutCursor(w', body, i, j, t);
    InvFromParts(w', CutBody(body, i, j), Logged(w.(disk := d), EndOp(w, last, offset)), w.mem.(state := t), d);
  }

  lemma RolledBackSegments(s: State, i: nat)
    requires i < |s.segments|
    ensures RolledBack(s, i).segments == s.segments[..i + 1] && RolledBack(s, i).segments[i] == s.segments[i]
  {
  }

  lemma CutMem(w: World, i: nat, last: EntryId, offset: u64, t: State)
    requires i < |w.mem.state.segments| && i == TargetIndex(w.mem.state.segments, last)
    requires var logged := Logged(w.(disk := CutDisk(w, last, offset)), EndOp(w, last, offset));
      && logged.mem == w.mem.(manifestPos := logged.mem.manifestPos, state := t)
      && logged.disk == CutDisk(w, last, offset).(manifest := logged.disk.manifest)
    ensures var logged, w' := Logged(w.(disk := CutDisk(w, last, offset)), EndOp(w, last, offset)), EndCut(w, last, offset);
      && w'.disk == logged.disk && w'.mem.manifestPos == logged.mem.manifestPos
      && w'.mem.state == t && w'.mem.nextId == w.mem.nextId
      && w'.mem.activeId == w.mem.state.segments[i].id && w'.mem.activeFirst == w.mem.state.segments[i].firstEntry
      && w'.mem.activePos == offset && w'.mem.lastEntry == Some(last) && !w'.mem.rolloverPending
      && w'.mem.index == TruncatedEnd(w.mem.index, last)
  {
    hide Logged, CutDisk, EndOp, TruncatedEnd, TargetIndex;
  }

  /** `truncate_end`, all outcomes.  At or past the last id nothing happens; an id that is not stored is an
      error with memory and disk unchanged; otherwise the result is a valid store if and only if the scanner
      started without drift, and then it holds exactly the entries with id at most `last`, with file length,
      write cursor and last id agreeing. */
  lemma TruncateEndExact(w: World, body: Body, last: EntryId)
    requires Inv(w, body) && CanTruncateEnd(w, last)
    ensures IsEndNoop(w.mem, last) ==> EndTruncated(w, last) == Some(w)
    ensures !IsEndNoop(w.mem, last) ==> (EndTruncated(w, last).None? <==> !Stored(body, last))
    ensures !IsEndNoop(w.mem, last) && Stored(body, last) ==>
      var w' := EndTruncated(w, last).value;
      && (Valid(w') <==> NoDrift(w, last))
      && (NoDrift(w, last) ==> Entries(w') == UpToId(Concat(body), last) && w'.mem.lastEntry == Some(last))
  {
    CutFailsIff(w, body, last);
    if !IsEndNoop(w.mem, last) && Stored(body, last) {
      var i: nat, j: nat :| StoredAt(body, last, i, j);
      TargetHolds(w.mem.state, body, last, i, j);
      if NoDrift(w, last) {
        ExactCut(w, body, i, j);
      } else {
        DriftedCut(w, body, i, j);
      }
    }
  }

  lemma ExactCut(w: World, body: Body, i: nat, j: nat)
    requires Inv(w, body) && i < |body| && j < |body[i]|
    requires var last := body[i][j].id;
      !IsEndNoop(w.mem, last) && CanTruncateEnd(w, last) && NoDrift(w, last) && TargetIndex(w.mem.state.segments, last) == i
    ensures var last := body[i][j].id;
      var r := EndTruncated(w, last);
      && r.Some? && Inv(r.value, CutBody(body, i, j)) && Valid(r.value)
      && r.value.mem.state == RolledBack(w.mem.state, i)
      && Entries(r.value) == UpToId(Concat(body), last)
      && r.value.mem.lastEntry == Some(last)
  {
    hide *;
    HasSegments(w, body);
    var last := body[i][j].id;
    CutOffsetIs(w, body, last);
    UniqueId(body[i], j);
    ExactEnd(w, body[i], j, last);
    CutKeeps(w.mem.state, body, i, j);
    CutFits(w, last);
    CutParts(w, body, i, j, CutOffset(w, last).value);
    EndTruncatedIs(w, last);
    InvIsValid(EndTruncated(w, last).value, CutBody(body, i, j));
    EntriesOf(EndTruncated(w, last).value, CutBody(body, i, j));
  }

  lemma HasSegments(w: World, body: Body)
    requires Inv(w, body)
    ensures 0 < |body| == |w.mem.state.segments| && StateOk(w.mem.state) && BodyOk(w.mem.state, body)
    ensures forall i :: 0 <= i < |body| ==> Increasing(body[i])
  {
    assert forall i :: 0 <= i < |body| ==> InSegment(w.mem.state.segments[i], body[i]);
    hide StateOk, FilesOk, IdsOk, ManifestOk, IndexSound, LastOk, Increasing, SealedAt;
  }

  lemma CutFits(w: World, last: EntryId)
    requires w.mem.state.segments != [] && CanTruncateEnd(w, last) && CutOffset(w, last).Some?
    ensures Fits(EndOp(w, last, CutOffset(w, last).value))
  {
    hide Fits, EndOp, CutOffset;
  }

  lemma EndTruncatedIs(w: World, last: EntryId)
    requires w.mem.state.segments != [] && !IsEndNoop(w.mem, last) && CutOffset(w, last).Some?
    ensures EndTruncated(w, last) == Some(EndCut(w, last, CutOffset(w, last).value))
    ensures EndCut(w, last, CutOffset(w, last).value).mem.lastEntry == Some(last)
  {
    hide CutOffset, EndOp, CutDisk, Logged, TruncatedEnd;
  }

  lemma EntriesOf(w: World, body: Body)
    requires BodyOf(w.disk, w.mem.state.segments) == body
    ensures Entries(w) == Concat(body)
  {
  }

  lemma ExactEnd(w: World, fs: seq<Frame>, j: nat, last: EntryId)
    requires j < |fs| && w.mem.state.segments != [] && NoDrift(w, last)
    ensures ShiftedEnd(w, fs, j, last) == |Image(fs[..j + 1])|
  {
    hide Image, StartOffset;
  }

  lemma DriftedEnd(w: World, fs: seq<Frame>, j: nat, last: EntryId)
    requires j < |fs| && w.mem.state.segments != [] && !NoDrift(w, last)
    requires MAGIC_LEN <= StartOffset(w.mem, Target(w, last), last)
    ensures ShiftedEnd(w, fs, j, last) > |Image(fs[..j + 1])|
  {
    hide Image, StartOffset, Target;
  }

  lemma SetLenLength(file: seq<byte>, n: nat)
    ensures |SetLen(file, n)| == n
  {
  }

  lemma TargetIs(w: World, last: EntryId)
    requires w.mem.state.segments != []
    ensures Target(w, last) == w.mem.state.segments[TargetIndex(w.mem.state.segments, last)].id
  {
    hide TargetIndex;
  }

  /** With drift the file is cut behind bytes that do not belong to it, and the store is no longer valid. */
  lemma DriftedCut(w: World, body: Body, i: nat, j: nat)
    requires Inv(w, body) && i < |body| && j < |body[i]|
    requires var last := body[i][j].id;
      !IsEndNoop(w.mem, last) && CanTruncateEnd(w, last) && !NoDrift(w, last) && TargetIndex(w.mem.state.segments, last) == i
    ensures var last := body[i][j].id;
      var r := EndTruncated(w, last);
      && r.Some? && !Valid(r.value)
      && |FileIn(r.value.disk, Target(w, last))| == r.value.mem.activePos > |Image(body[i][..j + 1])|
  {
    hide *;
    var s, last := w.mem.state, body[i][j].id;
    HasSegments(w, body);
    CutOffsetIs(w, body, last);
    UniqueId(body[i], j);
    StartAfterMagic(w, body, last);
    DriftedEnd(w, body[i], j, last);
    TargetIs(w, last);
    TargetFile(w, body, last);
    var offset := CutOffset(w, last).value;
    DriftedFile(body[i], j, offset);
    SetLenLength(Image(body[i]), offset);
    TruncateEndKeeps(s, i, offset);
    EndTruncatedIs(w, last);
    DriftedWorld(w, last, offset, i);
    if Valid(EndTruncated(w, last).value) {
      ValidPinsCursor(EndTruncated(w, last).value, i, body[i], j);
    }
  }

  lemma DriftedWorld(w: World, last: EntryId, offset: u64, i: nat)
    requires i < |w.mem.state.segments| && TargetIndex(w.mem.state.segments, last) == i
    requires Applied(w.mem.state, Bare(TruncateEnd(w.mem.state.segments[i].id, offset, Ids(w.mem.state.segments[i + 1..]))))
          == Success(RolledBack(w.mem.state, i))
    ensures var w' := EndCut(w, last, offset);
      && w'.mem.state.segments == w.mem.state.segments[..i + 1]
      && w'.mem.lastEntry == Some(last) && w'.mem.activePos == offset
      && FileIn(w'.disk, w.mem.state.segments[i].id) == SetLen(FileIn(w.disk, w.mem.state.segments[i].id), offset)
  {
    hide Applied, TargetIndex, WriteAt, Encode, SetLen, TruncatedEnd, Ids;
  }

  /** The wanted frames are still there, with something behind them. */
  lemma DriftedFile(fs: seq<Frame>, j: nat, offset: nat)
    requires j < |fs| && offset > |Image(fs[..j + 1])|
    ensures var file := SetLen(Image(fs), offset);
      && |file| >= MAGIC_LEN
      && var w := Walk(file, MAGIC_LEN);
         |w.frames| >= j + 1 && w.frames[..j + 1] == fs[..j + 1]
  {
    var file, kept := SetLen(Image(fs), offset), fs[..j + 1];
    ImageTake(fs, j + 1);
    FileOfBody(SEGMENT_MAGIC, kept);
    var e := |Image(kept)|;
    LongerPrefix(Image(fs), e, offset);
    assert file[..e] == Image(kept);
    SliceOfTake(file, e, MAGIC_LEN, e);
    hide *;
    WalkEncoded(file, MAGIC_LEN, kept);
    var rest := Walk(file, MAGIC_LEN + SizeOf(kept)).frames;
    assert (kept + rest)[..j + 1] == kept;
  }

  lemma LongerPrefix(file: seq<byte>, e: nat, n: nat)
    requires e <= n && e <= |file|
    ensures SetLen(file, n)[..e] == SetLen(file, e)
  {
  }

  /** In a valid store whose active file starts with these frames and whose last id is that of the last of
      them, nothing follows them: the write cursor is right behind. */
  lemma ValidPinsCursor(w: World, i: nat, fs: seq<Frame>, j: nat)
    requires Valid(w) && j < |fs| && |w.mem.state.segments| == i + 1 && w.mem.lastEntry == Some(fs[j].id)
    requires var file := FileIn(w.disk, w.mem.state.segments[i].id);
      |file| >= MAGIC_LEN && |Walk(file, MAGIC_LEN).frames| >= j + 1 && Walk(file, MAGIC_LEN).frames[..j + 1] == fs[..j + 1]
    ensures w.mem.activePos == |Image(fs[..j + 1])|
  {
    var body := BodyOf(w.disk, w.mem.state.segments);
    var got := body[i];
    assert got == Walk(FileIn(w.disk, w.mem.state.segments[i].id), MAGIC_LEN).frames;
    assert InSegment(w.mem.state.segments[i], got);
    assert w.mem.activePos == |Image(got)| && w.mem.lastEntry == Some(LastId(got));
    hide Valid, Image, Walk;
    assert got[j] == got[..j + 1][j] == fs[j];
    assert |got| == j + 1;
    assert got == got[..j + 1];
  }
}
