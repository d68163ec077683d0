/** What holds of memory and disk between operations. */
module Invariant {
  import opened Basics
  import opened Frames
  import opened State
  import opened StateLaws
  import opened Codec
  import opened Disk
  import opened Index
  import opened Log
  import opened World

  ghost predicate FileAt(d: Disk, seg: Segment, fs: seq<Frame>) {
    seg.id in d.segments && d.segments[seg.id] == Image(fs)
  }

  /** Every live segment file is the magic followed by its body's frames, and nothing else. */
  ghost predicate FilesOk(d: Disk, segs: seq<Segment>, body: Body) {
    |body| == |segs| && forall i :: 0 <= i < |body| ==> FileAt(d, segs[i], body[i])
  }

  /** The files on disk are exactly the live and the dead segments, and all ids lie below the next one. */
  ghost predicate IdsOk(m: Mem, d: Disk) {
    && d.segments.Keys == IdSet(m.state.segments) + m.state.dead
    && forall id :: id in d.segments ==> id < m.nextId
  }

  /** The in-memory last entry id is that of the last frame on disk; when no live segment holds a frame it is
      absent or hidden below the head. */
  ghost predicate LastOk(last: Option<EntryId>, s: State, body: Body) {
    && 0 < |body| == |s.segments|
    && var n := |body| - 1;
       if body[n] != [] then last == Some(LastId(body[n]))
       else if n > 0 && body[n - 1] != [] then last == Some(LastId(body[n - 1]))
       else last.Some? ==> last.value < s.firstEntry && last.value < s.segments[n].firstEntry
  }

  ghost predicate CursorOk(m: Mem, body: Body) {
    && 0 < |body| == |m.state.segments|
    && var n := |body| - 1;
       && m.activeId == m.state.segments[n].id
       && m.activeFirst == m.state.segments[n].firstEntry
       && m.activePos == |Image(body[n])|
       && (m.rolloverPending ==> body[n] != [])
  }

  /** A checkpoint is true when it names a live segment and the start of the frame carrying its id. */
  ghost predicate PointsAt(p: IndexPosition, segs: seq<Segment>, body: Body, i: nat, k: nat) {
    && i < |segs| == |body| && k < |body[i]|
    && p == IndexPosition(segs[i].id, body[i][k].id, |Image(body[i][..k])|)
  }

  ghost predicate Points(p: IndexPosition, segs: seq<Segment>, body: Body) {
    exists i: nat, k: nat :: PointsAt(p, segs, body, i, k)
  }

  ghost predicate IndexSound(idx: seq<Indexed>, segs: seq<Segment>, body: Body) {
    IndexOk(idx) && forall p :: Has(idx, p) ==> Points(p, segs, body)
  }

  ghost predicate ManifestOk(w: World) {
    ManifestHolds(w.disk.manifest, w.mem.state) && w.mem.manifestPos == |w.disk.manifest|
  }

  ghost predicate Inv(w: World, body: Body) {
    && StateOk(w.mem.state)
    && BodyOk(w.mem.state, body)
    && FilesOk(w.disk, w.mem.state.segments, body)
    && CursorOk(w.mem, body)
    && LastOk(w.mem.lastEntry, w.mem.state, body)
    && IdsOk(w.mem, w.disk)
    && ManifestOk(w)
    && IndexSound(w.mem.index, w.mem.state.segments, body)
  }

  /** The bodies as read back from the segment files. */
  function BodyOf(d: Disk, segs: seq<Segment>): Body {
    seq(|segs|, i requires 0 <= i < |segs| => FramesIn(FileIn(d, segs[i].id)))
  }

  function FramesIn(file: seq<byte>): seq<Frame> {
    if |file| < MAGIC_LEN then [] else Walk(file, MAGIC_LEN).frames
  }

  ghost predicate Valid(w: World) {
    Inv(w, BodyOf(w.disk, w.mem.state.segments))
  }

  /** The body in the invariant is no free choice: it is what the files say. */
  lemma BodyIsRead(d: Disk, segs: seq<Segment>, body: Body)
    requires FilesOk(d, segs, body)
    ensures BodyOf(d, segs) == body
  {
    forall i | 0 <= i < |body|
      ensures BodyOf(d, segs)[i] == body[i]
    {
      assert FileAt(d, segs[i], body[i]);
      FileOfWalk(SEGMENT_MAGIC, body[i]);
    }
  }

  lemma InvIsValid(w: World, body: Body)
    requires Inv(w, body)
    ensures Valid(w) && BodyOf(w.disk, w.mem.state.segments) == body
  {
    BodyIsRead(w.disk, w.mem.state.segments, body);
  }

  /** In every valid world replaying the manifest bytes gives exactly the in-memory state, and the manifest
      cursor is at the end of the manifest. */
  lemma ManifestIsTheState(w: World)
    requires Valid(w)
    ensures w.mem.manifestPos == |w.disk.manifest|
    ensures ReplayFrom(w.disk.manifest, MAGIC_LEN, EMPTY) == Replayed(w.mem.state, w.mem.manifestPos)
  {
    HoldsReadable(w.disk.manifest, w.mem.state);
    ReadableReplays(w.disk.manifest, w.mem.state);
  }

  /** The physically stored live log. */
  function Entries(w: World): seq<Frame> {
    Concat(BodyOf(w.disk, w.mem.state.segments))
  }

  /** The accessible log: stored entries with id at or above the head. */
  function Visible(w: World): seq<Frame> {
    AtLeast(Entries(w), w.mem.state.firstEntry)
  }

  lemma EntriesIncrease(w: World)
    requires Valid(w)
    ensures Increasing(Entries(w))
  {
    BodyIsOrdered(w.mem.state, BodyOf(w.disk, w.mem.state.segments));
    ConcatIncreasing(BodyOf(w.disk, w.mem.state.segments));
  }

  lemma PointsGrows(p: IndexPosition, segs: seq<Segment>, body: Body, segs': seq<Segment>, body': Body)
    requires Points(p, segs, body)
    requires |body| == |segs| <= |segs'| == |body'|
    requires forall i :: 0 <= i < |segs| ==> segs[i].id == segs'[i].id && body[i] <= body'[i]
    ensures Points(p, segs', body')
  {
    var i: nat, k: nat :| PointsAt(p, segs, body, i, k);
    assert body'[i][..k] == body[i][..k];
    assert PointsAt(p, segs', body', i, k);
  }

  /** True checkpoints stay true while bodies and the segment list only grow. */
  lemma IndexGrows(idx: seq<Indexed>, segs: seq<Segment>, body: Body, segs': seq<Segment>, body': Body)
    requires IndexSound(idx, segs, body)
    requires |body| == |segs| <= |segs'| == |body'|
    requires forall i :: 0 <= i < |segs| ==> segs[i].id == segs'[i].id && body[i] <= body'[i]
    ensures IndexSound(idx, segs', body')
  {
    forall p | Has(idx, p)
      ensures Points(p, segs', body')
    {
      PointsGrows(p, segs, body, segs', body');
    }
  }

  /** A record that the state accepts keeps manifest and state in step. */
  lemma LoggedKeepsManifest(w: World, entry: ManifestOp, t: State)
    requires ManifestOk(w) && Fits(entry) && Applied(w.mem.state, entry) == Success(t)
    ensures ManifestOk(Logged(w, entry))
    ensures Logged(w, entry).mem == w.mem.(manifestPos := Logged(w, entry).mem.manifestPos, state := t)
    ensures Logged(w, entry).disk == w.disk.(manifest := Logged(w, entry).disk.manifest)
  {
    ManifestAppend(w.disk.manifest, w.mem.state, entry);
    WriteAtEnd(w.disk.manifest, Encode(RecordFrame(entry)));
    hide Applied, ManifestHolds, WriteAt, Encode, Fits;
  }

  lemma IdsOkSame(m: Mem, m': Mem, d: Disk, d': Disk)
    requires IdsOk(m, d) && m.state == m'.state && m.nextId == m'.nextId && d.segments == d'.segments
    ensures IdsOk(m', d')
  {
    hide IdSet;
  }

  lemma FilesOkSame(d: Disk, d': Disk, segs: seq<Segment>, body: Body)
    requires FilesOk(d, segs, body) && d.segments == d'.segments
    ensures FilesOk(d', segs, body)
  {
    forall i | 0 <= i < |body|
      ensures FileAt(d', segs[i], body[i])
    {
      assert FileAt(d, segs[i], body[i]);
    }
  }

  lemma ManifestOkSame(w: World, w': World)
    requires ManifestOk(w) && w'.disk.manifest == w.disk.manifest && w'.mem.state == w.mem.state
    requires w'.mem.manifestPos == w.mem.manifestPos
    ensures ManifestOk(w')
  {
    hide ManifestHolds;
  }

  /** Put the invariant together from facts about a logged record `l`, a disk `d` and a memory `m`. */
  lemma InvFromParts(w: World, body: Body, l: World, m: Mem, d: Disk)
    requires StateOk(w.mem.state) && BodyOk(w.mem.state, body)
    requires FilesOk(d, w.mem.state.segments, body) && d.segments == w.disk.segments
    requires IdsOk(m, d) && m.state == w.mem.state && m.nextId == w.mem.nextId
    requires ManifestOk(l) && l.disk.manifest == w.disk.manifest && l.mem.state == w.mem.state
    requires l.mem.manifestPos == w.mem.manifestPos
    requires CursorOk(w.mem, body) && LastOk(w.mem.lastEntry, w.mem.state, body)
    requires IndexSound(w.mem.index, w.mem.state.segments, body)
    ensures Inv(w, body)
  {
    hide StateOk, BodyOk, FilesOk, IdsOk, ManifestOk, CursorOk, LastOk, IndexSound;
    IdsOkSame(m, w.mem, d, w.disk);
    FilesOkSame(d, w.disk, w.mem.state.segments, body);
    ManifestOkSame(l, w);
  }
}
