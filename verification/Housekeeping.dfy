/** Deleting dead segments and writing metadata keep the invariant and leave the log alone. */
module Housekeeping {
  import opened State
  import opened StateLaws
  import opened Codec
  import opened Disk
  import opened Log
  import opened World
  import opened Invariant

  lemma DeadIsNotLive(s: State, id: SegmentId)
    requires StateOk(s) && id in s.dead
    ensures forall i :: 0 <= i < |s.segments| ==> s.segments[i].id != id
  {
    assert forall i :: 0 <= i < |s.segments| ==> s.segments[i].id in IdSet(s.segments);
  }

  lemma UnlinkedFiles(d: Disk, s: State, body: Body, id: SegmentId)
    requires FilesOk(d, s.segments, body) && StateOk(s) && id in s.dead
    ensures FilesOk(WithoutSegment(d, id), s.segments, body)
  {
    DeadIsNotLive(s, id);
    hide StateOk;
    forall i | 0 <= i < |body|
      ensures FileAt(WithoutSegment(d, id), s.segments[i], body[i])
    {
      assert FileAt(d, s.segments[i], body[i]);
    }
  }

  lemma UnlinkedIds(m: Mem, d: Disk, id: SegmentId)
    requires IdsOk(m, d) && StateOk(m.state) && id in m.state.dead
    ensures IdsOk(m.(state := m.state.(dead := m.state.dead - {id})), WithoutSegment(d, id))
  {
    hide IdSet;
  }

  lemma DeadIrrelevant(s: State, dead: set<SegmentId>, body: Body)
    requires BodyOk(s, body)
    ensures BodyOk(s.(dead := dead), body)
  {
    forall i | 0 <= i < |body| - 1
      ensures SealedAt(s.(dead := dead), body, i)
    {
      assert SealedAt(s, body, i);
    }
  }

  lemma MetaIrrelevant(s: State, meta: seq<Pair>, body: Body)
    requires BodyOk(s, body)
    ensures BodyOk(s.(meta := meta), body)
  {
    forall i | 0 <= i < |body| - 1
      ensures SealedAt(s.(meta := meta), body, i)
    {
      assert SealedAt(s, body, i);
    }
  }

  lemma CursorKept(m: Mem, m': Mem, body: Body)
    requires CursorOk(m, body) && LastOk(m.lastEntry, m.state, body)
    requires m'.state.segments == m.state.segments && m'.state.firstEntry == m.state.firstEntry
    requires m' == m.(state := m'.state, manifestPos := m'.manifestPos)
    ensures CursorOk(m', body) && LastOk(m'.lastEntry, m'.state, body)
  {
    hide Image;
  }

  /** One iteration of `delete_dead_segments`. */
  function DeletedOne(w: World, id: SegmentId): World {
    Logged(w.(disk := WithoutSegment(w.disk, id)), Bare(SegmentDeleted(id)))
  }

  lemma DeleteOneKeepsInv(w: World, body: Body, id: SegmentId)
    requires Inv(w, body) && id in w.mem.state.dead
    ensures Inv(DeletedOne(w, id), body)
    ensures DeletedOne(w, id).mem.state == w.mem.state.(dead := w.mem.state.dead - {id})
  {
    var s, op, un := w.mem.state, Bare(SegmentDeleted(id)), w.(disk := WithoutSegment(w.disk, id));
    var t := s.(dead := s.dead - {id});
    var w' := DeletedOne(w, id);
    assert un.disk.manifest == w.disk.manifest;
    DeletedKeeps(s, id);
    NumbersFit(op.op);
    hide StateOk, BodyOk, FilesOk, IdsOk, ManifestOk, CursorOk, LastOk, IndexSound, Logged, Applied, Fits;
    UnlinkedFiles(w.disk, s, body, id);
    UnlinkedIds(w.mem, w.disk, id);
    DeadIrrelevant(s, s.dead - {id}, body);
    ManifestOkSame(w, un);
    LoggedKeepsManifest(un, op, t);
    CursorKept(w.mem, w'.mem, body);
    InvFromParts(w', body, w', w.mem.(state := t), un.disk);
  }

  /** Deleting any list of distinct dead segments keeps the invariant and removes exactly them. */
  lemma {:induction false} DeleteKeepsInv(w: World, body: Body, ids: seq<SegmentId>)
    requires Inv(w, body)
    requires forall i :: 0 <= i < |ids| ==> ids[i] in w.mem.state.dead
    requires forall i, j :: 0 <= i < j < |ids| ==> ids[i] != ids[j]
    ensures Inv(Deleted(w, ids), body)
    ensures Deleted(w, ids).mem.state == w.mem.state.(dead := w.mem.state.dead - (set id | id in ids))
    decreases |ids|
  {
    hide Inv, Logged;
    if ids == [] {
      assert w.mem.state.dead - (set id | id in ids) == w.mem.state.dead;
    } else {
      DeleteOneKeepsInv(w, body, ids[0]);
      DeleteKeepsInv(DeletedOne(w, ids[0]), body, ids[1..]);
      assert (set id | id in ids) == {ids[0]} + (set id | id in ids[1..]);
    }
  }

  /** After `delete_dead_segments` no segment is dead, the files on disk are exactly the live ones, and nothing
      else has changed. */
  lemma DeadDeletedKeepsInv(w: World, body: Body)
    requires Inv(w, body)
    ensures Inv(DeadDeleted(w), body)
    ensures DeadDeleted(w).mem.state == w.mem.state.(dead := {})
    ensures DeadDeleted(w).disk.segments.Keys == IdSet(w.mem.state.segments)
  {
    var ids, w' := HASH_ORDER(w.mem.state.dead), DeadDeleted(w);
    assert Enumerates(ids, w.mem.state.dead);
    hide Deleted, Enumerates, Inv;
    EnumeratedSet(ids, w.mem.state.dead);
    DeleteKeepsInv(w, body, ids);
    assert w.mem.state.dead - w.mem.state.dead == {};
    OnDisk(w', body);
  }

  /** No file on disk is unknown to the manifest. */
  ghost predicate NothingForgotten(d: Disk) {
    exists s :: ManifestHolds(d.manifest, s) && d.segments.Keys <= IdSet(s.segments) + s.dead
  }

  lemma UnlinkedKnown(w: World, body: Body, id: SegmentId)
    requires Inv(w, body)
    ensures NothingForgotten(w.disk) && NothingForgotten(WithoutSegment(w.disk, id))
  {
    var s := w.mem.state;
    assert ManifestHolds(w.disk.manifest, s) && w.disk.segments.Keys == IdSet(s.segments) + s.dead;
    hide Inv, IdSet, ManifestHolds;
    assert WithoutSegment(w.disk, id).manifest == w.disk.manifest;
  }

  lemma {:induction false} DeletesForgetNothing(w: World, body: Body, ids: seq<SegmentId>)
    requires Inv(w, body)
    requires forall i :: 0 <= i < |ids| ==> ids[i] in w.mem.state.dead
    requires forall i, j :: 0 <= i < j < |ids| ==> ids[i] != ids[j]
    ensures forall i :: 0 <= i < |DeleteSteps(w, ids)| ==> NothingForgotten(DeleteSteps(w, ids)[i])
    decreases |ids|
  {
    hide Inv, Logged, NothingForgotten, WithoutSegment;
    if ids != [] {
      var w' := DeletedOne(w, ids[0]);
      UnlinkedKnown(w, body, ids[0]);
      DeleteOneKeepsInv(w, body, ids[0]);
      UnlinkedKnown(w', body, ids[0]);
      DeletesForgetNothing(w', body, ids[1..]);
      var here := [WithoutSegment(w.disk, ids[0]), w'.disk];
      assert DeleteSteps(w, ids) == here + DeleteSteps(w', ids[1..]);
    }
  }

  /** Unlinking first and recording second: after every disk step of `delete_dead_segments` each file that is still
      there is one the manifest knows as live or dead, so a stop leaves nothing to be found as an orphan. */
  lemma DeletionForgetsNothing(w: World, body: Body)
    requires Inv(w, body)
    ensures var steps := DeleteSteps(w, HASH_ORDER(w.mem.state.dead));
      forall i :: 0 <= i < |steps| ==> NothingForgotten(steps[i])
  {
    var ids := HASH_ORDER(w.mem.state.dead);
    assert Enumerates(ids, w.mem.state.dead);
    hide DeleteSteps, Enumerates, Inv, NothingForgotten;
    EnumeratedSet(ids, w.mem.state.dead);
    DeletesForgetNothing(w, body, ids);
  }

  lemma EnumeratedSet(ids: seq<SegmentId>, s: set<SegmentId>)
    requires Enumerates(ids, s)
    ensures forall i :: 0 <= i < |ids| ==> ids[i] in s
    ensures forall i, j :: 0 <= i < j < |ids| ==> ids[i] != ids[j]
    ensures (set id | id in ids) == s
  {
    assert forall i :: 0 <= i < |ids| ==> ids[i] in ids;
  }

  lemma OnDisk(w: World, body: Body)
    requires Inv(w, body)
    ensures w.disk.segments.Keys == IdSet(w.mem.state.segments) + w.mem.state.dead
  {
  }

  /** Writing metadata keeps the invariant and changes only the metadata list. */
  lemma MetadataKeepsInv(w: World, body: Body, pairs: seq<Pair>)
    requires Inv(w, body) && Fits(ManifestOp(Metadata, pairs))
    ensures Inv(MetadataWritten(w, pairs), body)
    ensures MetadataWritten(w, pairs).mem.state == w.mem.state.(meta := Merge(w.mem.state.meta, pairs))
  {
    var s, op := w.mem.state, ManifestOp(Metadata, pairs);
    var t, w' := s.(meta := Merge(s.meta, pairs)), MetadataWritten(w, pairs);
    hide StateOk, BodyOk, FilesOk, IdsOk, ManifestOk, CursorOk, LastOk, IndexSound, Logged, Applied, Fits, Merge;
    MetadataKeeps(s, pairs);
    MetaIrrelevant(s, t.meta, body);
    LoggedKeepsManifest(w, op, t);
    CursorKept(w.mem, w'.mem, body);
    MetaIds(w.mem, w.disk, t.meta);
    InvFromParts(w', body, w', w.mem.(state := t), w.disk);
  }

  lemma MetaIds(m: Mem, d: Disk, meta: seq<Pair>)
    requires IdsOk(m, d)
    ensures IdsOk(m.(state := m.state.(meta := meta)), d)
  {
    hide IdSet;
  }
}
