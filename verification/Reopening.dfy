/** Opening a disk that is in order: no issues, and the store comes up as the manifest and the files say. */
module Reopening {
  import opened Basics
  import opened Frames
  import opened State
  import opened StateLaws
  import opened Disk
  import opened Index
  import opened Log
  import opened World
  import opened Invariant
  import opened Recovery
  import opened Checkpoints

  /** The disk holds state `s` with these bodies, and nothing is left to fix. */
  ghost predicate Settled(d: Disk, s: State, body: Body) {
    && StateOk(s) && BodyOk(s, body)
    && FilesOk(d, s.segments, body)
    && ManifestHolds(d.manifest, s)
    && d.segments.Keys == IdSet(s.segments) + s.dead
    && Widths(d, body)
  }

  /** Segment ids below the maximum, and an active file of less than 2^64 bytes. */
  ghost predicate Widths(d: Disk, body: Body) {
    && (forall id :: id in d.segments ==> id + 1 < U32_LIMIT)
    && body != [] && |Image(body[|body| - 1])| < U64_LIMIT
  }

  lemma InvIsSettled(w: World, body: Body)
    requires Inv(w, body)
    ensures Settled(w.disk, w.mem.state, body)
  {
    hide StateOk, BodyOk, FilesOk, ManifestHolds, IndexSound, IdSet, Image, LastOk;
  }

  // ── Segment reports ─────────────────────────────────────────────────────────

  function CleanReport(id: SegmentId, fs: seq<Frame>): SegmentReport {
    SegmentReport(id, |fs|, |Image(fs)|, LastOf(fs), CheckpointsOf(fs, MAGIC_LEN, INDEX_STRIDE, |fs|))
  }

  lemma ScanImage(d: Disk, seg: Segment, fs: seq<Frame>, expected: Option<u64>)
    requires FileAt(d, seg, fs) && (expected.Some? ==> expected.value == |Image(fs)|)
    ensures ScanSegment(d, seg.id, expected) == (CleanReport(seg.id, fs), [])
  {
    FileOfWalk(SEGMENT_MAGIC, fs);
    FileOfBody(SEGMENT_MAGIC, fs);
    hide Walk, FileOf, CheckpointsOf, SizeOf;
  }

  lemma ScanLive(d: Disk, s: State, body: Body, i: nat)
    requires StateOk(s) && BodyOk(s, body) && FilesOk(d, s.segments, body) && i < |body|
    ensures ScanSegment(d, s.segments[i].id, ExpectedLen(s.seals, s.segments[i].id)) == (CleanReport(s.segments[i].id, body[i]), [])
  {
    assert FileAt(d, s.segments[i], body[i]);
    if i + 1 < |body| {
      assert SealedAt(s, body, i);
    } else {
      LastUnsealed(s);
    }
    hide StateOk, BodyOk, FilesOk, FileAt, ScanSegment, CleanReport, Image;
    ScanImage(d, s.segments[i], body[i], ExpectedLen(s.seals, s.segments[i].id));
  }

  lemma LastUnsealed(s: State)
    requires StateOk(s)
    ensures s.segments[|s.segments| - 1].id !in s.seals
  {
    var n := |s.segments| - 1;
    IdSetDisjoint(s.segments, n);
    assert s.segments[n..][0] == s.segments[n];
    assert s.segments[n].id in IdSet(s.segments[n..]);
  }

  lemma {:induction false} ReportsFrom(d: Disk, segs: seq<Segment>, seals: map<SegmentId, Seal>, body: Body)
    requires |segs| == |body|
    requires forall i :: 0 <= i < |segs| ==>
      ScanSegment(d, segs[i].id, ExpectedLen(seals, segs[i].id)) == (CleanReport(segs[i].id, body[i]), [])
    ensures SegmentIssues(d, segs, seals) == []
    ensures |SegmentReports(d, segs, seals)| == |segs|
    ensures forall i :: 0 <= i < |segs| ==> SegmentReports(d, segs, seals)[i] == CleanReport(segs[i].id, body[i])
  {
    hide ScanSegment, CleanReport;
    if segs != [] {
      ReportsFrom(d, segs[1..], seals, body[1..]);
    }
  }

  lemma ReportsClean(d: Disk, s: State, body: Body)
    requires StateOk(s) && BodyOk(s, body) && FilesOk(d, s.segments, body)
    ensures SegmentIssues(d, s.segments, s.seals) == []
    ensures |SegmentReports(d, s.segments, s.seals)| == |s.segments| == |body|
    ensures forall i :: 0 <= i < |body| ==>
      SegmentReports(d, s.segments, s.seals)[i] == CleanReport(s.segments[i].id, body[i])
  {
    BodyLength(s, body);
    hide StateOk, BodyOk, FilesOk, ScanSegment, CleanReport;
    forall i | 0 <= i < |s.segments|
      ensures ScanSegment(d, s.segments[i].id, ExpectedLen(s.seals, s.segments[i].id)) == (CleanReport(s.segments[i].id, body[i]), [])
    {
      ScanLive(d, s, body, i);
    }
    ReportsFrom(d, s.segments, s.seals, body);
  }

  // ── No orphans, nothing missing ─────────────────────────────────────────────

  lemma {:induction false} NotInNone(ids: seq<SegmentId>, s: set<SegmentId>)
    requires forall i :: 0 <= i < |ids| ==> ids[i] in s
    ensures NotIn(ids, s) == []
  {
    if ids != [] {
      NotInNone(ids[1..], s);
    }
  }

  lemma NothingUnknown(d: Disk, s: State)
    requires s.dead <= d.segments.Keys <= IdSet(s.segments) + s.dead
    ensures Orphans(d, s) == [] && MissingDead(d, s) == []
  {
    var q := Sorted(d.segments.Keys);
    assert forall i :: 0 <= i < |q| ==> q[i] in q;
    NotInNone(q, IdSet(s.segments) + s.dead);
    var h := HASH_ORDER(s.dead);
    assert Enumerates(h, s.dead);
    assert forall i :: 0 <= i < |h| ==> h[i] in h;
    NotInNone(h, d.segments.Keys);
  }

  /** A settled disk scans without issues, and the report repeats state, manifest end and segment files. */
  lemma ScanSettled(d: Disk, s: State, body: Body)
    requires Settled(d, s, body)
    ensures Scan(d) == ScanReport(s, |d.manifest|, SegmentReports(d, s.segments, s.seals), [])
  {
    HoldsReadable(d.manifest, s);
    ReadableReplays(d.manifest, s);
    ReportsClean(d, s, body);
    NothingUnknown(d, s);
    assert s.segments != [];
    hide StateOk, BodyOk, FilesOk, ReplayFrom, Walk, Replays, SegmentReports, SegmentIssues, Orphans, MissingDead,
      Image, IdSet;
  }

  // ── The memory built from a clean report ────────────────────────────────────

  lemma {:induction false} FindSegmentAt(segs: seq<Segment>, i: nat)
    requires DistinctIds(segs) && i < |segs|
    ensures FindSegment(segs, segs[i].id) == Some(segs[i])
  {
    if i > 0 {
      FindSegmentAt(segs[1..], i - 1);
      assert segs[0].id != segs[i].id;
    }
  }

  lemma {:induction false} FindReportAt(reports: seq<SegmentReport>, i: nat)
    requires i < |reports| && forall j :: 0 <= j < i ==> reports[j].id != reports[i].id
    ensures FindReport(reports, reports[i].id) == Some(reports[i])
  {
    if i > 0 {
      FindReportAt(reports[1..], i - 1);
    }
  }

  lemma LastSealedOk(s: State, body: Body)
    requires StateOk(s) && BodyOk(s, body)
    ensures |body| == 1 ==> LastSealed(s.segments[..|body| - 1], s.seals) == None
    ensures |body| > 1 ==>
      body[|body| - 2] != [] && LastSealed(s.segments[..|body| - 1], s.seals) == Some(LastId(body[|body| - 2]))
  {
    var n := |body|;
    if n > 1 {
      assert SealedAt(s, body, n - 2);
      assert s.segments[..n - 1][n - 2] == s.segments[n - 2];
    }
  }

  lemma MaxIdBounds(ids: set<SegmentId>)
    ensures forall id :: id in ids ==> id <= MaxId(ids)
    ensures ids != {} ==> MaxId(ids) in ids
  {
    var q := Sorted(ids);
    forall id | id in ids
      ensures id <= MaxId(ids)
    {
      assert id in q;
      var i :| 0 <= i < |q| && q[i] == id;
    }
    if ids != {} {
      var id :| id in ids;
      assert id in q && q[|q| - 1] in q;
    }
  }

  /** The index a reopened store starts with. */
  function FreshIndex(segs: seq<Segment>, body: Body): seq<Indexed>
    requires |segs| == |body|
  {
    seq(|segs|, i requires 0 <= i < |segs| =>
      Indexed(segs[i].id, CheckpointsOf(body[i], MAGIC_LEN, INDEX_STRIDE, |body[i]|)))
  }

  lemma FreshIndexOrdered(s: State, body: Body)
    requires StateOk(s) && BodyOk(s, body)
    ensures IndexOk(FreshIndex(s.segments, body))
  {
    var idx := FreshIndex(s.segments, body);
    forall i | 0 <= i < |idx|
      ensures Ascending(idx[i].checkpoints)
      ensures i < |idx| - 1 ==> idx[i].checkpoints != []
    {
      assert InSegment(s.segments[i], body[i]);
      CheckpointsAscend(body[i], MAGIC_LEN);
      assert i < |body| - 1 ==> SealedAt(s, body, i);
    }
    forall i, j | 0 <= i < j < |idx|
      ensures Before(idx[i], idx[j])
    {
      FreshBefore(s, body, i, j);
    }
  }

  lemma FreshBefore(s: State, body: Body, i: nat, j: nat)
    requires StateOk(s) && BodyOk(s, body) && i < j < |body|
    ensures Before(FreshIndex(s.segments, body)[i], FreshIndex(s.segments, body)[j])
  {
    var x, y := CheckpointsOf(body[i], MAGIC_LEN, INDEX_STRIDE, |body[i]|), CheckpointsOf(body[j], MAGIC_LEN, INDEX_STRIDE, |body[j]|);
    CheckpointForm(body[i], MAGIC_LEN, |body[i]|);
    CheckpointForm(body[j], MAGIC_LEN, |body[j]|);
    hide CheckpointsOf, SizeOf;
    forall a, b | 0 <= a < |x| && 0 <= b < |y|
      ensures x[a].id < y[b].id
    {
      AcrossSegments(s, body, i, j, a * INDEX_STRIDE, b * INDEX_STRIDE);
    }
  }

  lemma FreshIndexSound(s: State, body: Body)
    requires StateOk(s) && BodyOk(s, body)
    ensures IndexSound(FreshIndex(s.segments, body), s.segments, body)
  {
    var idx := FreshIndex(s.segments, body);
    FreshIndexOrdered(s, body);
    BodyLength(s, body);
    hide StateOk, BodyOk, IndexOk;
    forall p | Has(idx, p)
      ensures Points(p, s.segments, body)
    {
      var i: nat, a: nat :| HasAt(idx, p, i, a);
      CheckpointForm(body[i], MAGIC_LEN, |body[i]|);
      assert PointsAt(p, s.segments, body, i, a * INDEX_STRIDE);
    }
  }

  /** The memory of a store opened on a settled disk. */
  function OpenedMem(trigger: nat, d: Disk, s: State, body: Body): Mem
    requires 0 < |s.segments| == |body|
  {
    var n := |body| - 1;
    Mem(trigger, s, FreshIndex(s.segments, body), |d.manifest|, s.segments[n].id, Wrap64(|Image(body[n])|),
        s.segments[n].firstEntry, |body[n]|,
        if body[n] != [] then Some(LastId(body[n])) else if n > 0 && body[n - 1] != [] then Some(LastId(body[n - 1])) else None,
        Wrap32(MaxId(IdSet(s.segments) + s.dead) + 1), false)
  }

  lemma MemFromParts(trigger: nat, r: ScanReport, seg: Segment, fs: seq<Frame>, last: Option<EntryId>)
    requires r.state.segments != [] && r.state.active == Some(seg.id)
    requires FindSegment(r.state.segments, seg.id) == Some(seg)
    requires FindReport(r.segments, seg.id) == Some(CleanReport(seg.id, fs))
    requires fs == [] ==> LastSealed(r.state.segments[..|r.state.segments| - 1], r.state.seals) == last
    ensures MemFrom(trigger, r) == Some(Mem(
      trigger, r.state, IndexFrom(r.segments), r.manifestNext, seg.id, Wrap64(|Image(fs)|), seg.firstEntry, |fs|,
      if fs != [] then Some(LastId(fs)) else last,
      Wrap32(MaxId(IdSet(r.state.segments) + r.state.dead) + 1), false))
  {
    hide IndexFrom, LastSealed, Wrap32, Wrap64, FindReport, FindSegment, MaxId, IdSet, CheckpointsOf, Image;
  }

  lemma IndexFromReports(segs: seq<Segment>, body: Body, reports: seq<SegmentReport>)
    requires |segs| == |body| == |reports|
    requires forall i :: 0 <= i < |body| ==> reports[i] == CleanReport(segs[i].id, body[i])
    ensures IndexFrom(reports) == FreshIndex(segs, body)
  {
    hide CheckpointsOf, Image;
  }

  lemma ReportOfActive(d: Disk, s: State, body: Body)
    requires Settled(d, s, body)
    ensures var n := |body| - 1;
      0 < |body| == |s.segments| &&
      FindReport(SegmentReports(d, s.segments, s.seals), s.segments[n].id) == Some(CleanReport(s.segments[n].id, body[n]))
  {
    var n, reports := |body| - 1, SegmentReports(d, s.segments, s.seals);
    ReportsClean(d, s, body);
    assert DistinctIds(s.segments);
    hide StateOk, BodyOk, FilesOk, ManifestHolds, SegmentReports, CheckpointsOf, Image, IdSet;
    FindReportAt(reports, n);
  }

  lemma ActiveFacts(s: State, body: Body)
    requires StateOk(s) && BodyOk(s, body)
    ensures var n := |body| - 1;
      && 0 < |body| == |s.segments|
      && s.active == Some(s.segments[n].id)
      && FindSegment(s.segments, s.segments[n].id) == Some(s.segments[n])
      && (n > 0 ==> body[n - 1] != [])
      && LastSealed(s.segments[..n], s.seals) == if n > 0 && body[n - 1] != [] then Some(LastId(body[n - 1])) else None
  {
    FindSegmentAt(s.segments, |body| - 1);
    LastSealedOk(s, body);
    hide LastSealed, FindSegment;
  }

  lemma MemFromSettled(trigger: nat, d: Disk, s: State, body: Body)
    requires Settled(d, s, body)
    ensures MemFrom(trigger, Scan(d)) == Some(OpenedMem(trigger, d, s, body))
  {
    hide StateOk, BodyOk, FilesOk, ManifestHolds, Scan, FreshIndex, IndexFrom, LastSealed, FindReport, FindSegment,
      IdSet, Widths, MemFrom, CleanReport, Image, MaxId, Wrap32, Wrap64, SegmentReports, LastOf;
    ScanSettled(d, s, body);
    ReportsClean(d, s, body);
    ReportOfActive(d, s, body);
    ActiveFacts(s, body);
    var n, r := |body| - 1, Scan(d);
    IndexFromReports(s.segments, body, r.segments);
    MemFromParts(trigger, r, s.segments[n], body[n],
                 if n > 0 && body[n - 1] != [] then Some(LastId(body[n - 1])) else None);
  }

  lemma OpenedInv(trigger: nat, d: Disk, s: State, body: Body)
    requires Settled(d, s, body)
    ensures Inv(World(OpenedMem(trigger, d, s, body), d), body)
  {
    var m := OpenedMem(trigger, d, s, body);
    FreshIndexSound(s, body);
    var ids := IdSet(s.segments) + s.dead;
    MaxIdBounds(ids);
    assert s.segments[0].id in IdSet(s.segments);
    assert MaxId(ids) in d.segments;
    if |body| > 1 {
      assert SealedAt(s, body, |body| - 2);
    }
    hide StateOk, BodyOk, FilesOk, ManifestHolds, IndexSound, FreshIndex, MaxId, IdSet, Image;
  }

  /** Opening a settled disk leaves it as it is and yields a store that satisfies the invariant. */
  lemma OpenSettled(trigger: nat, d: Disk, s: State, body: Body)
    requires Settled(d, s, body)
    ensures Open(trigger, d) == Outcome(d, Success(OpenedMem(trigger, d, s, body)))
    ensures Inv(World(OpenedMem(trigger, d, s, body), d), body)
  {
    ScanSettled(d, s, body);
    MemFromSettled(trigger, d, s, body);
    OpenedInv(trigger, d, s, body);
    hide Scan, MemFrom, Settled, Inv, OpenedMem;
  }

  /** Reopening is the identity on everything a caller can see: entries, head, visible last id, metadata, active
      segment and write offset, and the manifest cursor; the disk does not change. */
  lemma ReopenIsIdentity(w: World, body: Body, trigger: nat)
    requires Inv(w, body)
    ensures var r := Open(trigger, w.disk);
      && r.disk == w.disk && r.result.Success?
      && var m := r.result.value;
         && Inv(World(m, w.disk), body)
         && m.state == w.mem.state
         && LastVisible(m) == LastVisible(w.mem)
         && m.activeId == w.mem.activeId && m.activePos == w.mem.activePos && m.activeFirst == w.mem.activeFirst
         && m.manifestPos == w.mem.manifestPos
         && Entries(World(m, r.disk)) == Entries(w)
  {
    InvIsSettled(w, body);
    OpenSettled(trigger, w.disk, w.mem.state, body);
    assert CursorOk(w.mem, body) && LastOk(w.mem.lastEntry, w.mem.state, body) && ManifestOk(w);
    hide StateOk, BodyOk, FilesOk, IdsOk, IndexSound, FreshIndex, ManifestHolds, Image, Open, Settled;
  }
}
