/** The scan of a store's files, issue by issue, as it runs over a device. */
module Scanning {
  import opened Basics
  import opened Frames
  import opened State
  import opened StateLaws
  import opened Disk
  import opened World
  import opened Recovery
  import opened Devices
  import opened Scanner
  import opened Manifests

  class IssueReport {
    var issues: seq<FileIssue>

    constructor ()
      ensures issues == []
    {
      issues := [];
    }

    method Push(file: FileRef, issue: Issue)
      modifies this
      ensures issues == old(issues) + [FileIssue(file, issue)]
    {
      issues := issues + [FileIssue(file, issue)];
    }
  }

  /** `scan_segment`: a sealed segment must have its recorded size; then every frame is checked. */
  method ScanSegmentFile(d: Disk, id: SegmentId, expected: Option<u64>, issues: IssueReport) returns (r: SegmentReport)
    modifies issues
    ensures r == ScanSegment(d, id, expected).0
    ensures issues.issues == old(issues.issues) + ScanSegment(d, id, expected).1
  {
    hide Walk, SummaryOf;
    var sealed := expected.Some?;
    if sealed {
      if id !in d.segments {
        issues.Push(SegmentRef(id), SealedSegmentMissing);
        return EmptyReport(id);
      }
      var actual := |d.segments[id]|;
      if actual != expected.value {
        issues.Push(SegmentRef(id), SealedSegmentSizeMismatch(expected.value, actual));
        return EmptyReport(id);
      }
    }
    var file := OpenSegment(d, id);
    if file.None? {
      issues.Push(SegmentRef(id), if sealed then SealedSegmentMissing else ActiveSegmentMissing);
      return EmptyReport(id);
    }
    var scanner := new FrameScanner(file.value, MAGIC_LEN, MAGIC_LEN);
    var s := scanner.ScanAll(INDEX_STRIDE);
    if s.status.Clean? {
      return SegmentReport(id, s.count, s.nextOffset, s.lastId, s.checkpoints);
    }
    issues.Push(SegmentRef(id),
                if sealed then SealedSegmentChecksumCorrupt(s.nextOffset) else ActiveSegmentTornTail(s.nextOffset));
    r := SegmentReport(id, s.count, 0, s.lastId, s.checkpoints);
  }

  /** The filter loops of `find_orphans` and `find_missing_dead`. */
  method PushMissing(ids: seq<SegmentId>, known: set<SegmentId>, issue: Issue, issues: IssueReport)
    modifies issues
    ensures issues.issues == old(issues.issues) + IssuesFor(NotIn(ids, known), issue)
  {
    var i := 0;
    ghost var want := issues.issues + IssuesFor(NotIn(ids, known), issue);
    assert ids[0..] == ids;
    while i < |ids|
      invariant 0 <= i <= |ids|
      invariant issues.issues + IssuesFor(NotIn(ids[i..], known), issue) == want
    {
      assert ids[i..][1..] == ids[i + 1..];
      if ids[i] !in known {
        IssuesForFirst(ids[i], NotIn(ids[i + 1..], known), issue);
        issues.Push(SegmentRef(ids[i]), issue);
      } else {
        assert [] + NotIn(ids[i + 1..], known) == NotIn(ids[i + 1..], known);
      }
      i := i + 1;
    }
  }

  lemma IssuesForFirst(id: SegmentId, rest: seq<SegmentId>, issue: Issue)
    ensures IssuesFor([id] + rest, issue) == [FileIssue(SegmentRef(id), issue)] + IssuesFor(rest, issue)
  {
    assert ([id] + rest)[1..] == rest;
  }

  method ScanSegments(d: Disk, s: State, issues: IssueReport) returns (reports: seq<SegmentReport>)
    modifies issues
    ensures reports == SegmentReports(d, s.segments, s.seals)
    ensures issues.issues == old(issues.issues) + SegmentIssues(d, s.segments, s.seals)
  {
    hide ScanSegment;
    ghost var want := issues.issues + SegmentIssues(d, s.segments, s.seals);
    var segs := s.segments;
    assert segs[0..] == segs;
    reports := [];
    var i := 0;
    while i < |segs|
      invariant 0 <= i <= |segs|
      invariant reports + SegmentReports(d, segs[i..], s.seals) == SegmentReports(d, segs, s.seals)
      invariant issues.issues + SegmentIssues(d, segs[i..], s.seals) == want
    {
      assert segs[i..][1..] == segs[i + 1..];
      var r := ScanSegmentFile(d, segs[i].id, ExpectedLen(s.seals, segs[i].id), issues);
      reports := reports + [r];
      i := i + 1;
    }
  }

  /** `scan`: manifest integrity, replay, orphans, missing dead segments, then the segment files in order. */
  method ScanStore(d: Disk) returns (r: ScanReport)
    ensures r == Scan(d)
  {
    hide Walk, ReplayFrom, IssuesFor, NotIn, SegmentIssues, SegmentReports, IdSet, SizeOf, CheckpointsOf;
    var issues := new IssueReport();
    if !(MANIFEST_MAGIC <= d.manifest) {
      issues.Push(ManifestRef, ManifestNotReadable);
      return Failed(issues.issues);
    }
    var scanner := new FrameScanner(d.manifest, MAGIC_LEN, MAGIC_LEN);
    var summary := scanner.ScanAll(1);
    if summary.status.ChecksumCorrupt? {
      issues.Push(ManifestRef, ManifestChecksumCorrupt(summary.nextOffset));
      return Failed(issues.issues);
    }
    if summary.status.TornTail? {
      issues.Push(ManifestRef, ManifestTornTail(summary.nextOffset));
    }
    assert issues.issues == TornManifest(Walk(d.manifest, MAGIC_LEN));
    var replay := ReplayAll(d.manifest, MAGIC_LEN);
    if replay.BadRecord? {
      issues.Push(ManifestRef, ManifestChecksumCorrupt(replay.offset));
      return Failed(issues.issues);
    }
    if replay.ReadFailed? {
      issues.Push(ManifestRef, ManifestNotReadable);
      return Failed(issues.issues);
    }
    var state := replay.state;
    if state.segments == [] {
      issues.Push(ManifestRef, ManifestEmpty);
      return Failed(issues.issues);
    }
    PushMissing(Sorted(d.segments.Keys), IdSet(state.segments) + state.dead, OrphanSegmentFound, issues);
    PushMissing(HASH_ORDER(state.dead), d.segments.Keys, DeadSegmentNotFound, issues);
    var reports := ScanSegments(d, state, issues);
    r := ScanReport(state, replay.next, reports, issues.issues);
  }

  // ── Applying fix-ups ────────────────────────────────────────────────────────

  /** One fix-up action on the device; a failed one changes nothing. */
  method PerformAction(device: Device, a: Action) returns (ok: bool)
    modifies device
    ensures ok <==> Performed(old(device.disk), a).Some?
    ensures device.disk == Performed(old(device.disk), a).GetOr(old(device.disk))
  {
    hide WriteAt, SetLen, Encode;
    match a {
      case OrphanFound(id) => ok := AppendOp(device, RecordOrphan(id));
      case DeadSegmentMissing(id) => ok := AppendOp(device, SegmentDeleted(id));
      case TruncateManifest(n) =>
        ok := MANIFEST_MAGIC <= device.disk.manifest;
        if ok {
          device.ResizeManifest(n);
        }
      case TruncateSegment(id, n) =>
        ok := OpenSegment(device.disk, id).Some?;
        if ok {
          device.ResizeSegment(id, n);
        }
      case CreateActiveSegment(id) => ok := device.CreateSegment(id);
    }
  }

  /** `append_manifest_op`: a cursor at the end of the file, for one record. */
  method AppendOp(device: Device, op: Op) returns (ok: bool)
    modifies device
    ensures ok <==> MANIFEST_MAGIC <= old(device.disk).manifest
    ensures device.disk == if ok then Appended(old(device.disk), op) else old(device.disk)
  {
    hide WriteAt, Encode;
    ok := MANIFEST_MAGIC <= device.disk.manifest;
    if ok {
      var cursor := new FrameCursor(|device.disk.manifest|);
      WriteOp(cursor, device, Bare(op));
    }
  }

  /** `attempt_recovery`: every issue must have a fix-up that is allowed; they are applied in phase order. */
  method Recover(device: Device, report: ScanReport, approved: bool) returns (r: Result<(), RecoveryError>)
    modifies device
    ensures Outcome(device.disk, r) == AttemptRecovery(old(device.disk), report.issues, approved)
  {
    hide Performed;
    var fixUps := CollectFixUps(report.issues, approved);
    if fixUps.Failure? {
      return Failure(fixUps.error);
    }
    var sorted := ByPhase(fixUps.value);
    hide ByPhase, FixUps;
    ghost var want := PerformAll(device.disk, sorted);
    assert sorted[0..] == sorted;
    var i := 0;
    while i < |sorted|
      invariant 0 <= i <= |sorted|
      invariant PerformAll(device.disk, sorted[i..]) == want
    {
      assert sorted[i..][1..] == sorted[i + 1..];
      var ok := PerformAction(device, sorted[i].action);
      if !ok {
        return Failure(IoError);
      }
      i := i + 1;
    }
    r := Success(());
  }

  method CollectFixUps(issues: seq<FileIssue>, approved: bool) returns (r: Result<seq<FixUp>, RecoveryError>)
    ensures r == FixUps(issues, approved)
  {
    hide CreateFixUp;
    var fixUps: seq<FixUp> := [];
    assert issues[0..] == issues;
    BehindNone(FixUps(issues, approved));
    var i := 0;
    while i < |issues|
      invariant 0 <= i <= |issues|
      invariant FixUps(issues, approved) == Behind(fixUps, FixUps(issues[i..], approved))
    {
      assert issues[i..][1..] == issues[i + 1..];
      var f := CreateFixUp(issues[i]);
      if f.None? {
        return Failure(NotPossible);
      }
      if f.value.approvalRequired && !approved {
        return Failure(ApprovalRequired);
      }
      BehindMoves(fixUps, f.value, FixUps(issues[i + 1..], approved));
      fixUps := fixUps + [f.value];
      i := i + 1;
    }
    assert fixUps + [] == fixUps;
    r := Success(fixUps);
  }

  ghost function Behind(front: seq<FixUp>, rest: Result<seq<FixUp>, RecoveryError>): Result<seq<FixUp>, RecoveryError> {
    match rest
    case Failure(_) => rest
    case Success(fs) => Success(front + fs)
  }

  lemma BehindNone(rest: Result<seq<FixUp>, RecoveryError>)
    ensures Behind([], rest) == rest
  {
    if rest.Success? {
      assert [] + rest.value == rest.value;
    }
  }

  lemma BehindMoves(front: seq<FixUp>, f: FixUp, rest: Result<seq<FixUp>, RecoveryError>)
    ensures Behind(front, Behind([f], rest)) == Behind(front + [f], rest)
  {
    if rest.Success? {
      assert front + ([f] + rest.value) == (front + [f]) + rest.value;
    }
  }
}
