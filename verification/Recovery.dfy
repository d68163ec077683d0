/** Scanning a disk for issues, fixing them in phases, and building a store from a clean scan. */
module Recovery {
  import opened Basics
  import opened Frames
  import opened State
  import opened StateLaws
  import opened Disk
  import opened Index
  import opened World

  const INDEX_STRIDE := 64

  // ── Issues and reports ──────────────────────────────────────────────────────

  datatype FileRef = DirectoryRef | ManifestRef | SegmentRef(id: SegmentId)

  datatype Issue =
    | DirectoryNotFound
    | DirectoryNotReadable
    | ManifestNotFound
    | ManifestNotReadable
    | ManifestChecksumCorrupt(offset: nat)
    | ManifestEmpty
    | SealedSegmentMissing
    | SealedSegmentSizeMismatch(expected: nat, actual: nat)
    | ActiveSegmentMissing
    | SealedSegmentChecksumCorrupt(corruptAt: nat)
    | DeadSegmentNotFound
    | OrphanSegmentFound
    | ManifestTornTail(truncateTo: nat)
    | ActiveSegmentTornTail(truncateTo: nat)

  datatype FileIssue = FileIssue(file: FileRef, issue: Issue)

  datatype SegmentReport = SegmentReport(
    id: SegmentId,
    numEntries: nat,
    writeOffset: nat,
    lastEntry: Option<EntryId>,
    checkpoints: seq<Checkpoint>)

  datatype ScanReport = ScanReport(
    state: State,
    manifestNext: nat,
    segments: seq<SegmentReport>,
    issues: seq<FileIssue>)

  // ── scan_all ────────────────────────────────────────────────────────────────

  datatype Summary = Summary(
    count: nat,
    checkpoints: seq<Checkpoint>,
    lastId: Option<EntryId>,
    nextOffset: nat,
    status: Status)

  /** Every `stride`-th of the first `n` frames, with its start offset when the first frame starts at `base`. */
  function CheckpointsOf(fs: seq<Frame>, base: nat, stride: nat, n: nat): seq<Checkpoint>
    requires stride > 0 && n <= |fs|
  {
    if n == 0 then []
    else
      CheckpointsOf(fs, base, stride, n - 1) +
      if (n - 1) % stride == 0 then [Checkpoint(fs[n - 1].id, base + SizeOf(fs[..n - 1]))] else []
  }

  function LastOf(fs: seq<Frame>): Option<EntryId> {
    if fs == [] then None else Some(fs[|fs| - 1].id)
  }

  /** What `scan_all` reports for a walk whose first frame it takes to start at `base`. */
  function SummaryOf(w: Walked, base: nat, stride: nat): Summary
    requires stride > 0
  {
    Summary(|w.frames|, CheckpointsOf(w.frames, base, stride, |w.frames|), LastOf(w.frames),
            base + SizeOf(w.frames), w.status)
  }

  function ScanFile(file: seq<byte>, stride: nat): Summary
    requires |file| >= MAGIC_LEN && stride > 0
  {
    SummaryOf(Walk(file, MAGIC_LEN), MAGIC_LEN, stride)
  }

  // ── scan_segment ────────────────────────────────────────────────────────────

  function EmptyReport(id: SegmentId): SegmentReport {
    SegmentReport(id, 0, 0, None, [])
  }

  function ScanSegment(d: Disk, id: SegmentId, expected: Option<u64>): (SegmentReport, seq<FileIssue>) {
    if expected.Some? && id !in d.segments then
      (EmptyReport(id), [FileIssue(SegmentRef(id), SealedSegmentMissing)])
    else if expected.Some? && |d.segments[id]| != expected.value then
      (EmptyReport(id), [FileIssue(SegmentRef(id), SealedSegmentSizeMismatch(expected.value, |d.segments[id]|))])
    else
      match OpenSegment(d, id)
      case None =>
        (EmptyReport(id),
         [FileIssue(SegmentRef(id), if expected.Some? then SealedSegmentMissing else ActiveSegmentMissing)])
      case Some(file) =>
        var s := ScanFile(file, INDEX_STRIDE);
        if s.status.Clean? then
          (SegmentReport(id, s.count, s.nextOffset, s.lastId, s.checkpoints), [])
        else
          (SegmentReport(id, s.count, 0, s.lastId, s.checkpoints),
           [FileIssue(SegmentRef(id),
              if expected.Some? then SealedSegmentChecksumCorrupt(s.nextOffset) else ActiveSegmentTornTail(s.nextOffset))])
  }

  function ExpectedLen(seals: map<SegmentId, Seal>, id: SegmentId): Option<u64> {
    if id in seals then Some(seals[id].finalSize) else None
  }

  function SegmentReports(d: Disk, segs: seq<Segment>, seals: map<SegmentId, Seal>): seq<SegmentReport> {
    if segs == [] then []
    else [ScanSegment(d, segs[0].id, ExpectedLen(seals, segs[0].id)).0] + SegmentReports(d, segs[1..], seals)
  }

  function SegmentIssues(d: Disk, segs: seq<Segment>, seals: map<SegmentId, Seal>): seq<FileIssue> {
    if segs == [] then []
    else ScanSegment(d, segs[0].id, ExpectedLen(seals, segs[0].id)).1 + SegmentIssues(d, segs[1..], seals)
  }

  // ── scan ────────────────────────────────────────────────────────────────────

  function NotIn(ids: seq<SegmentId>, s: set<SegmentId>): seq<SegmentId> {
    if ids == [] then []
    else (if ids[0] in s then [] else [ids[0]]) + NotIn(ids[1..], s)
  }

  function IssuesFor(ids: seq<SegmentId>, issue: Issue): seq<FileIssue> {
    if ids == [] then [] else [FileIssue(SegmentRef(ids[0]), issue)] + IssuesFor(ids[1..], issue)
  }

  /** Files on disk that the state knows nothing about. */
  function Orphans(d: Disk, s: State): seq<SegmentId> {
    NotIn(Sorted(d.segments.Keys), IdSet(s.segments) + s.dead)
  }

  /** Dead segments whose file is gone. */
  function MissingDead(d: Disk, s: State): seq<SegmentId> {
    NotIn(HASH_ORDER(s.dead), d.segments.Keys)
  }

  function Failed(issues: seq<FileIssue>): ScanReport {
    ScanReport(EMPTY, 0, [], issues)
  }

  function TornManifest(w: Walked): seq<FileIssue> {
    if w.status.TornTail? then [FileIssue(ManifestRef, ManifestTornTail(MAGIC_LEN + SizeOf(w.frames)))] else []
  }

  function Scan(d: Disk): ScanReport {
    if !(MANIFEST_MAGIC <= d.manifest) then Failed([FileIssue(ManifestRef, ManifestNotReadable)])
    else
      var w := Walk(d.manifest, MAGIC_LEN);
      if w.status.ChecksumCorrupt? then
        Failed([FileIssue(ManifestRef, ManifestChecksumCorrupt(MAGIC_LEN + SizeOf(w.frames)))])
      else
        match ReplayFrom(d.manifest, MAGIC_LEN, EMPTY)
        case BadRecord(offset) =>
          Failed(TornManifest(w) + [FileIssue(ManifestRef, ManifestChecksumCorrupt(offset))])
        case ReadFailed => Failed(TornManifest(w) + [FileIssue(ManifestRef, ManifestNotReadable)])
        case Replayed(s, next) =>
          if s.segments == [] then Failed(TornManifest(w) + [FileIssue(ManifestRef, ManifestEmpty)])
          else ScanReport(s, next, SegmentReports(d, s.segments, s.seals),
                          TornManifest(w)
                          + IssuesFor(Orphans(d, s), OrphanSegmentFound)
                          + IssuesFor(MissingDead(d, s), DeadSegmentNotFound)
                          + SegmentIssues(d, s.segments, s.seals))
  }

  // ── Fix-ups ─────────────────────────────────────────────────────────────────

  datatype RecoveryError = NotPossible | ApprovalRequired | IoError

  datatype Phase = ManifestFileClean | ManifestAppends | SegmentFileClean

  datatype Action =
    | OrphanFound(id: SegmentId)
    | DeadSegmentMissing(id: SegmentId)
    | TruncateManifest(offset: nat)
    | TruncateSegment(id: SegmentId, offset: nat)
    | CreateActiveSegment(id: SegmentId)

  datatype FixUp = FixUp(phase: Phase, approvalRequired: bool, action: Action)

  function CreateFixUp(i: FileIssue): Option<FixUp> {
    match i.issue
    case ActiveSegmentMissing =>
      if i.file.SegmentRef? then Some(FixUp(SegmentFileClean, true, CreateActiveSegment(i.file.id))) else None
    case SealedSegmentChecksumCorrupt(at) =>
      if i.file.SegmentRef? then Some(FixUp(SegmentFileClean, true, TruncateSegment(i.file.id, at))) else None
    case DeadSegmentNotFound =>
      if i.file.SegmentRef? then Some(FixUp(ManifestAppends, false, DeadSegmentMissing(i.file.id))) else None
    case OrphanSegmentFound =>
      if i.file.SegmentRef? then Some(FixUp(ManifestAppends, false, OrphanFound(i.file.id))) else None
    case ManifestTornTail(to) => Some(FixUp(ManifestFileClean, false, TruncateManifest(to)))
    case ActiveSegmentTornTail(to) =>
      if i.file.SegmentRef? then Some(FixUp(SegmentFileClean, false, TruncateSegment(i.file.id, to))) else None
    case _ => None
  }

  /** The fix-ups for a list of issues; the first issue that cannot be fixed, or not without approval, decides. */
  function FixUps(issues: seq<FileIssue>, approved: bool): Result<seq<FixUp>, RecoveryError> {
    if issues == [] then Success([])
    else
      match CreateFixUp(issues[0])
      case None => Failure(NotPossible)
      case Some(f) =>
        if f.approvalRequired && !approved then Failure(ApprovalRequired)
        else
          var rest :- FixUps(issues[1..], approved);
          Success([f] + rest)
  }

  function InPhase(fs: seq<FixUp>, phase: Phase): seq<FixUp> {
    if fs == [] then []
    else (if fs[0].phase == phase then [fs[0]] else []) + InPhase(fs[1..], phase)
  }

  /** `sort_by` on the phase: the standard sort is stable. */
  function ByPhase(fs: seq<FixUp>): seq<FixUp> {
    InPhase(fs, ManifestFileClean) + InPhase(fs, ManifestAppends) + InPhase(fs, SegmentFileClean)
  }

  function Appended(d: Disk, op: Op): Disk {
    d.(manifest := WriteAt(d.manifest, |d.manifest|, Encode(RecordFrame(Bare(op)))))
  }

  /** The disk after one action, or `None` on an I/O error, which leaves the disk as it was. */
  function Performed(d: Disk, a: Action): Option<Disk> {
    match a
    case OrphanFound(id) => if MANIFEST_MAGIC <= d.manifest then Some(Appended(d, RecordOrphan(id))) else None
    case DeadSegmentMissing(id) => if MANIFEST_MAGIC <= d.manifest then Some(Appended(d, SegmentDeleted(id))) else None
    case TruncateManifest(n) => if MANIFEST_MAGIC <= d.manifest then Some(d.(manifest := SetLen(d.manifest, n))) else None
    case TruncateSegment(id, n) =>
      if OpenSegment(d, id).Some? then Some(WithSegment(d, id, SetLen(d.segments[id], n))) else None
    case CreateActiveSegment(id) =>
      if id in d.segments then None else Some(WithSegment(d, id, SEGMENT_MAGIC))
  }

  datatype Outcome<+T, +E> = Outcome(disk: Disk, result: Result<T, E>)

  function PerformAll(d: Disk, fs: seq<FixUp>): Outcome<(), RecoveryError>
    decreases |fs|
  {
    if fs == [] then Outcome(d, Success(()))
    else
      match Performed(d, fs[0].action)
      case None => Outcome(d, Failure(IoError))
      case Some(d') => PerformAll(d', fs[1..])
  }

  function AttemptRecovery(d: Disk, issues: seq<FileIssue>, approved: bool): Outcome<(), RecoveryError> {
    match FixUps(issues, approved)
    case Failure(e) => Outcome(d, Failure(e))
    case Success(fs) => PerformAll(d, ByPhase(fs))
  }

  // ── Opening ─────────────────────────────────────────────────────────────────

  function FindSegment(segs: seq<Segment>, id: SegmentId): Option<Segment> {
    if segs == [] then None else if segs[0].id == id then Some(segs[0]) else FindSegment(segs[1..], id)
  }

  function FindReport(reports: seq<SegmentReport>, id: SegmentId): Option<SegmentReport> {
    if reports == [] then None else if reports[0].id == id then Some(reports[0]) else FindReport(reports[1..], id)
  }

  /** The last entry of the last sealed segment. */
  function LastSealed(segs: seq<Segment>, seals: map<SegmentId, Seal>): Option<EntryId> {
    if segs == [] then None
    else
      var id := segs[|segs| - 1].id;
      if id in seals then Some(seals[id].lastEntry) else LastSealed(segs[..|segs| - 1], seals)
  }

  function MaxId(ids: set<SegmentId>): SegmentId {
    var q := Sorted(ids);
    if q == [] then 0 else q[|q| - 1]
  }

  function IndexFrom(reports: seq<SegmentReport>): seq<Indexed> {
    seq(|reports|, i requires 0 <= i < |reports| => Indexed(reports[i].id, reports[i].checkpoints))
  }

  /** `Panics` is no error the code returns: it stands for a panic. */
  datatype OpenError = ApprovedRecoveryRequired | RecoveryNotPossible | RecoveryFailed | Panics

  /** `from_scan_report`, for a report without issues.  `None` where the code would panic. */
  function MemFrom(trigger: nat, r: ScanReport): Option<Mem> {
    if r.state.active.None? then None
    else
      match FindSegment(r.state.segments, r.state.active.value)
      case None => None
      case Some(active) =>
        match FindReport(r.segments, active.id)
        case None => None
        case Some(report) =>
          var last := if report.lastEntry.Some? then report.lastEntry
                      else LastSealed(if r.state.segments == [] then [] else r.state.segments[..|r.state.segments| - 1],
                                      r.state.seals);
          Some(Mem(
            trigger, r.state, IndexFrom(r.segments), r.manifestNext,
            active.id, Wrap64(report.writeOffset), active.firstEntry, report.numEntries, last,
            Wrap32(MaxId(IdSet(r.state.segments) + r.state.dead) + 1), false))
  }

  function FromScanReport(trigger: nat, r: ScanReport, error: OpenError): Result<Mem, OpenError> {
    if r.issues != [] then Failure(error)
    else
      match MemFrom(trigger, r)
      case None => Failure(Panics)
      case Some(m) => Success(m)
  }

  /** `Store::open`: the resulting disk, and the in-memory store or the error. */
  function Open(trigger: nat, d: Disk): Outcome<Mem, OpenError> {
    var r := Scan(d);
    if r.issues == [] then Outcome(d, FromScanReport(trigger, r, RecoveryNotPossible))
    else
      var fixed := AttemptRecovery(d, r.issues, false);
      match fixed.result
      case Failure(NotPossible) => Outcome(fixed.disk, Failure(RecoveryNotPossible))
      case Failure(ApprovalRequired) => Outcome(fixed.disk, Failure(ApprovedRecoveryRequired))
      case Failure(IoError) => Outcome(fixed.disk, Failure(RecoveryFailed))
      case Success(_) => Outcome(fixed.disk, FromScanReport(trigger, Scan(fixed.disk), RecoveryFailed))
  }
}
