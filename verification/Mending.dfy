/** The issues that recovery fixes on its own: which disks have no worse ones, and what each fix-up does. */
module Mending {
  import opened Basics
  import opened Frames
  import opened State
  import opened StateLaws
  import opened Codec
  import opened Disk
  import opened World
  import opened Recovery

  // ── Issues that recovery fixes on its own ───────────────────────────────────

  ghost predicate Minor(i: Issue) {
    i.ManifestTornTail? || i.ActiveSegmentTornTail? || i.OrphanSegmentFound? || i.DeadSegmentNotFound?
  }

  ghost predicate AllMinor(issues: seq<FileIssue>) {
    forall i :: 0 <= i < |issues| ==> Minor(issues[i].issue)
  }

  /** The state after reconciling it with the files: (dead ∩ on disk) ∪ orphans; all else unchanged. */
  function Reconciled(d: Disk, s: State): State {
    var disk := d.segments.Keys;
    s.(dead := s.dead * disk + (disk - (IdSet(s.segments) + s.dead)))
  }

  function WithDead(s: State, dead: set<SegmentId>): State {
    s.(dead := dead)
  }

  /** A segment file cut behind its readable frames. */
  function Mended(file: seq<byte>): seq<byte>
    requires |file| >= MAGIC_LEN
  {
    SetLen(file, Walk(file, MAGIC_LEN).end)
  }

  /** A live, unsealed segment whose file can be opened. */
  predicate CanMend(s: State, id: SegmentId, file: seq<byte>) {
    id in IdSet(s.segments) && id !in s.seals && SEGMENT_MAGIC <= file
  }

  /** Live unsealed files cut behind their readable frames, every other file as it was. */
  function MendedFiles(d: Disk, s: State): map<SegmentId, seq<byte>> {
    map id | id in d.segments :: if CanMend(s, id, d.segments[id]) then Mended(d.segments[id]) else d.segments[id]
  }

  lemma AllMinorConcat(a: seq<FileIssue>, b: seq<FileIssue>)
    ensures AllMinor(a + b) <==> AllMinor(a) && AllMinor(b)
  {
    if AllMinor(a + b) {
      assert forall i :: 0 <= i < |a| ==> a[i] == (a + b)[i];
      assert forall i :: 0 <= i < |b| ==> b[i] == (a + b)[|a| + i];
    }
  }

  // ── What a successful replay says about the manifest ────────────────────────

  lemma {:induction false} WalkStops(data: seq<byte>, c: nat)
    requires c <= |data|
    ensures var w := Walk(data, c);
      && (w.status.TornTail? ==> CheckAt(data, w.end) == Torn)
      && (w.status.ChecksumCorrupt? ==> CheckAt(data, w.end).Corrupt?)
    decreases |data| - c
  {
    match CheckAt(data, c)
    case Good(f, next) =>
      hide CheckAt;
      WalkStops(data, next);
    case _ =>
  }

  lemma ReplayStep(data: seq<byte>, c: nat, s: State, f: Frame, next: nat)
    requires c <= next <= |data| && CheckAt(data, c) == Good(f, next) && ReplayFrom(data, c, s).Replayed?
    ensures FoldFrames([f], s).Some?
    ensures ReplayFrom(data, c, s) == ReplayFrom(data, next, FoldFrames([f], s).value)
  {
    hide Applied, DecodeBytes;
    match DecodeBytes(f.payload)
    case Failure(_) =>
    case Success(entry) =>
      match Applied(s, entry)
      case Failure(_) =>
      case Success(t) => assert FoldFrames([f][1..], t) == Some(t);
  }

  /** The converse of replaying over a walk: a replay that succeeds has applied every record the walk accepts. */
  lemma {:induction false} ReplayMeansFold(data: seq<byte>, c: nat, s: State)
    requires c <= |data| && ReplayFrom(data, c, s).Replayed?
    ensures FoldFrames(Walk(data, c).frames, s).Some?
    ensures ReplayFrom(data, c, s) == ReplayFrom(data, Walk(data, c).end, FoldFrames(Walk(data, c).frames, s).value)
    decreases |data| - c
  {
    match CheckAt(data, c)
    case Good(f, next) =>
      hide *;
      CheckGoes(data, c);
      WalkGood(data, c, f, next);
      ReplayStep(data, c, s, f, next);
      ReplayMeansFold(data, next, FoldFrames([f], s).value);
      FoldConcat([f], Walk(data, next).frames, s);
    case _ => hide Applied, DecodeBytes;
  }

  lemma CheckGoes(data: seq<byte>, c: nat)
    requires c <= |data| && CheckAt(data, c).Good?
    ensures c < CheckAt(data, c).next <= |data|
  {
  }

  /** Where the walk stops without a corrupt frame, a replay that succeeds has less than a header left. */
  lemma StopsShort(data: seq<byte>, c: nat, s: State)
    requires c <= |data| && (CheckAt(data, c) == Torn || CheckAt(data, c) == AtEnd) && ReplayFrom(data, c, s).Replayed?
    ensures |data| < c + HEADER_LEN && ReplayFrom(data, c, s) == Replayed(s, c)
  {
    hide Applied, DecodeBytes, HeaderAt;
  }

  lemma {:induction false} FoldTrace(fs: seq<Frame>, s: State) returns (states: seq<State>)
    requires FoldFrames(fs, s).Some?
    ensures |states| == |fs| + 1 && states[0] == s && states[|fs|] == FoldFrames(fs, s).value
    ensures forall i :: 0 <= i < |fs| ==> RecordsAt(fs, states, i)
    decreases |fs|
  {
    hide DecodeBytes, Applied;
    if fs == [] {
      states := [s];
    } else {
      var t := Applied(s, DecodeBytes(fs[0].payload).value).value;
      var rest := FoldTrace(fs[1..], t);
      states := [s] + rest;
      forall i | 0 <= i < |fs|
        ensures RecordsAt(fs, states, i)
      {
        if i > 0 {
          assert RecordsAt(fs[1..], rest, i - 1);
        }
      }
    }
  }

  lemma FoldReplays(fs: seq<Frame>, s: State)
    requires FoldFrames(fs, EMPTY) == Some(s)
    ensures Replays(fs, s)
  {
    hide FoldFrames, Records;
    var states := FoldTrace(fs, EMPTY);
    assert Trace(fs, states, s);
  }

  /** A manifest without a corrupt frame that replays to `s` is whole records leading to `s`, with less than a
      frame header behind them. */
  lemma ReplayedReadable(manifest: seq<byte>, s: State, next: nat)
    requires MANIFEST_MAGIC <= manifest && !Walk(manifest, MAGIC_LEN).status.ChecksumCorrupt?
    requires ReplayFrom(manifest, MAGIC_LEN, EMPTY) == Replayed(s, next)
    ensures ManifestReadable(manifest, s)
  {
    hide FoldFrames, ReplayFrom, CheckAt, Replays;
    var w := Walk(manifest, MAGIC_LEN);
    ReplayMeansFold(manifest, MAGIC_LEN, EMPTY);
    WalkStops(manifest, MAGIC_LEN);
    if w.status.Clean? {
      WalkAtEnd(manifest);
      AtEndIs(manifest);
    }
    hide Walk;
    StopsShort(manifest, w.end, FoldFrames(w.frames, EMPTY).value);
    FoldReplays(w.frames, s);
  }

  lemma AtEndIs(data: seq<byte>)
    ensures CheckAt(data, |data|) == AtEnd
  {
  }

  lemma ReadableNotCorrupt(manifest: seq<byte>, s: State)
    requires ManifestReadable(manifest, s)
    ensures var w := Walk(manifest, MAGIC_LEN);
      && !w.status.ChecksumCorrupt? && w.end == MAGIC_LEN + SizeOf(w.frames)
      && SetLen(manifest, w.end) == FileOf(MANIFEST_MAGIC, w.frames)
  {
    WalkStops(manifest, MAGIC_LEN);
    WalkedPart(MANIFEST_MAGIC, manifest);
    hide Walk, Replays, HeaderAt;
  }

  // ── What the scan reports ───────────────────────────────────────────────────

  function IssuesAt(d: Disk, segs: seq<Segment>, seals: map<SegmentId, Seal>, i: nat): seq<FileIssue>
    requires i < |segs|
  {
    ScanSegment(d, segs[i].id, ExpectedLen(seals, segs[i].id)).1
  }

  lemma {:induction false} SegmentIssuesMinor(d: Disk, segs: seq<Segment>, seals: map<SegmentId, Seal>)
    ensures AllMinor(SegmentIssues(d, segs, seals)) <==>
      forall i :: 0 <= i < |segs| ==> AllMinor(IssuesAt(d, segs, seals, i))
    decreases |segs|
  {
    hide ScanSegment, ExpectedLen, AllMinor;
    if segs == [] {
      NoneMinor();
    } else {
      var rest := segs[1..];
      SegmentIssuesMinor(d, rest, seals);
      AllMinorConcat(IssuesAt(d, segs, seals, 0), SegmentIssues(d, rest, seals));
      assert forall i :: 0 <= i < |rest| ==> IssuesAt(d, rest, seals, i) == IssuesAt(d, segs, seals, i + 1);
      assert forall i :: 1 <= i < |segs| ==> IssuesAt(d, segs, seals, i) == IssuesAt(d, rest, seals, i - 1);
    }
  }

  lemma NoneMinor()
    ensures AllMinor([])
  {
  }

  lemma {:induction false} IssuesForMinor(ids: seq<SegmentId>, issue: Issue)
    requires Minor(issue)
    ensures AllMinor(IssuesFor(ids, issue))
  {
    if ids != [] {
      IssuesForMinor(ids[1..], issue);
    }
  }

  /** The manifest replays to `s`, and no live segment has a worse issue than a damaged tail while unsealed. */
  ghost predicate Mendable(d: Disk, s: State) {
    && ManifestReadable(d.manifest, s) && s.segments != []
    && forall i :: 0 <= i < |s.segments| ==> AllMinor(IssuesAt(d, s.segments, s.seals, i))
  }

  function MinorIssues(d: Disk, s: State): seq<FileIssue>
    requires |d.manifest| >= MAGIC_LEN
  {
    TornManifest(Walk(d.manifest, MAGIC_LEN))
    + IssuesFor(Orphans(d, s), OrphanSegmentFound)
    + IssuesFor(MissingDead(d, s), DeadSegmentNotFound)
    + SegmentIssues(d, s.segments, s.seals)
  }

  lemma AllMinorOfFour(a: seq<FileIssue>, b: seq<FileIssue>, c: seq<FileIssue>, e: seq<FileIssue>)
    ensures AllMinor(a + b + c + e) <==> AllMinor(a) && AllMinor(b) && AllMinor(c) && AllMinor(e)
  {
    hide AllMinor;
    AllMinorConcat(a, b);
    AllMinorConcat(a + b, c);
    AllMinorConcat(a + b + c, e);
  }

  lemma ScanReadable(d: Disk, s: State)
    requires ManifestReadable(d.manifest, s) && s.segments != []
    ensures |d.manifest| >= MAGIC_LEN && Scan(d).state == s && Scan(d).issues == MinorIssues(d, s)
  {
    hide ReplayFrom, Walk, Replays, SegmentReports, SegmentIssues, Orphans, MissingDead, TornManifest, SizeOf, IssuesFor;
    ReadableReplays(d.manifest, s);
    ReadableNotCorrupt(d.manifest, s);
  }

  lemma MendableScan(d: Disk, s: State)
    requires Mendable(d, s)
    ensures |d.manifest| >= MAGIC_LEN && Scan(d).state == s && Scan(d).issues == MinorIssues(d, s)
    ensures AllMinor(Scan(d).issues)
  {
    hide ManifestReadable, Scan, SegmentIssues, IssuesFor, IssuesAt, AllMinor, Orphans, MissingDead, Walk;
    ScanReadable(d, s);
    SegmentIssuesMinor(d, s.segments, s.seals);
    IssuesForMinor(Orphans(d, s), OrphanSegmentFound);
    IssuesForMinor(MissingDead(d, s), DeadSegmentNotFound);
    TornMinor(Walk(d.manifest, MAGIC_LEN));
    AllMinorOfFour(TornManifest(Walk(d.manifest, MAGIC_LEN)), IssuesFor(Orphans(d, s), OrphanSegmentFound),
                   IssuesFor(MissingDead(d, s), DeadSegmentNotFound), SegmentIssues(d, s.segments, s.seals));
  }

  lemma TornMinor(w: Walked)
    ensures AllMinor(TornManifest(w))
  {
  }

  lemma LastNotMinor(issues: seq<FileIssue>, i: FileIssue)
    requires !Minor(i.issue)
    ensures !AllMinor(issues + [i])
  {
    assert (issues + [i])[|issues|] == i;
  }

  /** Only a scan that got through the manifest can report nothing but minor issues. */
  lemma MinorReplays(d: Disk)
    requires AllMinor(Scan(d).issues)
    ensures MANIFEST_MAGIC <= d.manifest && !Walk(d.manifest, MAGIC_LEN).status.ChecksumCorrupt?
    ensures var r := ReplayFrom(d.manifest, MAGIC_LEN, EMPTY);
      r.Replayed? && r.state == Scan(d).state && r.state.segments != []
  {
    hide ReplayFrom, Walk, SegmentReports, SegmentIssues, Orphans, MissingDead, TornManifest, SizeOf, IssuesFor, AllMinor;
    var bad := [FileIssue(ManifestRef, ManifestNotReadable)];
    forall issues, i: FileIssue | !Minor(i.issue)
      ensures !AllMinor(issues + [i])
    {
      LastNotMinor(issues, i);
    }
    assert [] + bad == bad;
    if MANIFEST_MAGIC <= d.manifest {
      var w := Walk(d.manifest, MAGIC_LEN);
      var corrupt := [FileIssue(ManifestRef, ManifestChecksumCorrupt(MAGIC_LEN + SizeOf(w.frames)))];
      assert [] + corrupt == corrupt;
    }
  }

  lemma ScanMendable(d: Disk)
    requires AllMinor(Scan(d).issues)
    ensures Mendable(d, Scan(d).state)
  {
    hide Scan, ManifestReadable, SegmentIssues, IssuesFor, IssuesAt, AllMinor, Orphans, MissingDead, Walk, ReplayFrom;
    MinorReplays(d);
    var s := Scan(d).state;
    ReplayedReadable(d.manifest, s, ReplayFrom(d.manifest, MAGIC_LEN, EMPTY).next);
    ScanReadable(d, s);
    AllMinorOfFour(TornManifest(Walk(d.manifest, MAGIC_LEN)), IssuesFor(Orphans(d, s), OrphanSegmentFound),
                   IssuesFor(MissingDead(d, s), DeadSegmentNotFound), SegmentIssues(d, s.segments, s.seals));
    SegmentIssuesMinor(d, s.segments, s.seals);
  }

  // ── From issues to fix-ups ──────────────────────────────────────────────────

  function Auto(phase: Phase, a: Action): FixUp {
    FixUp(phase, false, a)
  }

  function FixesFor(ids: seq<SegmentId>, orphan: bool): seq<FixUp> {
    if ids == [] then []
    else [Auto(ManifestAppends, if orphan then OrphanFound(ids[0]) else DeadSegmentMissing(ids[0]))] + FixesFor(ids[1..], orphan)
  }

  function ManifestFixes(w: Walked): seq<FixUp> {
    if w.status.TornTail? then [Auto(ManifestFileClean, TruncateManifest(MAGIC_LEN + SizeOf(w.frames)))] else []
  }

  /** The fix-up for a live segment: none, or cutting an unsealed file behind its readable frames. */
  function TailFix(d: Disk, id: SegmentId, sealed: bool): seq<FixUp> {
    if !sealed && OpenSegment(d, id).Some? && !Walk(d.segments[id], MAGIC_LEN).status.Clean? then
      [Auto(SegmentFileClean, TruncateSegment(id, Walk(d.segments[id], MAGIC_LEN).end))]
    else []
  }

  function TailFixes(d: Disk, segs: seq<Segment>, seals: map<SegmentId, Seal>): seq<FixUp> {
    if segs == [] then [] else TailFix(d, segs[0].id, segs[0].id in seals) + TailFixes(d, segs[1..], seals)
  }

  lemma {:induction false} FixUpsConcat(a: seq<FileIssue>, b: seq<FileIssue>, approved: bool)
    requires FixUps(a, approved).Success? && FixUps(b, approved).Success?
    ensures FixUps(a + b, approved) == Success(FixUps(a, approved).value + FixUps(b, approved).value)
  {
    hide CreateFixUp;
    if a == [] {
      assert a + b == b && [] + FixUps(b, approved).value == FixUps(b, approved).value;
    } else {
      assert (a + b)[1..] == a[1..] + b;
      FixUpsConcat(a[1..], b, approved);
      var f, x, y := CreateFixUp(a[0]).value, FixUps(a[1..], approved).value, FixUps(b, approved).value;
      assert ([f] + x) + y == [f] + (x + y);
    }
  }

  lemma {:induction false} FixUpsForIds(ids: seq<SegmentId>, orphan: bool)
    ensures FixUps(IssuesFor(ids, if orphan then OrphanSegmentFound else DeadSegmentNotFound), false) == Success(FixesFor(ids, orphan))
  {
    if ids != [] {
      FixUpsForIds(ids[1..], orphan);
      var issue := if orphan then OrphanSegmentFound else DeadSegmentNotFound;
      assert IssuesFor(ids, issue)[1..] == IssuesFor(ids[1..], issue);
    }
  }

  lemma FixUpsForOne(i: FileIssue, f: FixUp)
    requires CreateFixUp(i) == Some(f) && !f.approvalRequired
    ensures FixUps([i], false) == Success([f])
  {
    assert [i][1..] == [];
    assert [f] + [] == [f];
  }

  lemma FixUpsForManifest(w: Walked)
    ensures FixUps(TornManifest(w), false) == Success(ManifestFixes(w))
  {
    if w.status.TornTail? {
      FixUpsForOne(TornManifest(w)[0], ManifestFixes(w)[0]);
    }
  }

  lemma FixUpsForSegment(d: Disk, id: SegmentId, seals: map<SegmentId, Seal>)
    requires AllMinor(ScanSegment(d, id, ExpectedLen(seals, id)).1)
    ensures FixUps(ScanSegment(d, id, ExpectedLen(seals, id)).1, false) == Success(TailFix(d, id, id in seals))
  {
    var issues := ScanSegment(d, id, ExpectedLen(seals, id)).1;
    hide Walk, CheckpointsOf, SizeOf;
    assert issues != [] ==> Minor(issues[0].issue);
    if issues != [] {
      WalkIsEncoding(d.segments[id], MAGIC_LEN);
      FixUpsForOne(issues[0], TailFix(d, id, id in seals)[0]);
    }
  }

  lemma {:induction false} FixUpsForSegments(d: Disk, segs: seq<Segment>, seals: map<SegmentId, Seal>)
    requires forall i :: 0 <= i < |segs| ==> AllMinor(IssuesAt(d, segs, seals, i))
    ensures FixUps(SegmentIssues(d, segs, seals), false) == Success(TailFixes(d, segs, seals))
    decreases |segs|
  {
    hide ScanSegment, ExpectedLen, AllMinor, FixUps, TailFix;
    if segs == [] {
      NoFixUps();
    } else {
      var rest := segs[1..];
      assert AllMinor(IssuesAt(d, segs, seals, 0));
      forall i | 0 <= i < |rest|
        ensures AllMinor(IssuesAt(d, rest, seals, i))
      {
        assert AllMinor(IssuesAt(d, segs, seals, i + 1));
      }
      FixUpsForSegment(d, segs[0].id, seals);
      FixUpsForSegments(d, rest, seals);
      FixUpsConcat(IssuesAt(d, segs, seals, 0), SegmentIssues(d, rest, seals), false);
    }
  }

  lemma NoFixUps()
    ensures FixUps([], false) == Success([])
  {
  }

  lemma FixUpsOfFour(a: seq<FileIssue>, b: seq<FileIssue>, c: seq<FileIssue>, e: seq<FileIssue>,
                     x: seq<FixUp>, y: seq<FixUp>, z: seq<FixUp>, u: seq<FixUp>)
    requires FixUps(a, false) == Success(x) && FixUps(b, false) == Success(y)
    requires FixUps(c, false) == Success(z) && FixUps(e, false) == Success(u)
    ensures FixUps(a + b + c + e, false) == Success(x + (y + z) + u)
  {
    hide *;
    FixUpsConcat(a, b, false);
    FixUpsConcat(a + b, c, false);
    FixUpsConcat(a + b + c, e, false);
    assert (x + y) + z == x + (y + z);
  }

  /** All that recovery does about minor issues, in the order it does it. */
  function MinorFixes(d: Disk, s: State): seq<FixUp>
    requires |d.manifest| >= MAGIC_LEN
  {
    ManifestFixes(Walk(d.manifest, MAGIC_LEN))
    + (FixesFor(Orphans(d, s), true) + FixesFor(MissingDead(d, s), false))
    + TailFixes(d, s.segments, s.seals)
  }

  lemma FixUpsOfMinor(d: Disk, s: State)
    requires |d.manifest| >= MAGIC_LEN
    requires forall i :: 0 <= i < |s.segments| ==> AllMinor(IssuesAt(d, s.segments, s.seals, i))
    ensures FixUps(MinorIssues(d, s), false) == Success(MinorFixes(d, s))
  {
    hide FixUps, TornManifest, IssuesFor, FixesFor, ManifestFixes, TailFixes, SegmentIssues, Orphans, MissingDead, Walk,
      IssuesAt, AllMinor;
    var w := Walk(d.manifest, MAGIC_LEN);
    FixUpsForManifest(w);
    FixUpsForIds(Orphans(d, s), true);
    FixUpsForIds(MissingDead(d, s), false);
    FixUpsForSegments(d, s.segments, s.seals);
    FixUpsOfFour(TornManifest(w), IssuesFor(Orphans(d, s), OrphanSegmentFound),
                 IssuesFor(MissingDead(d, s), DeadSegmentNotFound), SegmentIssues(d, s.segments, s.seals),
                 ManifestFixes(w), FixesFor(Orphans(d, s), true), FixesFor(MissingDead(d, s), false),
                 TailFixes(d, s.segments, s.seals));
  }

  // ── Phase order ─────────────────────────────────────────────────────────────

  ghost predicate AllIn(fs: seq<FixUp>, phase: Phase) {
    forall i :: 0 <= i < |fs| ==> fs[i].phase == phase
  }

  lemma InPhaseStep(fs: seq<FixUp>, phase: Phase)
    requires fs != []
    ensures InPhase(fs, phase) == (if fs[0].phase == phase then [fs[0]] else []) + InPhase(fs[1..], phase)
  {
  }

  lemma {:induction false} InPhaseConcat(a: seq<FixUp>, b: seq<FixUp>, phase: Phase)
    ensures InPhase(a + b, phase) == InPhase(a, phase) + InPhase(b, phase)
  {
    if a == [] {
      assert a + b == b;
    } else {
      InPhaseStep(a, phase);
      InPhaseStep(a + b, phase);
      hide InPhase;
      assert (a + b)[1..] == a[1..] + b;
      InPhaseConcat(a[1..], b, phase);
      ConcatAssoc(if a[0].phase == phase then [a[0]] else [], InPhase(a[1..], phase), InPhase(b, phase));
    }
  }

  lemma {:induction false} InPhaseUniform(fs: seq<FixUp>, own: Phase, phase: Phase)
    requires AllIn(fs, own)
    ensures InPhase(fs, phase) == if own == phase then fs else []
  {
    if fs != [] {
      InPhaseUniform(fs[1..], own, phase);
    }
  }

  lemma {:induction false} InPhaseAll(fs: seq<FixUp>, phase: Phase)
    ensures AllIn(InPhase(fs, phase), phase)
  {
    if fs != [] {
      InPhaseAll(fs[1..], phase);
    }
  }

  lemma {:induction false} PhasesPartition(fs: seq<FixUp>)
    ensures multiset(InPhase(fs, ManifestFileClean)) + multiset(InPhase(fs, ManifestAppends))
          + multiset(InPhase(fs, SegmentFileClean)) == multiset(fs)
  {
    if fs != [] {
      PhasesPartition(fs[1..]);
      assert fs == [fs[0]] + fs[1..];
    }
  }

  function Rank(p: Phase): nat {
    match p case ManifestFileClean => 0 case ManifestAppends => 1 case SegmentFileClean => 2
  }

  /** The sort on the phase: its result is ordered by phase, holds the same fix-ups, and keeps the order inside
      each phase. */
  lemma ByPhaseSorts(fs: seq<FixUp>)
    ensures var sorted := ByPhase(fs);
      && (forall i, j :: 0 <= i < j < |sorted| ==> Rank(sorted[i].phase) <= Rank(sorted[j].phase))
      && multiset(sorted) == multiset(fs)
      && forall p: Phase :: InPhase(sorted, p) == InPhase(fs, p)
  {
    var a, b, c := InPhase(fs, ManifestFileClean), InPhase(fs, ManifestAppends), InPhase(fs, SegmentFileClean);
    InPhaseAll(fs, ManifestFileClean);
    InPhaseAll(fs, ManifestAppends);
    InPhaseAll(fs, SegmentFileClean);
    PhasesPartition(fs);
    forall p: Phase
      ensures InPhase(a + b + c, p) == InPhase(fs, p)
    {
      GroupsInPhase(a, b, c, p);
    }
    hide InPhase;
  }

  lemma GroupsInPhase(a: seq<FixUp>, b: seq<FixUp>, c: seq<FixUp>, p: Phase)
    requires AllIn(a, ManifestFileClean) && AllIn(b, ManifestAppends) && AllIn(c, SegmentFileClean)
    ensures InPhase(a + b + c, p) ==
      match p case ManifestFileClean => a case ManifestAppends => b case SegmentFileClean => c
  {
    InPhaseConcat(a + b, c, p);
    InPhaseConcat(a, b, p);
    InPhaseUniform(a, ManifestFileClean, p);
    InPhaseUniform(b, ManifestAppends, p);
    InPhaseUniform(c, SegmentFileClean, p);
    hide InPhase;
    assert [] + [] + c == c && a + [] + [] == a && [] + b + [] == b;
  }

  /** Three groups, one per phase in order, are already sorted. */
  lemma ByPhaseGrouped(a: seq<FixUp>, b: seq<FixUp>, c: seq<FixUp>)
    requires AllIn(a, ManifestFileClean) && AllIn(b, ManifestAppends) && AllIn(c, SegmentFileClean)
    ensures ByPhase(a + b + c) == a + b + c
  {
    GroupsInPhase(a, b, c, ManifestFileClean);
    GroupsInPhase(a, b, c, ManifestAppends);
    GroupsInPhase(a, b, c, SegmentFileClean);
    hide InPhase;
  }

  lemma {:induction false} FixesForPhase(ids: seq<SegmentId>, orphan: bool)
    ensures AllIn(FixesFor(ids, orphan), ManifestAppends)
  {
    if ids != [] {
      FixesForPhase(ids[1..], orphan);
    }
  }

  lemma {:induction false} TailFixesPhase(d: Disk, segs: seq<Segment>, seals: map<SegmentId, Seal>)
    ensures AllIn(TailFixes(d, segs, seals), SegmentFileClean)
    decreases |segs|
  {
    hide Walk;
    if segs != [] {
      TailFixesPhase(d, segs[1..], seals);
    }
  }

  lemma MinorFixesSorted(d: Disk, s: State)
    requires |d.manifest| >= MAGIC_LEN
    ensures ByPhase(MinorFixes(d, s)) == MinorFixes(d, s)
  {
    hide FixesFor, TailFixes, ByPhase, Orphans, MissingDead, Walk;
    FixesForPhase(Orphans(d, s), true);
    FixesForPhase(MissingDead(d, s), false);
    TailFixesPhase(d, s.segments, s.seals);
    ByPhaseGrouped(ManifestFixes(Walk(d.manifest, MAGIC_LEN)),
                   FixesFor(Orphans(d, s), true) + FixesFor(MissingDead(d, s), false),
                   TailFixes(d, s.segments, s.seals));
  }

  // ── Performing the fix-ups ──────────────────────────────────────────────────

  lemma {:induction false} PerformConcat(d: Disk, a: seq<FixUp>, b: seq<FixUp>)
    requires PerformAll(d, a).result.Success?
    ensures PerformAll(d, a + b) == PerformAll(PerformAll(d, a).disk, b)
    decreases |a|
  {
    hide Performed;
    if a == [] {
      assert a + b == b;
    } else {
      assert (a + b)[1..] == a[1..] + b;
      PerformConcat(Performed(d, a[0].action).value, a[1..], b);
    }
  }

  lemma PerformOne(d: Disk, f: FixUp, d': Disk)
    requires Performed(d, f.action) == Some(d')
    ensures PerformAll(d, [f]) == Outcome(d', Success(()))
  {
    hide Performed;
    assert [f][1..] == [];
  }

  lemma PerformNone(d: Disk)
    ensures PerformAll(d, []) == Outcome(d, Success(()))
  {
  }

  lemma PerformTruncation(d: Disk, n: nat)
    requires MANIFEST_MAGIC <= d.manifest
    ensures Performed(d, TruncateManifest(n)) == Some(d.(manifest := SetLen(d.manifest, n)))
  {
  }

  lemma HoldsFrom(manifest: seq<byte>, fs: seq<Frame>, s: State)
    requires manifest == FileOf(MANIFEST_MAGIC, fs) && Replays(fs, s)
    ensures ManifestHolds(manifest, s)
  {
    hide FileOf, Replays;
  }

  lemma PerformManifest(d: Disk, s: State)
    requires ManifestReadable(d.manifest, s)
    ensures var w := Walk(d.manifest, MAGIC_LEN);
      var d1 := d.(manifest := SetLen(d.manifest, w.end));
      PerformAll(d, ManifestFixes(w)) == Outcome(d1, Success(())) && ManifestHolds(d1.manifest, s)
  {
    var w := Walk(d.manifest, MAGIC_LEN);
    var d1 := d.(manifest := SetLen(d.manifest, w.end));
    hide Walk, Replays, SizeOf, SetLen, FileOf, ManifestHolds, Performed, PerformAll;
    ReadableNotCorrupt(d.manifest, s);
    assert ManifestHolds(d1.manifest, s) by { HoldsFrom(d1.manifest, w.frames, s); }
    SetLenSame(d.manifest);
    PerformTruncation(d, w.end);
    assert PerformAll(d, []) == Outcome(d, Success(())) by { PerformNone(d); }
    if w.status.TornTail? {
      PerformOne(d, ManifestFixes(w)[0], d1);
    }
  }

  lemma AppendRecord(d: Disk, s: State, op: Op, t: State)
    requires ManifestHolds(d.manifest, s) && Fits(Bare(op)) && Applied(s, Bare(op)) == Success(t)
    ensures ManifestHolds(Appended(d, op).manifest, t) && Appended(d, op).segments == d.segments
  {
    ManifestAppend(d.manifest, s, Bare(op));
    hide ManifestHolds, Applied, WriteAt, Encode, Fits;
  }

  function Marked(dead: set<SegmentId>, ids: set<SegmentId>, orphan: bool): set<SegmentId> {
    if orphan then dead + ids else dead - ids
  }

  /** Any id can be recorded as an orphan; only dead ones, each once, can be recorded as deleted. */
  ghost predicate CanMark(s: State, ids: seq<SegmentId>, orphan: bool) {
    orphan || ((forall i :: 0 <= i < |ids| ==> ids[i] in s.dead) && Distinct(ids))
  }

  ghost predicate Distinct(ids: seq<SegmentId>) {
    forall i, j :: 0 <= i < j < |ids| ==> ids[i] != ids[j]
  }

  lemma MarkApplies(s: State, id: SegmentId, orphan: bool)
    requires CanMark(s, [id], orphan)
    ensures Applied(s, Bare(if orphan then RecordOrphan(id) else SegmentDeleted(id)))
         == Success(WithDead(s, Marked(s.dead, {id}, orphan)))
  {
    assert [id][0] == id;
  }

  lemma MarkOne(d: Disk, s: State, id: SegmentId, orphan: bool)
    requires ManifestHolds(d.manifest, s) && CanMark(s, [id], orphan)
    ensures var d' := Appended(d, if orphan then RecordOrphan(id) else SegmentDeleted(id));
      && Performed(d, if orphan then OrphanFound(id) else DeadSegmentMissing(id)) == Some(d')
      && d'.segments == d.segments && ManifestHolds(d'.manifest, WithDead(s, Marked(s.dead, {id}, orphan)))
  {
    hide ManifestHolds, ManifestReadable, Fits, Applied, CanMark, Marked;
    var op := if orphan then RecordOrphan(id) else SegmentDeleted(id);
    MarkApplies(s, id, orphan);
    NumbersFit(op);
    HoldsReadable(d.manifest, s);
    assert MANIFEST_MAGIC <= d.manifest by { ReadableMagic(d.manifest, s); }
    AppendRecord(d, s, op, WithDead(s, Marked(s.dead, {id}, orphan)));
    hide Appended;
  }

  lemma ReadableMagic(manifest: seq<byte>, s: State)
    requires ManifestReadable(manifest, s)
    ensures MANIFEST_MAGIC <= manifest && |manifest| >= MAGIC_LEN
  {
  }

  lemma MarkedStep(s: State, ids: seq<SegmentId>, orphan: bool)
    requires ids != [] && CanMark(s, ids, orphan)
    ensures CanMark(s, [ids[0]], orphan)
    ensures var dead := Marked(s.dead, {ids[0]}, orphan);
      && CanMark(WithDead(s, dead), ids[1..], orphan)
      && Marked(dead, Elements(ids[1..]), orphan) == Marked(s.dead, Elements(ids), orphan)
  {
    assert Elements(ids) == {ids[0]} + Elements(ids[1..]);
    assert forall i :: 0 <= i < |ids[1..]| ==> ids[1..][i] == ids[i + 1];
  }

  /** Recording orphans, or deletions, one by one. */
  lemma {:induction false} PerformAppends(d: Disk, s: State, ids: seq<SegmentId>, orphan: bool) returns (d': Disk)
    requires ManifestHolds(d.manifest, s) && CanMark(s, ids, orphan)
    ensures PerformAll(d, FixesFor(ids, orphan)) == Outcome(d', Success(()))
    ensures d'.segments == d.segments
    ensures ManifestHolds(d'.manifest, WithDead(s, Marked(s.dead, Elements(ids), orphan)))
    decreases |ids|
  {
    hide ManifestHolds, Performed, CanMark;
    if ids == [] {
      d' := d;
      assert Elements(ids) == {};
      assert Marked(s.dead, {}, orphan) == s.dead;
      assert WithDead(s, s.dead) == s;
    } else {
      MarkedStep(s, ids, orphan);
      MarkOne(d, s, ids[0], orphan);
      var t := WithDead(s, Marked(s.dead, {ids[0]}, orphan));
      hide Marked, Appended;
      d' := PerformAppends(Appended(d, if orphan then RecordOrphan(ids[0]) else SegmentDeleted(ids[0])), t, ids[1..], orphan);
      assert FixesFor(ids, orphan)[1..] == FixesFor(ids[1..], orphan);
    }
  }

  // ── The sets of ids involved ────────────────────────────────────────────────

  lemma {:induction false} NotInMembers(ids: seq<SegmentId>, s: set<SegmentId>)
    ensures forall x :: x in NotIn(ids, s) <==> x in ids && x !in s
  {
    if ids != [] {
      NotInMembers(ids[1..], s);
    }
  }

  lemma {:induction false} NotInDistinct(ids: seq<SegmentId>, s: set<SegmentId>)
    requires Distinct(ids)
    ensures Distinct(NotIn(ids, s))
  {
    if ids != [] {
      var rest := NotIn(ids[1..], s);
      NotInDistinct(ids[1..], s);
      NotInMembers(ids[1..], s);
      assert forall j :: 0 <= j < |rest| ==> rest[j] in rest;
      assert forall x :: x in ids[1..] ==> x != ids[0];
    }
  }

  /** Files on disk that the state does not know. */
  function Unknown(d: Disk, s: State): set<SegmentId> {
    d.segments.Keys - (IdSet(s.segments) + s.dead)
  }

  lemma OrphansAre(d: Disk, s: State)
    ensures Elements(Orphans(d, s)) == Unknown(d, s)
  {
    hide IdSet, NotIn;
    NotInMembers(Sorted(d.segments.Keys), IdSet(s.segments) + s.dead);
  }

  lemma MissingAre(d: Disk, s: State)
    ensures Elements(MissingDead(d, s)) == s.dead - d.segments.Keys
    ensures CanMark(WithDead(s, s.dead + Unknown(d, s)), MissingDead(d, s), false)
  {
    hide IdSet, NotIn;
    var h := HASH_ORDER(s.dead);
    assert Enumerates(h, s.dead);
    NotInMembers(h, d.segments.Keys);
    NotInDistinct(h, d.segments.Keys);
    var m := MissingDead(d, s);
    assert forall i :: 0 <= i < |m| ==> m[i] in m;
  }

  // ── Mending tails ───────────────────────────────────────────────────────────

  lemma MendedWalk(file: seq<byte>)
    requires SEGMENT_MAGIC <= file
    ensures var w, m := Walk(file, MAGIC_LEN), Mended(file);
      && SEGMENT_MAGIC <= m && |m| == w.end
      && Walk(m, MAGIC_LEN) == Walked(w.frames, w.end, Clean)
      && (w.status.Clean? ==> m == file)
  {
    WalkedPart(SEGMENT_MAGIC, file);
    SetLenSame(file);
    hide Walk, SetLen, FileOf, SizeOf;
    var w := Walk(file, MAGIC_LEN);
    FileOfWalk(SEGMENT_MAGIC, w.frames);
    FileOfBody(SEGMENT_MAGIC, w.frames);
  }

  /** Cutting a file again at the same place changes nothing. */
  lemma MendedTwice(file: seq<byte>)
    requires SEGMENT_MAGIC <= file
    ensures |Mended(file)| >= MAGIC_LEN && Mended(Mended(file)) == Mended(file)
    ensures SetLen(Mended(file), Walk(file, MAGIC_LEN).end) == Mended(file)
  {
    MendedWalk(file);
    hide Walk, SetLen;
    SetLenSame(Mended(file));
  }

  /** A file that is still as in `d`, or has been mended. */
  ghost predicate SameOrMended(d: Disk, s: State, d': Disk, id: SegmentId)
    requires id in d.segments
  {
    && id in d'.segments
    && (d'.segments[id] == d.segments[id] || (CanMend(s, id, d.segments[id]) && d'.segments[id] == Mended(d.segments[id])))
  }

  ghost predicate PartlyMended(d: Disk, s: State, d': Disk) {
    d'.segments.Keys == d.segments.Keys && forall id :: id in d.segments ==> SameOrMended(d, s, d', id)
  }

  ghost predicate IsMended(d: Disk, d': Disk, id: SegmentId) {
    id in d.segments && id in d'.segments && |d.segments[id]| >= MAGIC_LEN && d'.segments[id] == Mended(d.segments[id])
  }

  /** A fix-up that cuts a live unsealed file of `d` behind its readable frames. */
  ghost predicate MendsTail(d: Disk, s: State, f: FixUp) {
    && f.action.TruncateSegment? && f.action.id in d.segments && CanMend(s, f.action.id, d.segments[f.action.id])
    && f.action.offset == Walk(d.segments[f.action.id], MAGIC_LEN).end
  }

  lemma PerformTail(d: Disk, s: State, d1: Disk, f: FixUp)
    requires PartlyMended(d, s, d1) && MendsTail(d, s, f)
    ensures var id := f.action.id; var d2 := WithSegment(d1, id, Mended(d.segments[id]));
      && Performed(d1, f.action) == Some(d2) && PartlyMended(d, s, d2) && IsMended(d, d2, id)
      && (forall x :: IsMended(d, d1, x) ==> IsMended(d, d2, x))
  {
    hide Walk, IdSet, SetLen;
    var id := f.action.id;
    var file := d.segments[id];
    MendedWalk(file);
    MendedTwice(file);
    assert SameOrMended(d, s, d1, id);
    hide Mended;
    var d2 := WithSegment(d1, id, Mended(file));
    assert SetLen(file, f.action.offset) == Mended(file) by { MendedIs(file); }
    forall x | x in d.segments
      ensures SameOrMended(d, s, d2, x)
    {
      assert SameOrMended(d, s, d1, x);
    }
  }

  lemma MendedIs(file: seq<byte>)
    requires |file| >= MAGIC_LEN
    ensures Mended(file) == SetLen(file, Walk(file, MAGIC_LEN).end)
  {
  }

  /** Any such fix-ups, in any number: they succeed, touch nothing else and mend the files they name. */
  lemma {:induction false} PerformTails(d: Disk, s: State, d1: Disk, fs: seq<FixUp>) returns (d': Disk)
    requires PartlyMended(d, s, d1) && forall i :: 0 <= i < |fs| ==> MendsTail(d, s, fs[i])
    ensures PerformAll(d1, fs) == Outcome(d', Success(()))
    ensures PartlyMended(d, s, d') && d'.manifest == d1.manifest
    ensures forall x :: IsMended(d, d1, x) ==> IsMended(d, d', x)
    ensures forall i :: 0 <= i < |fs| ==> fs[i].action.TruncateSegment? && IsMended(d, d', fs[i].action.id)
    decreases |fs|
  {
    hide Performed, PartlyMended, IsMended, Mended, IdSet, Walk;
    d' := d1;
    if fs != [] {
      assert MendsTail(d, s, fs[0]);
      PerformTail(d, s, d1, fs[0]);
      var d2 := WithSegment(d1, fs[0].action.id, Mended(d.segments[fs[0].action.id]));
      assert forall i :: 0 <= i < |fs[1..]| ==> fs[1..][i] == fs[i + 1];
      d' := PerformTails(d, s, d2, fs[1..]);
      forall i | 0 <= i < |fs|
        ensures fs[i].action.TruncateSegment? && IsMended(d, d', fs[i].action.id)
      {
        if i > 0 {
          assert fs[1..][i - 1] == fs[i];
        }
      }
    }
  }

  lemma {:induction false} TailFixesMend(d: Disk, s: State, segs: seq<Segment>)
    requires IdSet(segs) <= IdSet(s.segments)
    ensures forall i :: 0 <= i < |TailFixes(d, segs, s.seals)| ==> MendsTail(d, s, TailFixes(d, segs, s.seals)[i])
    decreases |segs|
  {
    hide Walk;
    if segs != [] {
      assert segs == [segs[0]] + segs[1..];
      assert segs[0].id in IdSet(segs) && IdSet(segs[1..]) <= IdSet(segs) by { IdSetCons(segs); }
      hide IdSet;
      TailFixesMend(d, s, segs[1..]);
    }
  }

  lemma IdSetCons(segs: seq<Segment>)
    requires segs != []
    ensures IdSet(segs) == {segs[0].id} + IdSet(segs[1..])
  {
    assert forall i :: 1 <= i < |segs| ==> segs[i] == segs[1..][i - 1];
  }

  ghost predicate HasFix(fs: seq<FixUp>, id: SegmentId) {
    exists i :: 0 <= i < |fs| && fs[i].action.TruncateSegment? && fs[i].action.id == id
  }

  /** Every live unsealed file with a damaged tail has its fix-up. */
  lemma {:induction false} TailFixesAll(d: Disk, segs: seq<Segment>, seals: map<SegmentId, Seal>, id: SegmentId)
    requires id in IdSet(segs) && TailFix(d, id, id in seals) != []
    ensures HasFix(TailFixes(d, segs, seals), id)
    decreases |segs|
  {
    hide Walk;
    IdSetCons(segs);
    hide IdSet;
    var first: seq<FixUp> := TailFix(d, segs[0].id, segs[0].id in seals);
    var rest: seq<FixUp> := TailFixes(d, segs[1..], seals);
    if segs[0].id == id {
      assert (first + rest)[0].action.id == id;
    } else {
      TailFixesAll(d, segs[1..], seals, id);
      var i :| 0 <= i < |rest| && rest[i].action.TruncateSegment? && rest[i].action.id == id;
      assert (first + rest)[|first| + i] == rest[i];
    }
  }
}
