/** What opening and recovering answer on any disk, and what follows when sealed segments have been damaged. */
module Approvals {
  import opened Basics
  import opened Frames
  import opened State
  import opened StateLaws
  import opened Disk
  import opened Log
  import opened World
  import opened Invariant
  import opened Recovery
  import opened Reopening
  import opened Mending
  import opened RecoveryLaws
  import opened Crashes

  // ── Three kinds of issues ───────────────────────────────────────────────────

  /** Fixed only when the caller approves. */
  ghost predicate NeedsApproval(i: Issue) {
    i.ActiveSegmentMissing? || i.SealedSegmentChecksumCorrupt?
  }

  /** Never fixed. */
  ghost predicate Hopeless(i: Issue) {
    || i.DirectoryNotFound? || i.DirectoryNotReadable?
    || i.ManifestNotFound? || i.ManifestNotReadable? || i.ManifestChecksumCorrupt? || i.ManifestEmpty?
    || i.SealedSegmentMissing? || i.SealedSegmentSizeMismatch?
  }

  /** Issues of segments name their segment. */
  ghost predicate Placed(issues: seq<FileIssue>) {
    forall i :: 0 <= i < |issues| ==> PlacedOne(issues[i])
  }

  ghost predicate PlacedOne(i: FileIssue) {
    Hopeless(i.issue) || i.issue.ManifestTornTail? || i.file.SegmentRef?
  }

  lemma PlacedConcat(a: seq<FileIssue>, b: seq<FileIssue>)
    requires Placed(a) && Placed(b)
    ensures Placed(a + b)
  {
  }

  lemma {:induction false} PlacedForIds(ids: seq<SegmentId>, issue: Issue)
    ensures Placed(IssuesFor(ids, issue))
  {
    if ids != [] {
      PlacedForIds(ids[1..], issue);
    }
  }

  lemma {:induction false} PlacedSegments(d: Disk, segs: seq<Segment>, seals: map<SegmentId, Seal>)
    ensures Placed(SegmentIssues(d, segs, seals))
  {
    hide Walk, CheckpointsOf, SizeOf;
    if segs != [] {
      PlacedSegments(d, segs[1..], seals);
      assert Placed(ScanSegment(d, segs[0].id, ExpectedLen(seals, segs[0].id)).1);
    }
  }

  lemma PlacedManifest(w: Walked, i: FileIssue)
    requires PlacedOne(i)
    ensures Placed(TornManifest(w)) && Placed([i]) && Placed(TornManifest(w) + [i])
  {
  }

  lemma ScanIsPlaced(d: Disk)
    ensures Placed(Scan(d).issues)
  {
    hide Walk, ReplayFrom, SegmentReports, SegmentIssues, Orphans, MissingDead, IssuesFor, TornManifest, Placed, SizeOf;
    PlacedManifest(Walked([], 0, Clean), FileIssue(ManifestRef, ManifestNotReadable));
    if MANIFEST_MAGIC <= d.manifest {
      var w := Walk(d.manifest, MAGIC_LEN);
      forall i | PlacedOne(i)
        ensures Placed(TornManifest(w)) && Placed([i]) && Placed(TornManifest(w) + [i])
      {
        PlacedManifest(w, i);
      }
      forall s: State
        ensures Placed(TornManifest(w) + IssuesFor(Orphans(d, s), OrphanSegmentFound)
                       + IssuesFor(MissingDead(d, s), DeadSegmentNotFound) + SegmentIssues(d, s.segments, s.seals))
      {
        PlacedManifest(w, FileIssue(ManifestRef, ManifestNotReadable));
        PlacedForIds(Orphans(d, s), OrphanSegmentFound);
        PlacedForIds(MissingDead(d, s), DeadSegmentNotFound);
        PlacedSegments(d, s.segments, s.seals);
        PlacedConcat(TornManifest(w), IssuesFor(Orphans(d, s), OrphanSegmentFound));
        PlacedConcat(TornManifest(w) + IssuesFor(Orphans(d, s), OrphanSegmentFound),
                     IssuesFor(MissingDead(d, s), DeadSegmentNotFound));
        PlacedConcat(TornManifest(w) + IssuesFor(Orphans(d, s), OrphanSegmentFound)
                     + IssuesFor(MissingDead(d, s), DeadSegmentNotFound), SegmentIssues(d, s.segments, s.seals));
      }
    }
  }

  // ── What decides ────────────────────────────────────────────────────────────

  /** Issue `n` is the first that is not fixed without approval. */
  ghost predicate Blocks(issues: seq<FileIssue>, n: nat) {
    n < |issues| && !Minor(issues[n].issue) && forall k :: 0 <= k < n ==> Minor(issues[k].issue)
  }

  lemma {:induction false} FixUpsBlocked(issues: seq<FileIssue>, n: nat)
    requires Placed(issues) && Blocks(issues, n)
    ensures FixUps(issues, false) == Failure(if NeedsApproval(issues[n].issue) then ApprovalRequired else NotPossible)
    decreases n
  {
    assert PlacedOne(issues[0]);
    if n > 0 {
      var rest := issues[1..];
      assert forall k :: 0 <= k < |rest| ==> rest[k] == issues[k + 1];
      FixUpsBlocked(rest, n - 1);
    }
  }

  ghost predicate SomeHopeless(issues: seq<FileIssue>) {
    exists i :: 0 <= i < |issues| && Hopeless(issues[i].issue)
  }

  lemma {:induction false} FixUpsApproved(issues: seq<FileIssue>)
    requires Placed(issues)
    ensures SomeHopeless(issues) ==> FixUps(issues, true) == Failure(NotPossible)
    ensures !SomeHopeless(issues) ==> FixUps(issues, true).Success?
  {
    if issues != [] {
      var rest := issues[1..];
      assert forall k :: 0 <= k < |rest| ==> rest[k] == issues[k + 1];
      FixUpsApproved(rest);
      assert PlacedOne(issues[0]);
      if SomeHopeless(rest) {
        var i :| 0 <= i < |rest| && Hopeless(rest[i].issue);
        assert Hopeless(issues[i + 1].issue);
      }
      if SomeHopeless(issues) && !Hopeless(issues[0].issue) {
        var i :| 0 <= i < |issues| && Hopeless(issues[i].issue);
        assert Hopeless(rest[i - 1].issue);
      }
    }
  }

  lemma {:induction false} FirstBlock(issues: seq<FileIssue>) returns (n: nat)
    ensures if AllMinor(issues) then n == |issues| else Blocks(issues, n)
  {
    n := 0;
    if issues != [] && Minor(issues[0].issue) {
      var rest := issues[1..];
      assert forall k :: 0 <= k < |rest| ==> rest[k] == issues[k + 1];
      n := FirstBlock(rest);
      n := n + 1;
      assert AllMinor(issues) <==> AllMinor(rest);
    }
  }

  lemma {:induction false} PerformFails(d: Disk, fs: seq<FixUp>)
    ensures PerformAll(d, fs).result.Success? || PerformAll(d, fs).result == Failure(IoError)
    decreases |fs|
  {
    hide Performed;
    if fs != [] && Performed(d, fs[0].action).Some? {
      PerformFails(Performed(d, fs[0].action).value, fs[1..]);
    }
  }

  lemma OpenWhenFixed(trigger: nat, d: Disk, d': Disk)
    requires AttemptRecovery(d, Scan(d).issues, false) == Outcome(d', Success(())) && Scan(d').issues == []
    ensures var r := Open(trigger, d);
      Scan(r.disk).issues == [] && (r.result.Success? || r.result == Failure(Panics))
  {
    hide Scan, AttemptRecovery, MemFrom;
  }

  /** What `open` answers, on every disk.  The first issue that is not fixed without approval decides, and the disk is
      left alone: `ApprovedRecoveryRequired` for an absent active segment and for a sealed segment with a wrong checksum,
      `RecoveryNotPossible` for every other.  When there is no such issue, none is left afterwards; `RecoveryFailed` is
      never the answer. */
  lemma OpenAnswers(trigger: nat, d: Disk)
    ensures var issues, r := Scan(d).issues, Open(trigger, d);
      && (AllMinor(issues) || exists n: nat :: Blocks(issues, n))
      && (forall n: nat :: Blocks(issues, n) ==>
            r == Outcome(d, Failure(if NeedsApproval(issues[n].issue) then ApprovedRecoveryRequired else RecoveryNotPossible)))
      && (AllMinor(issues) ==> Scan(r.disk).issues == [] && (r.result.Success? || r.result == Failure(Panics)))
  {
    hide *;
    var issues := Scan(d).issues;
    var first := FirstBlock(issues);
    ScanIsPlaced(d);
    forall n: nat | n < |issues| && Blocks(issues, n)
      ensures Open(trigger, d) ==
        Outcome(d, Failure(if NeedsApproval(issues[n].issue) then ApprovedRecoveryRequired else RecoveryNotPossible))
    {
      FixUpsBlocked(issues, n);
      if NeedsApproval(issues[n].issue) {
        ApprovalDecides(trigger, d);
      } else {
        NotPossibleDecides(trigger, d);
      }
    }
    forall n: nat | Blocks(issues, n)
      ensures n < |issues|
    {
      BlocksWithin(issues, n);
    }
    if AllMinor(issues) {
      var d' := RecoveryConverges(d);
      OpenWhenFixed(trigger, d, d');
    }
  }

  lemma BlocksWithin(issues: seq<FileIssue>, n: nat)
    requires Blocks(issues, n)
    ensures n < |issues|
  {
  }

  lemma AttemptFails(d: Disk, issues: seq<FileIssue>, approved: bool, e: RecoveryError)
    requires FixUps(issues, approved) == Failure(e)
    ensures AttemptRecovery(d, issues, approved) == Outcome(d, Failure(e))
  {
    hide FixUps;
  }

  /** What `recover` answers, on every disk: `NotPossible`, with nothing changed, exactly when some issue is hopeless;
      otherwise every fix-up is tried, and only an action itself can fail. */
  lemma RecoverAnswers(d: Disk)
    ensures var issues, r := Scan(d).issues, AttemptRecovery(d, Scan(d).issues, true);
      && (SomeHopeless(issues) ==> r == Outcome(d, Failure(NotPossible)))
      && (!SomeHopeless(issues) ==> r.result.Success? || r.result == Failure(IoError))
  {
    hide *;
    var issues := Scan(d).issues;
    ScanIsPlaced(d);
    FixUpsApproved(issues);
    if SomeHopeless(issues) {
      AttemptFails(d, issues, true, NotPossible);
    } else {
      var fixes := FixUps(issues, true).value;
      AttemptIs(d, issues, fixes, true);
      PerformFails(d, ByPhase(fixes));
    }
  }

  // ── Beyond repair ───────────────────────────────────────────────────────────

  /** The manifest cannot be used: it has no magic, a record with a wrong checksum, one that cannot be read or applied,
      or none that names a segment. */
  predicate Unusable(manifest: seq<byte>) {
    || !(MANIFEST_MAGIC <= manifest)
    || Walk(manifest, MAGIC_LEN).status.ChecksumCorrupt?
    || !ReplayFrom(manifest, MAGIC_LEN, EMPTY).Replayed?
    || ReplayFrom(manifest, MAGIC_LEN, EMPTY).state.segments == []
  }

  /** Minor issues, if any, and then a hopeless one. */
  ghost predicate EndsHopeless(issues: seq<FileIssue>) {
    issues != [] && Hopeless(issues[|issues| - 1].issue) && AllMinor(issues[..|issues| - 1])
  }

  lemma ManifestEnds(w: Walked, i: FileIssue)
    requires Hopeless(i.issue)
    ensures EndsHopeless([i]) && EndsHopeless(TornManifest(w) + [i])
  {
    hide SizeOf;
    var issues := TornManifest(w) + [i];
    assert issues[..|issues| - 1] == TornManifest(w);
  }

  lemma UnusableEnds(d: Disk)
    requires Unusable(d.manifest)
    ensures EndsHopeless(Scan(d).issues)
  {
    hide Walk, ReplayFrom, SegmentReports, SegmentIssues, Orphans, MissingDead, IssuesFor, TornManifest, SizeOf, EndsHopeless;
    if !(MANIFEST_MAGIC <= d.manifest) {
      ManifestEnds(Walked([], 0, Clean), FileIssue(ManifestRef, ManifestNotReadable));
    } else {
      forall i: FileIssue | Hopeless(i.issue)
        ensures EndsHopeless([i]) && EndsHopeless(TornManifest(Walk(d.manifest, MAGIC_LEN)) + [i])
      {
        ManifestEnds(Walk(d.manifest, MAGIC_LEN), i);
      }
    }
  }

  lemma EndBlocks(issues: seq<FileIssue>)
    requires EndsHopeless(issues)
    ensures var n := |issues| - 1; n >= 0 && Blocks(issues, n) && !NeedsApproval(issues[n].issue) && SomeHopeless(issues)
  {
    var n := |issues| - 1;
    assert forall k :: 0 <= k < n ==> issues[..n][k] == issues[k];
    assert Hopeless(issues[n].issue);
  }

  /** A manifest that cannot be used is the end: neither opening nor approved recovery does anything. */
  lemma UnusableManifest(trigger: nat, d: Disk)
    requires Unusable(d.manifest)
    ensures Open(trigger, d) == Outcome(d, Failure(RecoveryNotPossible))
    ensures AttemptRecovery(d, Scan(d).issues, true) == Outcome(d, Failure(NotPossible))
  {
    hide *;
    UnusableEnds(d);
    EndBlocks(Scan(d).issues);
    OpenAnswers(trigger, d);
    RecoverAnswers(d);
  }

  /** Sealed segment `i` is gone, or has lost its length or its magic; all else is as it was. */
  ghost predicate SealedLost(w: World, d: Disk, i: nat) {
    && i < |w.mem.state.segments| - 1
    && d.manifest == w.disk.manifest
    && var id := w.mem.state.segments[i].id;
       && d.segments - {id} == w.disk.segments - {id}
       && (id in d.segments ==> |d.segments[id]| != |FileIn(w.disk, id)| || !(SEGMENT_MAGIC <= d.segments[id]))
  }

  lemma LostFiles(w: World, body: Body, d: Disk, i: nat)
    requires Inv(w, body) && SealedLost(w, d, i)
    ensures var s := w.mem.state;
      && |body| == |s.segments| && StateOk(s) && BodyOk(s, body)
      && (forall k :: 0 <= k < |body| && k != i ==> FileAt(d, s.segments[k], body[k]))
      && s.dead <= d.segments.Keys <= IdSet(s.segments) + s.dead
  {
    var s := w.mem.state;
    var id := s.segments[i].id;
    assert FilesOk(w.disk, s.segments, body) && IdsOk(w.mem, w.disk) && StateOk(s);
    assert id in IdSet(s.segments);
    hide BodyOk, Image, IdSet, CursorOk, LastOk, ManifestOk, IndexSound;
    forall k | 0 <= k < |body| && k != i
      ensures FileAt(d, s.segments[k], body[k])
    {
      assert FileAt(w.disk, s.segments[k], body[k]);
      assert s.segments[k].id != id;
      assert s.segments[k].id in w.disk.segments - {id};
      assert (d.segments - {id})[s.segments[k].id] == d.segments[s.segments[k].id];
    }
    forall x | x in s.dead
      ensures x in d.segments
    {
      assert x != id;
      assert x in w.disk.segments - {id};
    }
    forall x | x in d.segments
      ensures x in IdSet(s.segments) + s.dead
    {
      assert x != id ==> x in d.segments - {id};
    }
  }

  lemma LostIsHopeless(w: World, body: Body, d: Disk, i: nat)
    requires Inv(w, body) && SealedLost(w, d, i)
    ensures var s := w.mem.state;
      var issues := ScanSegment(d, s.segments[i].id, ExpectedLen(s.seals, s.segments[i].id)).1;
      |issues| == 1 && Hopeless(issues[0].issue)
  {
    var s := w.mem.state;
    assert BodyOk(s, body) && FilesOk(w.disk, s.segments, body);
    hide Inv;
    BodyLength(s, body);
    assert SealedAt(s, body, i);
    assert FileAt(w.disk, s.segments[i], body[i]);
    hide BodyOk, FilesOk, Walk, CheckpointsOf, Image;
  }

  lemma {:induction false} OneHasIssues(d: Disk, segs: seq<Segment>, seals: map<SegmentId, Seal>, i: nat)
    requires i < |segs|
    requires forall k :: 0 <= k < |segs| && k != i ==> ScanSegment(d, segs[k].id, ExpectedLen(seals, segs[k].id)).1 == []
    ensures SegmentIssues(d, segs, seals) == ScanSegment(d, segs[i].id, ExpectedLen(seals, segs[i].id)).1
    decreases i
  {
    hide ScanSegment, ExpectedLen;
    var rest := segs[1..];
    assert forall k :: 0 <= k < |rest| ==> rest[k] == segs[k + 1];
    if i == 0 {
      NoIssues(d, rest, seals);
    } else {
      OneHasIssues(d, rest, seals, i - 1);
    }
  }

  lemma ScanLiveAt(d: Disk, s: State, body: Body, k: nat)
    requires StateOk(s) && BodyOk(s, body) && k < |body| && FileAt(d, s.segments[k], body[k])
    ensures ScanSegment(d, s.segments[k].id, ExpectedLen(s.seals, s.segments[k].id)).1 == []
  {
    if k + 1 < |body| {
      assert SealedAt(s, body, k);
    } else {
      LastUnsealed(s);
    }
    hide StateOk, BodyOk, FileAt, ScanSegment, CleanReport, Image;
    ScanImage(d, s.segments[k], body[k], ExpectedLen(s.seals, s.segments[k].id));
  }

  /** So is a sealed segment without its file, its length or its magic. */
  lemma LostSealed(trigger: nat, w: World, body: Body, d: Disk, i: nat)
    requires Inv(w, body) && SealedLost(w, d, i)
    ensures Open(trigger, d) == Outcome(d, Failure(RecoveryNotPossible))
    ensures AttemptRecovery(d, Scan(d).issues, true) == Outcome(d, Failure(NotPossible))
  {
    hide *;
    var s := w.mem.state;
    LostFiles(w, body, d, i);
    forall k | 0 <= k < |s.segments| && k != i
      ensures ScanSegment(d, s.segments[k].id, ExpectedLen(s.seals, s.segments[k].id)).1 == []
    {
      ScanLiveAt(d, s, body, k);
    }
    LostWithin(w, d, i);
    OneHasIssues(d, s.segments, s.seals, i);
    LostIsHopeless(w, body, d, i);
    InvIsSettled(w, body);
    SettledHolds(w, body);
    ScanKnown(d, s);
    OneEnds(Scan(d).issues);
    EndBlocks(Scan(d).issues);
    OpenAnswers(trigger, d);
    RecoverAnswers(d);
  }

  lemma LostWithin(w: World, d: Disk, i: nat)
    requires SealedLost(w, d, i)
    ensures i < |w.mem.state.segments| && w.mem.state.segments != [] && d.manifest == w.disk.manifest
  {
  }

  lemma SettledHolds(w: World, body: Body)
    requires Inv(w, body)
    ensures ManifestHolds(w.disk.manifest, w.mem.state)
  {
    hide StateOk, BodyOk, FilesOk, CursorOk, LastOk, IdsOk, IndexSound, ManifestHolds;
  }

  lemma OneEnds(issues: seq<FileIssue>)
    requires |issues| == 1 && Hopeless(issues[0].issue)
    ensures EndsHopeless(issues)
  {
    assert issues[..0] == [];
  }

  // ── Damaged sealed segments ─────────────────────────────────────────────────

  /** The file of `id` holds something else than whole frames behind its magic. */
  predicate StopsEarly(d: Disk, id: SegmentId) {
    OpenSegment(d, id).Some? && !Walk(d.segments[id], MAGIC_LEN).status.Clean?
  }

  /** Bytes of live files have changed, but for the magic; sealed files have kept their lengths. */
  ghost predicate Damaged(w: World, d: Disk) {
    && d.manifest == w.disk.manifest && d.segments.Keys == w.disk.segments.Keys
    && forall i :: 0 <= i < |w.mem.state.segments| ==> DamagedAt(w, d, i)
  }

  ghost predicate DamagedAt(w: World, d: Disk, i: nat)
    requires i < |w.mem.state.segments|
  {
    var id := w.mem.state.segments[i].id;
    && OpenSegment(d, id).Some?
    && (i < |w.mem.state.segments| - 1 ==> |d.segments[id]| == |FileIn(w.disk, id)|)
  }

  ghost predicate SealedStops(w: World, d: Disk) {
    exists i :: 0 <= i < |w.mem.state.segments| - 1 && StopsEarly(d, w.mem.state.segments[i].id)
  }

  /** Live files that stop early are left with their magic and their whole frames; every other file is as it was. */
  function CutShort(d: Disk, s: State): Disk {
    d.(segments := map id | id in d.segments ::
      if id in IdSet(s.segments) && StopsEarly(d, id) then Image(Walk(d.segments[id], MAGIC_LEN).frames) else d.segments[id])
  }

  /** One mismatch for every sealed segment that stops early: the recorded length, and the shorter one. */
  function Mismatches(d: Disk, segs: seq<Segment>, seals: map<SegmentId, Seal>): seq<FileIssue> {
    if segs == [] then []
    else
      var id := segs[0].id;
      (if id in seals && StopsEarly(d, id) then
         [FileIssue(SegmentRef(id), SealedSegmentSizeMismatch(seals[id].finalSize, |Image(Walk(d.segments[id], MAGIC_LEN).frames)|))]
       else [])
      + Mismatches(d, segs[1..], seals)
  }

  /** A live segment as the scan of the damaged disk finds it. */
  ghost predicate Readable(d: Disk, id: SegmentId, seals: map<SegmentId, Seal>) {
    OpenSegment(d, id).Some? && (id in seals ==> |d.segments[id]| == seals[id].finalSize)
  }

  ghost predicate AllReadable(d: Disk, segs: seq<Segment>, seals: map<SegmentId, Seal>) {
    forall i :: 0 <= i < |segs| ==> Readable(d, segs[i].id, seals)
  }

  function StopIssue(d: Disk, id: SegmentId, sealed: bool): FileIssue
    requires StopsEarly(d, id)
  {
    var end := Walk(d.segments[id], MAGIC_LEN).end;
    FileIssue(SegmentRef(id), if sealed then SealedSegmentChecksumCorrupt(end) else ActiveSegmentTornTail(end))
  }

  lemma ScanReadableSegment(d: Disk, id: SegmentId, seals: map<SegmentId, Seal>)
    requires Readable(d, id, seals)
    ensures ScanSegment(d, id, ExpectedLen(seals, id)).1 == if StopsEarly(d, id) then [StopIssue(d, id, id in seals)] else []
  {
    WalkIsEncoding(d.segments[id], MAGIC_LEN);
    hide Walk, CheckpointsOf, SizeOf;
  }

  /** The fix-up for a live segment that stops early. */
  function CutFix(d: Disk, id: SegmentId, sealed: bool): FixUp
    requires StopsEarly(d, id)
  {
    FixUp(SegmentFileClean, sealed, TruncateSegment(id, Walk(d.segments[id], MAGIC_LEN).end))
  }

  function CutFixes(d: Disk, segs: seq<Segment>, seals: map<SegmentId, Seal>): seq<FixUp> {
    if segs == [] then []
    else
      (if StopsEarly(d, segs[0].id) then [CutFix(d, segs[0].id, segs[0].id in seals)] else []) + CutFixes(d, segs[1..], seals)
  }

  lemma FixUpsOfStop(d: Disk, id: SegmentId, sealed: bool)
    requires StopsEarly(d, id)
    ensures FixUps([StopIssue(d, id, sealed)], true) == Success([CutFix(d, id, sealed)])
  {
    hide Walk;
    assert [StopIssue(d, id, sealed)][1..] == [];
    assert [CutFix(d, id, sealed)] + [] == [CutFix(d, id, sealed)];
  }

  lemma {:induction false} FixUpsOfDamage(d: Disk, segs: seq<Segment>, seals: map<SegmentId, Seal>)
    requires AllReadable(d, segs, seals)
    ensures FixUps(SegmentIssues(d, segs, seals), true) == Success(CutFixes(d, segs, seals))
    decreases |segs|
  {
    hide ScanSegment, ExpectedLen, Readable, StopsEarly, StopIssue, CutFix, FixUps;
    if segs == [] {
      NothingApproved();
    } else {
      var id, rest := segs[0].id, segs[1..];
      ScanReadableSegment(d, id, seals);
      assert forall i :: 0 <= i < |rest| ==> rest[i] == segs[i + 1];
      FixUpsOfDamage(d, rest, seals);
      if StopsEarly(d, id) {
        FixUpsOfStop(d, id, id in seals);
        FixUpsConcat([StopIssue(d, id, id in seals)], SegmentIssues(d, rest, seals), true);
      } else {
        assert [] + SegmentIssues(d, rest, seals) == SegmentIssues(d, rest, seals);
        assert [] + CutFixes(d, rest, seals) == CutFixes(d, rest, seals);
      }
    }
  }

  lemma NothingApproved()
    ensures FixUps([], true) == Success([])
  {
  }

  lemma {:induction false} CutFixesPhase(d: Disk, segs: seq<Segment>, seals: map<SegmentId, Seal>)
    ensures AllIn(CutFixes(d, segs, seals), SegmentFileClean)
    decreases |segs|
  {
    hide StopsEarly, Walk;
    if segs != [] {
      CutFixesPhase(d, segs[1..], seals);
    }
  }

  lemma CutFixesSorted(d: Disk, segs: seq<Segment>, seals: map<SegmentId, Seal>)
    ensures ByPhase(CutFixes(d, segs, seals)) == CutFixes(d, segs, seals)
  {
    hide *;
    var fs := CutFixes(d, segs, seals);
    CutFixesPhase(d, segs, seals);
    NonePhase();
    ByPhaseGrouped([], [], fs);
    assert [] + [] + fs == fs;
  }

  lemma NonePhase()
    ensures AllIn([], ManifestFileClean) && AllIn([], ManifestAppends)
  {
  }

  /** `d1` with the files of `segs` cut as in `CutShort`. */
  ghost predicate CutFrom(d: Disk, segs: seq<Segment>, d1: Disk, d2: Disk) {
    && d2.manifest == d1.manifest && d2.segments.Keys == d1.segments.Keys
    && forall id :: id in d1.segments ==>
         d2.segments[id] ==
           if id in IdSet(segs) && StopsEarly(d, id) then Image(Walk(d.segments[id], MAGIC_LEN).frames) else d1.segments[id]
  }

  lemma PerformCut(d: Disk, d1: Disk, id: SegmentId, sealed: bool)
    requires StopsEarly(d, id) && id in d1.segments && d1.segments[id] == d.segments[id]
    ensures Performed(d1, CutFix(d, id, sealed).action) ==
      Some(WithSegment(d1, id, Image(Walk(d.segments[id], MAGIC_LEN).frames)))
  {
    WalkedPart(SEGMENT_MAGIC, d.segments[id]);
    hide Walk, SetLen, SizeOf;
  }

  lemma CutFirst(d: Disk, segs: seq<Segment>, d1: Disk, d2: Disk)
    requires segs != [] && DistinctIds(segs) && segs[0].id in d1.segments
    requires var id := segs[0].id;
      CutFrom(d, segs[1..],
              if StopsEarly(d, id) then WithSegment(d1, id, Image(Walk(d.segments[id], MAGIC_LEN).frames)) else d1, d2)
    ensures CutFrom(d, segs, d1, d2)
  {
    IdSetCons(segs);
    assert segs[0].id !in IdSet(segs[1..]) by {
      assert forall i :: 0 <= i < |segs[1..]| ==> segs[1..][i] == segs[i + 1];
    }
    hide IdSet, StopsEarly, Image, Walk;
  }

  lemma {:induction false} PerformCuts(d: Disk, segs: seq<Segment>, seals: map<SegmentId, Seal>, d1: Disk) returns (d2: Disk)
    requires DistinctIds(segs)
    requires forall i :: 0 <= i < |segs| ==>
      segs[i].id in d.segments && segs[i].id in d1.segments && d1.segments[segs[i].id] == d.segments[segs[i].id]
    ensures PerformAll(d1, CutFixes(d, segs, seals)) == Outcome(d2, Success(()))
    ensures CutFrom(d, segs, d1, d2)
    decreases |segs|
  {
    hide StopsEarly, Walk, Image, Performed, CutFix, CutFrom;
    if segs == [] {
      d2 := d1;
      NothingCutFrom(d, d1);
    } else {
      var id, rest := segs[0].id, segs[1..];
      assert forall i :: 0 <= i < |rest| ==> rest[i] == segs[i + 1];
      if StopsEarly(d, id) {
        PerformCut(d, d1, id, id in seals);
        var d' := WithSegment(d1, id, Image(Walk(d.segments[id], MAGIC_LEN).frames));
        d2 := PerformCuts(d, rest, seals, d');
        assert CutFixes(d, segs, seals)[1..] == CutFixes(d, rest, seals);
      } else {
        d2 := PerformCuts(d, rest, seals, d1);
        assert [] + CutFixes(d, rest, seals) == CutFixes(d, rest, seals);
      }
      CutFirst(d, segs, d1, d2);
    }
  }

  lemma NothingCutFrom(d: Disk, d1: Disk)
    ensures CutFrom(d, [], d1, d1)
  {
  }

  lemma CutFromIs(d: Disk, s: State, d2: Disk)
    requires CutFrom(d, s.segments, d, d2)
    ensures d2 == CutShort(d, s)
  {
    hide StopsEarly, IdSet, Image, Walk;
  }

  /** After the cut each live file holds whole frames only. */
  lemma CutSegment(d: Disk, s: State, id: SegmentId)
    requires id in IdSet(s.segments) && Readable(d, id, s.seals)
    ensures var d' := CutShort(d, s);
      ScanSegment(d', id, ExpectedLen(s.seals, id)).1 ==
        if id in s.seals && StopsEarly(d, id) then
          [FileIssue(SegmentRef(id), SealedSegmentSizeMismatch(s.seals[id].finalSize, |Image(Walk(d.segments[id], MAGIC_LEN).frames)|))]
        else []
  {
    var d', file := CutShort(d, s), d.segments[id];
    var fs := Walk(file, MAGIC_LEN).frames;
    assert d'.segments[id] == if StopsEarly(d, id) then Image(fs) else file;
    if StopsEarly(d, id) {
      FileOfBody(SEGMENT_MAGIC, fs);
      FileOfWalk(SEGMENT_MAGIC, fs);
      StopsShorter(file);
    } else {
      ScanReadableSegment(d, id, s.seals);
      assert Readable(d', id, s.seals);
      ScanReadableSegment(d', id, s.seals);
    }
    hide Walk, CheckpointsOf, SizeOf, IdSet, FileOf, CutShort;
  }

  lemma StopsShorter(file: seq<byte>)
    requires SEGMENT_MAGIC <= file && !Walk(file, MAGIC_LEN).status.Clean?
    ensures |Image(Walk(file, MAGIC_LEN).frames)| < |file|
  {
    WalkIsEncoding(file, MAGIC_LEN);
    WalkStops(file, MAGIC_LEN);
    hide Walk, SizeOf;
  }

  lemma {:induction false} CutIssues(d: Disk, s: State, segs: seq<Segment>)
    requires IdSet(segs) <= IdSet(s.segments) && AllReadable(d, segs, s.seals)
    ensures SegmentIssues(CutShort(d, s), segs, s.seals) == Mismatches(d, segs, s.seals)
    decreases |segs|
  {
    hide ScanSegment, ExpectedLen, Readable, StopsEarly, CutShort, Image, Walk;
    if segs != [] {
      IdSetCons(segs);
      assert forall i :: 0 <= i < |segs[1..]| ==> segs[1..][i] == segs[i + 1];
      assert Readable(d, segs[0].id, s.seals);
      hide IdSet;
      CutSegment(d, s, segs[0].id);
      CutIssues(d, s, segs[1..]);
    }
  }

  // ── The theorem ─────────────────────────────────────────────────────────────

  lemma DamagedReadable(w: World, body: Body, d: Disk)
    requires Inv(w, body) && Damaged(w, d)
    ensures var s := w.mem.state;
      && s.segments != [] && DistinctIds(s.segments) && AllReadable(d, s.segments, s.seals)
      && s.seals.Keys == IdSet(s.segments[..|s.segments| - 1])
      && s.dead <= d.segments.Keys <= IdSet(s.segments) + s.dead
      && (forall i :: 0 <= i < |s.segments| ==> s.segments[i].id in d.segments)
  {
    var s := w.mem.state;
    assert StateOk(s) && BodyOk(s, body) && FilesOk(w.disk, s.segments, body) && IdsOk(w.mem, w.disk);
    LastUnsealed(s);
    hide Inv, ManifestOk, LastOk, IndexSound, Image, CursorOk;
    forall i | 0 <= i < |s.segments|
      ensures Readable(d, s.segments[i].id, s.seals)
    {
      assert DamagedAt(w, d, i);
      if i < |s.segments| - 1 {
        assert SealedAt(s, body, i);
        assert FileAt(w.disk, s.segments[i], body[i]);
      }
    }
  }

  lemma DamageIssues(w: World, body: Body, d: Disk)
    requires Inv(w, body) && Damaged(w, d)
    ensures Scan(d).issues == SegmentIssues(d, w.mem.state.segments, w.mem.state.seals)
    ensures Scan(d).state == w.mem.state
  {
    hide *;
    var s := w.mem.state;
    DamagedReadable(w, body, d);
    InvIsSettled(w, body);
    ManifestSame(w, body, d);
    ScanKnown(d, s);
    HoldsReadable(d.manifest, s);
    ScanReadable(d, s);
  }

  lemma ManifestSame(w: World, body: Body, d: Disk)
    requires Inv(w, body) && Damaged(w, d)
    ensures ManifestHolds(d.manifest, w.mem.state)
  {
    hide StateOk, BodyOk, FilesOk, CursorOk, LastOk, IdsOk, IndexSound, ManifestHolds, DamagedAt;
  }

  ghost predicate Stops(issues: seq<FileIssue>) {
    forall i :: 0 <= i < |issues| ==> Minor(issues[i].issue) || issues[i].issue.SealedSegmentChecksumCorrupt?
  }

  lemma StopsConcat(a: seq<FileIssue>, b: seq<FileIssue>)
    requires Stops(a) && Stops(b)
    ensures Stops(a + b)
  {
  }

  lemma StopsHere(d: Disk, id: SegmentId, seals: map<SegmentId, Seal>)
    requires Readable(d, id, seals)
    ensures Stops(ScanSegment(d, id, ExpectedLen(seals, id)).1)
  {
    hide *;
    ScanReadableSegment(d, id, seals);
    if StopsEarly(d, id) {
      OneStop(d, id, id in seals);
    } else {
      NoStops();
    }
  }

  lemma OneStop(d: Disk, id: SegmentId, sealed: bool)
    requires StopsEarly(d, id)
    ensures Stops([StopIssue(d, id, sealed)])
  {
    hide StopsEarly, Walk;
  }

  lemma NoStops()
    ensures Stops([])
  {
  }

  lemma {:induction false} OnlyStops(d: Disk, segs: seq<Segment>, seals: map<SegmentId, Seal>)
    requires AllReadable(d, segs, seals)
    ensures Stops(SegmentIssues(d, segs, seals))
    decreases |segs|
  {
    hide ScanSegment, ExpectedLen, Readable;
    if segs != [] {
      var rest := segs[1..];
      assert forall i :: 0 <= i < |rest| ==> rest[i] == segs[i + 1];
      OnlyStops(d, rest, seals);
      StopsHere(d, segs[0].id, seals);
      hide Stops;
      StopsConcat(ScanSegment(d, segs[0].id, ExpectedLen(seals, segs[0].id)).1, SegmentIssues(d, rest, seals));
    }
  }

  lemma MinorAt(d: Disk, id: SegmentId, seals: map<SegmentId, Seal>)
    requires Readable(d, id, seals)
    ensures AllMinor(ScanSegment(d, id, ExpectedLen(seals, id)).1) <==> id !in seals || !StopsEarly(d, id)
  {
    hide *;
    ScanReadableSegment(d, id, seals);
    if StopsEarly(d, id) {
      OneMinor(StopIssue(d, id, id in seals));
      StopKind(d, id, id in seals);
    } else {
      NoneMinor();
    }
  }

  lemma StopKind(d: Disk, id: SegmentId, sealed: bool)
    requires StopsEarly(d, id)
    ensures Minor(StopIssue(d, id, sealed).issue) <==> !sealed
  {
    hide StopsEarly, Walk;
  }

  lemma MinorUnlessSealed(d: Disk, s: State)
    requires s.segments != [] && DistinctIds(s.segments) && AllReadable(d, s.segments, s.seals)
    requires s.seals.Keys == IdSet(s.segments[..|s.segments| - 1])
    ensures AllMinor(SegmentIssues(d, s.segments, s.seals)) <==>
      forall i :: 0 <= i < |s.segments| - 1 ==> !StopsEarly(d, s.segments[i].id)
  {
    SegmentIssuesMinor(d, s.segments, s.seals);
    SealedButLast(s);
    hide ScanSegment, ExpectedLen, Readable, StopsEarly, SegmentIssues, DistinctIds, IdSet, AllMinor;
    forall i | 0 <= i < |s.segments|
      ensures AllMinor(IssuesAt(d, s.segments, s.seals, i)) <==> i == |s.segments| - 1 || !StopsEarly(d, s.segments[i].id)
    {
      assert Readable(d, s.segments[i].id, s.seals);
      MinorAt(d, s.segments[i].id, s.seals);
    }
  }

  lemma SealedButLast(s: State)
    requires s.segments != [] && DistinctIds(s.segments)
    requires s.seals.Keys == IdSet(s.segments[..|s.segments| - 1])
    ensures forall i :: 0 <= i < |s.segments| ==> (s.segments[i].id in s.seals <==> i < |s.segments| - 1)
  {
    var n := |s.segments| - 1;
    IdSetDisjoint(s.segments, n);
    assert s.segments[n..][0] == s.segments[n];
    assert forall i :: 0 <= i < n ==> s.segments[..n][i] == s.segments[i];
  }

  lemma OneMinor(i: FileIssue)
    ensures AllMinor([i]) <==> Minor(i.issue)
  {
    assert [i][0] == i;
  }

  lemma {:induction false} MismatchesHopeless(d: Disk, segs: seq<Segment>, seals: map<SegmentId, Seal>)
    ensures forall i :: 0 <= i < |Mismatches(d, segs, seals)| ==> Mismatches(d, segs, seals)[i].issue.SealedSegmentSizeMismatch?
    ensures Mismatches(d, segs, seals) == [] <==>
      forall i :: 0 <= i < |segs| ==> !(segs[i].id in seals && StopsEarly(d, segs[i].id))
    decreases |segs|
  {
    hide StopsEarly, Image, Walk;
    if segs != [] {
      MismatchesHopeless(d, segs[1..], seals);
      assert forall i :: 0 <= i < |segs| - 1 ==> segs[1..][i] == segs[i + 1];
    }
  }

  lemma SealedStopsIs(w: World, d: Disk)
    requires w.mem.state.segments != [] && DistinctIds(w.mem.state.segments)
    requires w.mem.state.seals.Keys == IdSet(w.mem.state.segments[..|w.mem.state.segments| - 1])
    ensures var segs := w.mem.state.segments;
      SealedStops(w, d) <==> !(forall i :: 0 <= i < |segs| ==> !(segs[i].id in w.mem.state.seals && StopsEarly(d, segs[i].id)))
  {
    SealedButLast(w.mem.state);
    hide StopsEarly, DistinctIds, IdSet;
  }

  lemma CutShortFiles(d: Disk, s: State)
    ensures CutShort(d, s).manifest == d.manifest && CutShort(d, s).segments.Keys == d.segments.Keys
  {
    hide StopsEarly, IdSet, Image, Walk;
  }

  lemma DamageAnswered(trigger: nat, w: World, body: Body, d: Disk)
    requires Inv(w, body) && Damaged(w, d)
    ensures Open(trigger, d) == Outcome(d, Failure(ApprovedRecoveryRequired)) <==> SealedStops(w, d)
  {
    hide *;
    var s, issues := w.mem.state, Scan(d).issues;
    DamagedReadable(w, body, d);
    DamageIssues(w, body, d);
    OpenAnswers(trigger, d);
    MinorUnlessSealed(d, s);
    SealedStopsAt(w, d);
    if !AllMinor(issues) {
      var n: nat :| Blocks(issues, n);
      BlocksWithin(issues, n);
      OnlyStops(d, s.segments, s.seals);
      StopNeedsApproval(issues, n);
    }
  }

  lemma StopNeedsApproval(issues: seq<FileIssue>, n: nat)
    requires Stops(issues) && Blocks(issues, n)
    ensures NeedsApproval(issues[n].issue)
  {
  }

  lemma SealedStopsAt(w: World, d: Disk)
    requires w.mem.state.segments != []
    ensures var segs := w.mem.state.segments;
      SealedStops(w, d) <==> !(forall i :: 0 <= i < |segs| - 1 ==> !StopsEarly(d, segs[i].id))
  {
    hide StopsEarly;
  }

  lemma DamageCut(w: World, body: Body, d: Disk)
    requires Inv(w, body) && Damaged(w, d)
    ensures var s, cut := w.mem.state, CutShort(d, w.mem.state);
      && AttemptRecovery(d, Scan(d).issues, true) == Outcome(cut, Success(()))
      && Scan(cut).issues == Mismatches(d, s.segments, s.seals)
  {
    hide *;
    var s, cut := w.mem.state, CutShort(d, w.mem.state);
    DamagedReadable(w, body, d);
    DamageIssues(w, body, d);
    ManifestSame(w, body, d);
    FixUpsOfDamage(d, s.segments, s.seals);
    AttemptIs(d, Scan(d).issues, CutFixes(d, s.segments, s.seals), true);
    CutFixesSorted(d, s.segments, s.seals);
    var d2 := PerformCuts(d, s.segments, s.seals, d);
    CutFromIs(d, s, d2);
    CutShortFiles(d, s);
    ScanKnown(cut, s);
    CutIssues(d, s, s.segments);
  }

  lemma CutStaysClosed(trigger: nat, w: World, body: Body, d: Disk)
    requires Inv(w, body) && Damaged(w, d) && SealedStops(w, d)
    requires Scan(CutShort(d, w.mem.state)).issues == Mismatches(d, w.mem.state.segments, w.mem.state.seals)
    ensures var cut := CutShort(d, w.mem.state);
      && Open(trigger, cut) == Outcome(cut, Failure(RecoveryNotPossible))
      && AttemptRecovery(cut, Scan(cut).issues, true) == Outcome(cut, Failure(NotPossible))
  {
    hide *;
    var s, cut := w.mem.state, CutShort(d, w.mem.state);
    DamagedReadable(w, body, d);
    SealedStopsIs(w, d);
    MismatchesHopeless(d, s.segments, s.seals);
    MismatchBlocks(Scan(cut).issues);
    OpenAnswers(trigger, cut);
    RecoverAnswers(cut);
  }

  lemma MismatchBlocks(issues: seq<FileIssue>)
    requires issues != [] && issues[0].issue.SealedSegmentSizeMismatch?
    ensures Blocks(issues, 0) && !NeedsApproval(issues[0].issue) && SomeHopeless(issues)
  {
    assert Hopeless(issues[0].issue);
  }

  /** Sealed segments with bytes changed but their length kept.  Opening asks for approval if and only if one of them no
      longer reads to its end.  Approved recovery then succeeds: it leaves every live file that stops early with its
      magic and its whole frames, and all else unchanged.  But the next scan reports each shortened sealed segment as a
      size mismatch, for which there is no fix-up: the store stays closed. */
  lemma DamagedSealed(trigger: nat, w: World, body: Body, d: Disk)
    requires Inv(w, body) && Damaged(w, d)
    ensures var cut := CutShort(d, w.mem.state);
      && (Open(trigger, d) == Outcome(d, Failure(ApprovedRecoveryRequired)) <==> SealedStops(w, d))
      && AttemptRecovery(d, Scan(d).issues, true) == Outcome(cut, Success(()))
      && Scan(cut).issues == Mismatches(d, w.mem.state.segments, w.mem.state.seals)
      && (SealedStops(w, d) ==>
            && Open(trigger, cut) == Outcome(cut, Failure(RecoveryNotPossible))
            && AttemptRecovery(cut, Scan(cut).issues, true) == Outcome(cut, Failure(NotPossible)))
  {
    hide *;
    DamageAnswered(trigger, w, body, d);
    DamageCut(w, body, d);
    if SealedStops(w, d) {
      CutStaysClosed(trigger, w, body, d);
    }
  }
}
