/** Recovery converges: when a scan finds nothing worse than a short manifest tail, damaged tails of unsealed
    segments, orphans and missing dead segments, the automatic fix-ups succeed and the next scan finds nothing. */
module RecoveryLaws {
  import opened Basics
  import opened Frames
  import opened State
  import opened StateLaws
  import opened Disk
  import opened Recovery
  import opened Reopening
  import opened Mending

  // ── Any number of fix-ups ───────────────────────────────────────────────────

  lemma {:induction false} FixesForTake(ids: seq<SegmentId>, orphan: bool, k: nat)
    requires k <= |ids|
    ensures |FixesFor(ids, orphan)| == |ids|
    ensures FixesFor(ids, orphan)[..k] == FixesFor(ids[..k], orphan)
  {
    if ids != [] {
      FixesForTake(ids[1..], orphan, if k > 0 then k - 1 else 0);
      if k > 0 {
        assert ids[..k][1..] == ids[1..][..k - 1];
      }
    }
  }

  lemma CanMarkTake(s: State, ids: seq<SegmentId>, orphan: bool, k: nat)
    requires CanMark(s, ids, orphan) && k <= |ids|
    ensures CanMark(s, ids[..k], orphan)
  {
  }

  lemma TakeFront<T>(a: seq<T>, b: seq<T>, k: nat)
    requires k <= |a|
    ensures (a + b)[..k] == a[..k]
  {
  }

  lemma TakeBack<T>(a: seq<T>, b: seq<T>, k: nat)
    requires |a| <= k <= |a| + |b|
    ensures (a + b)[..k] == a + b[..k - |a|]
  {
  }

  /** How far the dead set can have moved while orphans are added and missing files removed. */
  ghost predicate DeadUnderway(d: Disk, s: State, dead: set<SegmentId>) {
    s.dead * d.segments.Keys <= dead <= s.dead + Unknown(d, s)
  }

  lemma DeadConverges(disk: set<SegmentId>, live: set<SegmentId>, dead: set<SegmentId>)
    ensures (dead + (disk - (live + dead))) - (dead - disk) == dead * disk + (disk - (live + dead))
  {
  }

  /** After some of the orphans have been recorded, or all of them and some of the deletions. */
  lemma PartlyAppended(d: Disk, d1: Disk, s: State, k: nat) returns (d': Disk, dead: set<SegmentId>)
    requires ManifestHolds(d1.manifest, s) && d1.segments == d.segments
    requires k <= |FixesFor(Orphans(d, s), true) + FixesFor(MissingDead(d, s), false)|
    ensures var fs := FixesFor(Orphans(d, s), true) + FixesFor(MissingDead(d, s), false);
      && PerformAll(d1, fs[..k]) == Outcome(d', Success(()))
      && (k == |fs| ==> dead == Reconciled(d, s).dead)
    ensures d'.segments == d.segments && DeadUnderway(d, s, dead) && ManifestHolds(d'.manifest, WithDead(s, dead))
  {
    hide ManifestHolds, IdSet, Orphans, MissingDead, PerformAll, FixesFor, CanMark, Elements;
    var o, m := Orphans(d, s), MissingDead(d, s);
    OrphansAre(d, s);
    MissingAre(d, s);
    FixesForTake(o, true, |o|);
    FixesForTake(m, false, |m|);
    DeadConverges(d.segments.Keys, IdSet(s.segments), s.dead);
    var x, y := FixesFor(o, true), FixesFor(m, false);
    if k <= |o| {
      TakeFront(x, y, k);
      FixesForTake(o, true, k);
      CanMarkOrphans(s, o[..k]);
      d' := PerformAppends(d1, s, o[..k], true);
      dead := s.dead + Elements(o[..k]);
      ElementsTake(o, k);
      if k == |x + y| {
        assert m == [] && o[..k] == o;
        assert Elements(m) == {} by { NoElements(m); }
      }
    } else {
      TakeBack(x, y, k);
      FixesForTake(m, false, k - |o|);
      CanMarkOrphans(s, o);
      var t := WithDead(s, s.dead + Elements(o));
      var d2 := PerformAppends(d1, s, o, true);
      CanMarkTake(t, m, false, k - |o|);
      d' := PerformAppends(d2, t, m[..k - |o|], false);
      PerformConcat(d1, x, y[..k - |o|]);
      dead := t.dead - Elements(m[..k - |o|]);
      ElementsTake(m, k - |o|);
      assert WithDead(t, dead) == WithDead(s, dead);
      assert k == |x + y| ==> m[..k - |o|] == m;
    }
  }

  lemma CanMarkOrphans(s: State, ids: seq<SegmentId>)
    ensures CanMark(s, ids, true)
  {
  }

  lemma ElementsTake(ids: seq<SegmentId>, k: nat)
    requires k <= |ids|
    ensures Elements(ids[..k]) <= Elements(ids)
  {
  }

  lemma NoElements(ids: seq<SegmentId>)
    requires ids == []
    ensures Elements(ids) == {}
  {
  }

  /** Somewhere in the middle of recovering `d`, whose manifest read as `s`. */
  ghost predicate Underway(d: Disk, s: State, d': Disk, s': State) {
    && s' == WithDead(s, s'.dead) && DeadUnderway(d, s, s'.dead)
    && ManifestReadable(d'.manifest, s') && PartlyMended(d, s, d')
  }

  lemma UntouchedFiles(d: Disk, s: State, d': Disk)
    requires d'.segments == d.segments
    ensures PartlyMended(d, s, d')
  {
    hide IdSet, Mended;
  }

  /** Before the segment files are touched. */
  lemma PartlyManifest(d: Disk, s: State, k: nat) returns (d': Disk, s': State)
    requires ManifestReadable(d.manifest, s) && |d.manifest| >= MAGIC_LEN
    requires var a := ManifestFixes(Walk(d.manifest, MAGIC_LEN));
      k <= |a + (FixesFor(Orphans(d, s), true) + FixesFor(MissingDead(d, s), false))|
    ensures var a := ManifestFixes(Walk(d.manifest, MAGIC_LEN));
      var b := FixesFor(Orphans(d, s), true) + FixesFor(MissingDead(d, s), false);
      && PerformAll(d, (a + b)[..k]) == Outcome(d', Success(()))
      && (k >= |a| ==> ManifestHolds(d'.manifest, s'))
      && (k == |a + b| ==> s' == Reconciled(d, s))
    ensures d'.segments == d.segments && Underway(d, s, d', s')
  {
    hide ManifestHolds, ManifestReadable, FixesFor, Orphans, MissingDead, PerformAll, ManifestFixes, Walk, SetLen,
      PartlyMended, Unknown;
    var a := ManifestFixes(Walk(d.manifest, MAGIC_LEN));
    var b := FixesFor(Orphans(d, s), true) + FixesFor(MissingDead(d, s), false);
    PerformManifest(d, s);
    var d1 := d.(manifest := SetLen(d.manifest, Walk(d.manifest, MAGIC_LEN).end));
    AtMostOne(Walk(d.manifest, MAGIC_LEN));
    if k < |a| {
      assert (a + b)[..k] == [];
      PerformNone(d);
      d', s' := d, s;
      assert WithDead(s, s.dead) == s;
    } else {
      TakeBack(a, b, k);
      var dead;
      d', dead := PartlyAppended(d, d1, s, k - |a|);
      s' := WithDead(s, dead);
      PerformConcat(d, a, b[..k - |a|]);
      HoldsReadable(d'.manifest, s');
      assert k == |a + b| ==> s' == Reconciled(d, s) by { ReconciledIs(d, s); }
    }
    UntouchedFiles(d, s, d');
  }

  lemma AtMostOne(w: Walked)
    ensures |ManifestFixes(w)| <= 1
  {
  }

  lemma ReconciledIs(d: Disk, s: State)
    ensures Reconciled(d, s) == WithDead(s, Reconciled(d, s).dead)
  {
    hide IdSet;
  }

  lemma SplitFixes(d: Disk, s: State)
    requires |d.manifest| >= MAGIC_LEN
    ensures MinorFixes(d, s) == ManifestFixes(Walk(d.manifest, MAGIC_LEN))
      + (FixesFor(Orphans(d, s), true) + FixesFor(MissingDead(d, s), false)) + TailFixes(d, s.segments, s.seals)
  {
    hide ManifestFixes, FixesFor, TailFixes, Walk, Orphans, MissingDead;
  }

  /** The disk and the recorded state after the first `k` fix-ups. */
  lemma PartlyFixed(d: Disk, s: State, k: nat) returns (d': Disk, s': State)
    requires Mendable(d, s)
    ensures |d.manifest| >= MAGIC_LEN
    ensures var fs := MinorFixes(d, s);
      k <= |fs| ==>
        && PerformAll(d, fs[..k]) == Outcome(d', Success(()))
        && Underway(d, s, d', s')
        && (k >= |ManifestFixes(Walk(d.manifest, MAGIC_LEN))| ==> ManifestHolds(d'.manifest, s'))
        && (k == |fs| ==> s' == Reconciled(d, s) && AllMended(d, s, d'))
  {
    hide ManifestHolds, ManifestReadable, FixesFor, Orphans, MissingDead, PerformAll, ManifestFixes, TailFixes, Walk,
      PartlyMended, IssuesAt, AllMinor, Unknown, AllMended, IdSet, Scan, MinorIssues;
    MendableScan(d, s);
    SplitFixes(d, s);
    d', s' := d, s;
    var w := Walk(d.manifest, MAGIC_LEN);
    var a, b, c := ManifestFixes(w), FixesFor(Orphans(d, s), true) + FixesFor(MissingDead(d, s), false),
                   TailFixes(d, s.segments, s.seals);
    hide MinorFixes;
    if k <= |a + b| {
      TakeFront(a + b, c, k);
      d', s' := PartlyManifest(d, s, k);
      if k == |a + b + c| {
        assert c == [];
        NothingToMend(d, s, d');
      }
    } else if k <= |a + b + c| {
      TakeBack(a + b, c, k);
      var d1;
      d1, s' := PartlyManifest(d, s, |a + b|);
      assert (a + b)[..|a + b|] == a + b;
      TailFixesMend(d, s, s.segments);
      var j := k - |a + b|;
      d' := PerformTails(d, s, d1, c[..j]);
      PerformConcat(d, a + b, c[..j]);
      if k == |a + b + c| {
        assert c[..j] == c;
        EveryTailMended(d, s, d');
      }
    }
  }

  /** Every live unsealed file has been mended, and nothing else has changed. */
  ghost predicate AllMended(d: Disk, s: State, d': Disk) {
    d'.segments == MendedFiles(d, s)
  }

  lemma EveryTailMended(d: Disk, s: State, d': Disk)
    requires PartlyMended(d, s, d')
    requires var c := TailFixes(d, s.segments, s.seals);
      forall i :: 0 <= i < |c| ==> c[i].action.TruncateSegment? && IsMended(d, d', c[i].action.id)
    ensures AllMended(d, s, d')
  {
    hide Walk, IdSet, TailFixes, Mended;
    forall id | id in d.segments
      ensures id in d'.segments && d'.segments[id] == MendedFiles(d, s)[id]
    {
      assert SameOrMended(d, s, d', id);
      if CanMend(s, id, d.segments[id]) {
        MendedWalk(d.segments[id]);
        if !Walk(d.segments[id], MAGIC_LEN).status.Clean? {
          TailFixesAll(d, s.segments, s.seals, id);
        }
      }
    }
  }

  lemma NothingToMend(d: Disk, s: State, d': Disk)
    requires TailFixes(d, s.segments, s.seals) == [] && d'.segments == d.segments
    ensures AllMended(d, s, d')
  {
    UntouchedFiles(d, s, d');
    hide TailFixes, Walk, MendedFiles;
    EveryTailMended(d, s, d');
  }

  // ── The middle of a recovery is again a disk to recover, and to the same end ──

  lemma SetsConverge(disk: set<SegmentId>, live: set<SegmentId>, dead: set<SegmentId>, now: set<SegmentId>)
    requires dead * disk <= now <= dead + (disk - (live + dead))
    ensures now * disk + (disk - (live + now)) == dead * disk + (disk - (live + dead))
  {
  }

  lemma SameReconciled(d: Disk, s: State, d': Disk, s': State)
    requires Underway(d, s, d', s')
    ensures Reconciled(d', s') == Reconciled(d, s)
  {
    hide IdSet, ManifestReadable, SameOrMended;
    SetsConverge(d.segments.Keys, IdSet(s.segments), s.dead, s'.dead);
  }

  lemma SameMendedFiles(d: Disk, s: State, d': Disk, s': State)
    requires Underway(d, s, d', s')
    ensures MendedFiles(d', s') == MendedFiles(d, s)
  {
    hide IdSet, ManifestReadable, Mended, Unknown;
    forall id | id in d.segments
      ensures MendedFiles(d', s')[id] == MendedFiles(d, s)[id]
    {
      assert SameOrMended(d, s, d', id);
      if CanMend(s, id, d.segments[id]) {
        MendedWalk(d.segments[id]);
        MendedTwice(d.segments[id]);
      }
    }
  }

  lemma StillMinorAt(d: Disk, s: State, d': Disk, id: SegmentId)
    requires PartlyMended(d, s, d') && AllMinor(ScanSegment(d, id, ExpectedLen(s.seals, id)).1)
    ensures AllMinor(ScanSegment(d', id, ExpectedLen(s.seals, id)).1)
  {
    hide Walk, IdSet, CheckpointsOf, SizeOf, Mended;
    var issues := ScanSegment(d, id, ExpectedLen(s.seals, id)).1;
    assert issues != [] ==> Minor(issues[0].issue);
    assert id in d.segments;
    assert SameOrMended(d, s, d', id);
    if CanMend(s, id, d.segments[id]) {
      MendedWalk(d.segments[id]);
    }
  }

  lemma UnderwayMendable(d: Disk, s: State, d': Disk, s': State)
    requires Mendable(d, s) && Underway(d, s, d', s')
    ensures Mendable(d', s')
  {
    hide ManifestReadable, AllMinor, PartlyMended, ScanSegment, Unknown, ExpectedLen;
    forall i | 0 <= i < |s'.segments|
      ensures AllMinor(IssuesAt(d', s'.segments, s'.seals, i))
    {
      assert AllMinor(IssuesAt(d, s.segments, s.seals, i));
      StillMinorAt(d, s, d', s.segments[i].id);
    }
  }

  lemma CleanAt(d: Disk, s: State, d': Disk, id: SegmentId)
    requires id in IdSet(s.segments) && AllMended(d, s, d') && AllMinor(ScanSegment(d, id, ExpectedLen(s.seals, id)).1)
    ensures ScanSegment(d', id, ExpectedLen(s.seals, id)).1 == []
  {
    hide Walk, IdSet, CheckpointsOf, SizeOf, Mended;
    var issues := ScanSegment(d, id, ExpectedLen(s.seals, id)).1;
    assert issues != [] ==> Minor(issues[0].issue);
    assert id in d.segments;
    if CanMend(s, id, d.segments[id]) {
      MendedWalk(d.segments[id]);
    }
  }

  lemma {:induction false} NoIssues(d: Disk, segs: seq<Segment>, seals: map<SegmentId, Seal>)
    requires forall i :: 0 <= i < |segs| ==> ScanSegment(d, segs[i].id, ExpectedLen(seals, segs[i].id)).1 == []
    ensures SegmentIssues(d, segs, seals) == []
  {
    hide ScanSegment;
    if segs != [] {
      NoIssues(d, segs[1..], seals);
    }
  }

  /** When all fix-ups are done the scan finds nothing. */
  lemma FinishedScan(d: Disk, s: State, d': Disk)
    requires Mendable(d, s) && AllMended(d, s, d') && ManifestHolds(d'.manifest, Reconciled(d, s))
    ensures Scan(d').issues == [] && Scan(d').state == Reconciled(d, s)
  {
    hide ManifestHolds, ManifestReadable, AllMended, AllMinor, ScanSegment, ExpectedLen, Scan, IdSet;
    var t := Reconciled(d, s);
    forall i | 0 <= i < |s.segments|
      ensures ScanSegment(d', s.segments[i].id, ExpectedLen(s.seals, s.segments[i].id)).1 == []
    {
      assert AllMinor(IssuesAt(d, s.segments, s.seals, i));
      assert s.segments[i].id in IdSet(s.segments) by { InIdSet(s.segments, i); }
      CleanAt(d, s, d', s.segments[i].id);
    }
    NoIssues(d', s.segments, s.seals);
    SameKeys(d, s, d');
    HoldsReadable(d'.manifest, t);
    ScanReadable(d', t);
    NothingUnknown(d', t);
    NothingAtAll(d', t);
  }

  lemma InIdSet(segs: seq<Segment>, i: nat)
    requires i < |segs|
    ensures segs[i].id in IdSet(segs)
  {
  }

  lemma SameKeys(d: Disk, s: State, d': Disk)
    requires AllMended(d, s, d')
    ensures d'.segments.Keys == d.segments.Keys
  {
    hide IdSet, Mended;
  }

  lemma NothingAtAll(d: Disk, s: State)
    requires |d.manifest| >= MAGIC_LEN && Walk(d.manifest, MAGIC_LEN).end == |d.manifest|
    requires Orphans(d, s) == [] && MissingDead(d, s) == [] && SegmentIssues(d, s.segments, s.seals) == []
    ensures MinorIssues(d, s) == []
  {
    hide Walk, Orphans, MissingDead, SegmentIssues;
    assert Walk(d.manifest, MAGIC_LEN).status.Clean?;
  }

  // ── Convergence ─────────────────────────────────────────────────────────────

  lemma AttemptIs(d: Disk, issues: seq<FileIssue>, fixes: seq<FixUp>, approved: bool)
    requires FixUps(issues, approved) == Success(fixes)
    ensures AttemptRecovery(d, issues, approved) == PerformAll(d, ByPhase(fixes))
  {
    hide FixUps, ByPhase, PerformAll;
  }

  /** Recovery converges, on every disk whose scan reports nothing worse than a short manifest tail, damaged tails of
      unsealed segments, orphans and missing dead segments.  It needs no approval and succeeds; the next scan reports
      nothing; segments, seals, head and metadata are unchanged; the dead set becomes (dead ∩ on disk) ∪ orphans; and
      no file has changed but the live unsealed ones, which end behind their readable frames. */
  lemma RecoveryConverges(d: Disk) returns (d': Disk)
    requires AllMinor(Scan(d).issues)
    ensures AttemptRecovery(d, Scan(d).issues, false) == Outcome(d', Success(()))
    ensures Scan(d').issues == [] && Scan(d').state == Reconciled(d, Scan(d).state)
    ensures d'.segments == MendedFiles(d, Scan(d).state)
    ensures ManifestHolds(d'.manifest, Reconciled(d, Scan(d).state))
  {
    hide *;
    ScanMendable(d);
    var s := Scan(d).state;
    MendableScan(d, s);
    var s';
    d', s' := PartlyFixed(d, s, |MinorFixes(d, s)|);
    assert MinorFixes(d, s)[..|MinorFixes(d, s)|] == MinorFixes(d, s);
    MendableIssues(d, s);
    FixUpsOfMinor(d, s);
    MinorFixesSorted(d, s);
    AttemptIs(d, Scan(d).issues, MinorFixes(d, s), false);
    ManifestFirst(d, s);
    FinishedScan(d, s, d');
    AllMendedIs(d, s, d');
  }

  lemma AllMendedIs(d: Disk, s: State, d': Disk)
    requires AllMended(d, s, d')
    ensures d'.segments == MendedFiles(d, s)
  {
  }

  lemma MendableIssues(d: Disk, s: State)
    requires Mendable(d, s)
    ensures forall i :: 0 <= i < |s.segments| ==> AllMinor(IssuesAt(d, s.segments, s.seals, i))
  {
    hide ManifestReadable, AllMinor, IssuesAt;
  }

  lemma ManifestFirst(d: Disk, s: State)
    requires |d.manifest| >= MAGIC_LEN
    ensures |ManifestFixes(Walk(d.manifest, MAGIC_LEN))| <= |MinorFixes(d, s)|
  {
    hide ManifestFixes, FixesFor, TailFixes, Walk, Orphans, MissingDead;
  }

  lemma {:induction false} FixedAreMinor(issues: seq<FileIssue>)
    requires FixUps(issues, false).Success?
    ensures AllMinor(issues)
  {
    if issues != [] {
      FixedAreMinor(issues[1..]);
      assert forall i :: 1 <= i < |issues| ==> issues[i] == issues[1..][i - 1];
    }
  }

  /** Without approval, recovery succeeds exactly on such disks: any other issue stops it before it starts. */
  lemma RecoversIffMinor(d: Disk)
    ensures AttemptRecovery(d, Scan(d).issues, false).result.Success? <==> AllMinor(Scan(d).issues)
  {
    hide Scan, AllMinor, PerformAll, ByPhase;
    if AllMinor(Scan(d).issues) {
      var d' := RecoveryConverges(d);
    }
    if FixUps(Scan(d).issues, false).Success? {
      FixedAreMinor(Scan(d).issues);
    }
  }
}
