/** A crash during recovery: wherever it strikes, between fix-ups or inside one, the next recovery ends in the same
    state with the same files. */
module Restarting {
  import opened Basics
  import opened Frames
  import opened State
  import opened StateLaws
  import opened Disk
  import opened Log
  import opened World
  import opened Invariant
  import opened Recovery
  import opened Mending
  import opened RecoveryLaws
  import opened Recovering
  import opened Crashes
  import opened CrashSteps

  /** The fix-ups that recovery without approval applies, in order. */
  function Planned(d: Disk): seq<FixUp> {
    match FixUps(Scan(d).issues, false)
    case Success(fs) => ByPhase(fs)
    case Failure(_) => []
  }

  /** The disk after the first `k` of them. */
  function AfterFixes(d: Disk, k: nat): Disk
    requires k <= |Planned(d)|
  {
    PerformAll(d, Planned(d)[..k]).disk
  }

  lemma PlannedIs(d: Disk, s: State)
    requires Mendable(d, s)
    ensures |d.manifest| >= MAGIC_LEN && Planned(d) == MinorFixes(d, s)
  {
    hide FixUps, ByPhase, Scan, Mendable, MinorFixes, MinorIssues;
    MendableScan(d, s);
    MendableIssues(d, s);
    FixUpsOfMinor(d, s);
    MinorFixesSorted(d, s);
  }

  // ── Inside one fix-up ───────────────────────────────────────────────────────

  /** The kinds of fix-up that minor issues lead to. */
  ghost predicate Plain(d: Disk, s: State, f: FixUp) {
    f.action.OrphanFound? || f.action.DeadSegmentMissing? || f.action.TruncateManifest? || MendsTail(d, s, f)
  }

  lemma {:induction false} FixesForPlain(d: Disk, s: State, ids: seq<SegmentId>, orphan: bool)
    ensures forall i :: 0 <= i < |FixesFor(ids, orphan)| ==> Plain(d, s, FixesFor(ids, orphan)[i])
  {
    hide MendsTail;
    if ids != [] {
      FixesForPlain(d, s, ids[1..], orphan);
    }
  }

  lemma AllPlain(d: Disk, s: State)
    requires |d.manifest| >= MAGIC_LEN
    ensures forall i :: 0 <= i < |MinorFixes(d, s)| ==> Plain(d, s, MinorFixes(d, s)[i])
  {
    hide MendsTail, FixesFor, TailFixes, Walk, Orphans, MissingDead, IdSet;
    FixesForPlain(d, s, Orphans(d, s), true);
    FixesForPlain(d, s, MissingDead(d, s), false);
    TailFixesMend(d, s, s.segments);
  }

  /** No fix-up makes a segment file longer. */
  lemma StepShrinks(d: Disk, s: State, before: Disk, f: FixUp, after: Disk, id: SegmentId)
    requires PartlyMended(d, s, before) && Plain(d, s, f) && Performed(before, f.action) == Some(after)
    requires id in before.segments && id in after.segments
    ensures |after.segments[id]| <= |before.segments[id]|
  {
    hide Walk, IdSet, WriteAt, Encode, SetLen, Mended;
    if MendsTail(d, s, f) {
      var x := f.action.id;
      assert SameOrMended(d, s, before, x);
      MendedWalk(d.segments[x]);
    }
  }

  lemma PerformNext(d: Disk, fs: seq<FixUp>, k: nat)
    requires k < |fs| && PerformAll(d, fs[..k]).result.Success? && PerformAll(d, fs[..k + 1]).result.Success?
    ensures Performed(PerformAll(d, fs[..k]).disk, fs[k].action) == Some(PerformAll(d, fs[..k + 1]).disk)
  {
    hide Performed;
    var d1 := PerformAll(d, fs[..k]).disk;
    assert fs[..k + 1] == fs[..k] + [fs[k]];
    PerformConcat(d, fs[..k], [fs[k]]);
    assert [fs[k]][1..] == [];
    assert PerformAll(d1, [fs[k]]).result.Success?;
  }

  lemma ShorterManifest(before: Disk, after: Disk, d: Disk)
    requires TornInManifest(before, after, d) && |after.manifest| <= |before.manifest|
    ensures d == before
  {
    assert d.manifest == d.manifest[..|before.manifest|] == before.manifest;
  }

  /** A record torn inside its header leaves the manifest as it was, as far as it can be read. */
  lemma TornUnderway(d: Disk, s: State, before: Disk, s1: State, after: Disk, torn: Disk)
    requires Underway(d, s, before, s1) && ManifestHolds(before.manifest, s1) && TornInManifest(before, after, torn)
    ensures Underway(d, s, torn, s1)
  {
    hide ManifestHolds, ManifestReadable, SameOrMended, Unknown;
    var tail := TailBytes(before, after, torn);
    ShortTailReadable(before.manifest, s1, tail);
    assert forall id :: id in d.segments ==> SameOrMended(d, s, before, id);
    SameFiles(d, s, before, torn);
  }

  lemma SameFiles(d: Disk, s: State, before: Disk, torn: Disk)
    requires PartlyMended(d, s, before) && torn.segments == before.segments
    ensures PartlyMended(d, s, torn)
  {
    hide IdSet, Mended;
    forall id | id in d.segments
      ensures SameOrMended(d, s, torn, id)
    {
      assert SameOrMended(d, s, before, id);
    }
  }

  /** The first fix-up, when the manifest has a torn tail, shortens the manifest. */
  lemma FirstShortens(d: Disk, s: State, after: Disk)
    requires Mendable(d, s)
    ensures |d.manifest| >= MAGIC_LEN
    ensures
      (ManifestFixes(Walk(d.manifest, MAGIC_LEN)) != [] && |MinorFixes(d, s)| > 0
       && Performed(d, MinorFixes(d, s)[0].action) == Some(after)) ==> |after.manifest| <= |d.manifest|
  {
    hide ManifestReadable, AllMinor, IssuesAt, FixesFor, TailFixes, Walk, Orphans, MissingDead, SizeOf, SetLen;
    assert ManifestReadable(d.manifest, s);
    ReadableNotCorrupt(d.manifest, s);
    ReadableMagic(d.manifest, s);
  }

  lemma UnderwayFiles(d: Disk, s: State, d': Disk, s': State)
    requires Underway(d, s, d', s')
    ensures PartlyMended(d, s, d')
  {
    hide ManifestReadable, PartlyMended;
  }

  lemma StoppedUnderway(d: Disk, s: State, k: nat, torn: Disk) returns (s': State)
    requires Mendable(d, s) && Planned(d) == MinorFixes(d, s) && k < |Planned(d)|
    requires StoppedAt(AfterFixes(d, k), AfterFixes(d, k + 1), torn)
    ensures Underway(d, s, torn, s')
  {
    hide Mendable, Underway, Planned, PerformAll, Performed, MinorFixes, TornInManifest, TornInFile, ManifestFixes, Walk,
      ManifestHolds, PartlyMended, Plain, Reconciled, AllMended;
    var before, s1 := PartlyFixed(d, s, k);
    var after, s2 := PartlyFixed(d, s, k + 1);
    var fs := MinorFixes(d, s);
    PerformNext(d, fs, k);
    AllPlain(d, s);
    UnderwayFiles(d, s, before, s1);
    s' := s1;
    if torn == after {
      s' := s2;
    } else if torn != before {
      if TornInManifest(before, after, torn) {
        if k >= |ManifestFixes(Walk(d.manifest, MAGIC_LEN))| {
          TornUnderway(d, s, before, s1, after, torn);
        } else {
          AtMostOne(Walk(d.manifest, MAGIC_LEN));
          assert fs[..0] == [];
          PerformNone(d);
          FirstShortens(d, s, after);
          ShorterManifest(before, after, torn);
        }
      } else {
        var id :| TornInFile(before, after, torn, id);
        TornInside(before, after, torn, id);
        StepShrinks(d, s, before, fs[k], after, id);
        TornFileSame(before, after, torn, id);
      }
    }
  }

  lemma TornInside(before: Disk, after: Disk, torn: Disk, id: SegmentId)
    requires TornInFile(before, after, torn, id)
    ensures id in before.segments && id in after.segments
  {
  }

  // ── The next recovery ───────────────────────────────────────────────────────

  /** Crash during recovery.  Stop it after, or inside, any fix-up: the disk has again only minor issues, and recovery
      from there is heading for the same state and the same files. */
  lemma RecoveryRestarts(d: Disk, k: nat, torn: Disk)
    requires AllMinor(Scan(d).issues) && k < |Planned(d)|
    requires StoppedAt(AfterFixes(d, k), AfterFixes(d, k + 1), torn)
    ensures AllMinor(Scan(torn).issues)
    ensures Reconciled(torn, Scan(torn).state) == Reconciled(d, Scan(d).state)
    ensures MendedFiles(torn, Scan(torn).state) == MendedFiles(d, Scan(d).state)
  {
    hide *;
    var s := Scan(d).state;
    ScanMendable(d);
    PlannedIs(d, s);
    var s' := StoppedUnderway(d, s, k, torn);
    UnderwayMendable(d, s, torn, s');
    MendableScan(torn, s');
    SameReconciled(d, s, torn, s');
    SameMendedFiles(d, s, torn, s');
  }

  /** So repeating an interrupted recovery ends as an undisturbed one does. */
  lemma InterruptedConverges(d: Disk, k: nat, torn: Disk) returns (d': Disk)
    requires AllMinor(Scan(d).issues) && k < |Planned(d)|
    requires StoppedAt(AfterFixes(d, k), AfterFixes(d, k + 1), torn)
    ensures AttemptRecovery(torn, Scan(torn).issues, false) == Outcome(d', Success(()))
    ensures Scan(d').issues == [] && Scan(d').state == Reconciled(d, Scan(d).state)
    ensures d'.segments == MendedFiles(d, Scan(d).state)
    ensures ManifestHolds(d'.manifest, Reconciled(d, Scan(d).state))
  {
    hide *;
    RecoveryRestarts(d, k, torn);
    d' := RecoveryConverges(torn);
  }

  /** An open that is repeated after a crash anywhere in its recovery gives the same state, entries and write position
      as one that was not disturbed. */
  lemma OpenAfterInterruptedRecovery(trigger: nat, d: Disk, s: State, body: Body, k: nat, torn: Disk)
    requires Recoverable(d, s, body) && k < |Planned(d)|
    requires StoppedAt(AfterFixes(d, k), AfterFixes(d, k + 1), torn)
    ensures body != []
    ensures var r := Open(trigger, torn);
      && r.result.Success? && r.result.value.state == Reconciled(d, s)
      && var w := World(r.result.value, r.disk);
         Inv(w, body) && Entries(w) == Concat(body) && w.mem.activePos == |Image(body[|body| - 1])|
  {
    hide *;
    RecoverableMendable(d, s, body);
    MendableScan(d, s);
    RecoverableParts(d, s, body);
    var d' := InterruptedConverges(d, k, torn);
    MendsOnlyActive(d, s, s.segments[|body| - 1].id, body[|body| - 1]);
    ReconciledSettled(d, s, body, d');
    NothingToFix(torn, d');
    OpensAs(trigger, torn, d', Reconciled(d, s), body);
    SettledOpens(trigger, d', Reconciled(d, s), body);
  }
}
