/** A stop in the middle of creating a store. */
module Creating {
  import opened Basics
  import opened Frames
  import opened State
  import opened Disk
  import opened World
  import opened Recovery
  import opened Crashes
  import opened CrashSteps
  import opened Runs

  /** The one record of a new store. */
  function FirstRecord(): Frame {
    RecordFrame(Bare(CreateSegment(1, 0)))
  }

  /** Part of a new store, with its record complete only at the end. */
  ghost predicate PartlyCreated(d: Disk) {
    d.manifest <= FreshDisk().manifest && (d.manifest == FreshDisk().manifest ==> d == FreshDisk())
  }

  /** No record is complete, and no fix-up helps. */
  ghost predicate Unusable(issues: seq<FileIssue>) {
    issues != [] && forall approved :: FixUps(issues, approved) == Failure(NotPossible)
  }

  lemma UnusableOpens(trigger: nat, d: Disk)
    requires Unusable(Scan(d).issues)
    ensures Open(trigger, d) == Outcome(d, Failure(RecoveryNotPossible))
    ensures AttemptRecovery(d, Scan(d).issues, true) == Outcome(d, Failure(NotPossible))
  {
    hide Scan, FixUps;
  }

  lemma NoFixUp(torn: seq<FileIssue>, issue: Issue)
    requires torn == [] || (|torn| == 1 && torn[0].issue.ManifestTornTail?)
    requires issue.ManifestNotReadable? || issue.ManifestEmpty?
    ensures Unusable(torn + [FileIssue(ManifestRef, issue)])
  {
    var bad := [FileIssue(ManifestRef, issue)];
    forall approved
      ensures FixUps(torn + bad, approved) == Failure(NotPossible)
    {
      assert FixUps(bad, approved) == Failure(NotPossible);
      if torn == [] {
        assert torn + bad == bad;
      } else {
        assert (torn + bad)[0] == torn[0] && (torn + bad)[1..] == bad;
      }
    }
  }

  lemma NoMagic(d: Disk)
    requires !(MANIFEST_MAGIC <= d.manifest)
    ensures Unusable(Scan(d).issues)
  {
    NoFixUp([], ManifestNotReadable);
    assert [] + [FileIssue(ManifestRef, ManifestNotReadable)] == [FileIssue(ManifestRef, ManifestNotReadable)];
    hide Unusable, Walk, ReplayFrom;
  }

  /** A manifest without a whole record: nothing to replay, or not readable. */
  lemma NoRecord(d: Disk)
    requires MANIFEST_MAGIC <= d.manifest
    requires var status := Walk(d.manifest, MAGIC_LEN).status; status.Clean? || status.TornTail?
    requires var r := ReplayFrom(d.manifest, MAGIC_LEN, EMPTY); r.ReadFailed? || (r.Replayed? && r.state == EMPTY)
    ensures Unusable(Scan(d).issues)
  {
    hide Unusable, Walk, ReplayFrom, SizeOf, FixUps;
    var torn := TornManifest(Walk(d.manifest, MAGIC_LEN));
    NoFixUp(torn, ManifestNotReadable);
    NoFixUp(torn, ManifestEmpty);
  }

  lemma EmptyHolds()
    ensures ManifestHolds(MANIFEST_MAGIC, EMPTY) && |MANIFEST_MAGIC| == MAGIC_LEN
    ensures MANIFEST_MAGIC + [] == MANIFEST_MAGIC
  {
    EmptyManifestHolds();
    hide ManifestHolds;
  }

  lemma TornStatus(f: Frame, j: nat)
    requires j < |Encode(f)|
    ensures var data := MANIFEST_MAGIC + Encode(f)[..j];
      Walk(data, MAGIC_LEN).status == if j == 0 then Clean else TornTail
  {
    EmptyHolds();
    hide Walk, ManifestHolds, Encode, CheckAt;
    var tail := Encode(f)[..j];
    var data := MANIFEST_MAGIC + tail;
    assert data[MAGIC_LEN..] == tail;
    if j > 0 {
      TornPrefix(data, MAGIC_LEN, f);
    }
    WalkWithTail(MANIFEST_MAGIC, EMPTY, tail);
  }

  lemma TornReplay(f: Frame, j: nat)
    requires j < |Encode(f)|
    ensures var r := ReplayFrom(MANIFEST_MAGIC + Encode(f)[..j], MAGIC_LEN, EMPTY);
      r.ReadFailed? || (r.Replayed? && r.state == EMPTY)
  {
    EmptyHolds();
    if j >= HEADER_LEN {
      LongTailFails(MANIFEST_MAGIC, EMPTY, f, j);
    }
    hide Encode, HeaderAt;
  }

  /** A first record that is not complete, cut after any number of bytes. */
  lemma TornCreation(d: Disk, j: nat)
    requires j < |Encode(FirstRecord())| && d.manifest == MANIFEST_MAGIC + Encode(FirstRecord())[..j]
    ensures Unusable(Scan(d).issues)
  {
    hide *;
    TornStatus(FirstRecord(), j);
    TornReplay(FirstRecord(), j);
    MagicFirst(d, Encode(FirstRecord())[..j]);
    NoRecord(d);
  }

  lemma MagicFirst(d: Disk, tail: seq<byte>)
    requires d.manifest == MANIFEST_MAGIC + tail
    ensures MANIFEST_MAGIC <= d.manifest
  {
  }

  lemma FreshManifest()
    ensures FreshDisk().manifest == MANIFEST_MAGIC + Encode(FirstRecord())
  {
    hide Encode;
    WriteAtEnd(MANIFEST_MAGIC, Encode(FirstRecord()));
    hide WriteAt;
  }

  lemma PrefixOfTwo(p: seq<byte>, a: seq<byte>, b: seq<byte>)
    requires p <= a + b && p != a + b
    ensures !(a <= p) || (|a| <= |p| < |a| + |b| && p == a + b[..|p| - |a|])
  {
    if a <= p {
      assert p == (a + b)[..|p|];
    }
  }

  lemma PartIs(d: Disk)
    requires PartlyCreated(d)
    ensures d.manifest <= FreshDisk().manifest && (d != FreshDisk() ==> d.manifest != FreshDisk().manifest)
  {
    hide FreshDisk;
  }

  /** A stop inside the creation of a store.  Once the manifest file is there, and until its first record is complete,
      the store can neither be opened nor recovered, not even with approval, whatever segment files there are; from
      then on it opens as a new store. */
  lemma CreationIsNotAtomic(trigger: nat, d: Disk)
    requires PartlyCreated(d)
    ensures d == FreshDisk() <==> Open(trigger, d).result.Success?
    ensures d == FreshDisk() ==> Open(trigger, d) == Outcome(d, Success(Fresh(trigger).mem))
    ensures d != FreshDisk() ==>
      && Open(trigger, d) == Outcome(d, Failure(RecoveryNotPossible))
      && AttemptRecovery(d, Scan(d).issues, true) == Outcome(d, Failure(NotPossible))
  {
    hide *;
    FreshOpens(trigger);
    FreshManifest();
    PartIs(d);
    if d != FreshDisk() {
      PrefixOfTwo(d.manifest, MANIFEST_MAGIC, Encode(FirstRecord()));
      if MANIFEST_MAGIC <= d.manifest {
        TornCreation(d, |d.manifest| - |MANIFEST_MAGIC|);
      } else {
        NoMagic(d);
      }
      UnusableOpens(trigger, d);
    }
  }

  // ── The steps of creation ───────────────────────────────────────────────────

  lemma StopKeepsPart(before: Disk, after: Disk, d: Disk)
    requires StoppedAt(before, after, d) && PartlyCreated(before) && PartlyCreated(after)
    requires before.manifest != FreshDisk().manifest
    requires before.manifest == after.manifest || before.segments == after.segments
    requires after == FreshDisk() || after.manifest != FreshDisk().manifest
    ensures PartlyCreated(d)
  {
    hide FreshDisk;
  }

  lemma StepsArePart()
    ensures Disk([], map[]).manifest != FreshDisk().manifest && PartlyCreated(Disk([], map[])) && PartlyCreated(FreshDisk())
    ensures forall files :: PartlyCreated(Disk(MANIFEST_MAGIC, files)) && Disk(MANIFEST_MAGIC, files).manifest != FreshDisk().manifest
    ensures FreshDisk().segments == map[1 := SEGMENT_MAGIC]
  {
    FreshManifest();
    assert FreshDisk().segments == map[1 := SEGMENT_MAGIC] by { hide WriteAt, Encode; }
    hide FreshDisk;
    assert |Encode(FirstRecord())| >= HEADER_LEN;
  }

  /** So whatever disk a crash inside `open_or_create` leaves behind. */
  lemma CreationCrash(trigger: nat, d: Disk)
    requires CrashOf(Disk([], map[]), CreateSteps(), d)
    ensures Open(trigger, d).result.Success? <==> d == FreshDisk()
    ensures Open(trigger, d).result.Success? || Open(trigger, d) == Outcome(d, Failure(RecoveryNotPossible))
  {
    hide *;
    StepsArePart();
    CreationStops(d);
    CreationIsNotAtomic(trigger, d);
  }

  lemma CreationStops(d: Disk)
    requires CrashOf(Disk([], map[]), CreateSteps(), d)
    ensures PartlyCreated(d)
  {
    StepsArePart();
    hide FreshDisk, PartlyCreated, StoppedAt;
    var steps, last := CreateSteps(), FreshDisk();
    var empty := Disk([], map[]);
    assert steps[1..] == [steps[1], steps[2], last] && steps[1..][1..] == [steps[2], last] && steps[1..][1..][1..] == [last];
    assert [last][1..] == [];
    if StoppedAt(empty, steps[0], d) {
      StopKeepsPart(empty, steps[0], d);
    } else if StoppedAt(steps[0], steps[1], d) {
      StopKeepsPart(steps[0], steps[1], d);
    } else if StoppedAt(steps[1], steps[2], d) {
      StopKeepsPart(steps[1], steps[2], d);
    } else if StoppedAt(steps[2], last, d) {
      StopKeepsPart(steps[2], last, d);
    } else {
      assert d == last;
    }
  }
}
