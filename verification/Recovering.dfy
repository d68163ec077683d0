/** Opening a disk that recovery can bring back: the store comes up on what was readable. */
module Recovering {
  import opened Basics
  import opened Frames
  import opened State
  import opened StateLaws
  import opened Disk
  import opened Log
  import opened World
  import opened Invariant
  import opened Recovery
  import opened Reopening
  import opened Mending
  import opened RecoveryLaws

  /** The active file starts with the magic; its readable frames are `fs`, whatever follows them. */
  ghost predicate ActiveReadable(d: Disk, id: SegmentId, fs: seq<Frame>) {
    id in d.segments && SEGMENT_MAGIC <= d.segments[id] && Walk(d.segments[id], MAGIC_LEN).frames == fs
  }

  /** A store in order, except for a manifest tail shorter than a header, bytes behind the readable frames of the
      active file, files the manifest does not know, and dead segments whose file is gone. */
  ghost predicate Recoverable(d: Disk, s: State, body: Body) {
    && StateOk(s) && BodyOk(s, body)
    && ManifestReadable(d.manifest, s)
    && (forall i :: 0 <= i < |body| - 1 ==> FileAt(d, s.segments[i], body[i]))
    && ActiveReadable(d, s.segments[|body| - 1].id, body[|body| - 1])
    && Widths(d, body)
  }

  // ── Only minor issues ───────────────────────────────────────────────────────

  lemma ScanActive(d: Disk, id: SegmentId, fs: seq<Frame>)
    requires ActiveReadable(d, id, fs)
    ensures AllMinor(ScanSegment(d, id, None).1)
  {
    hide Walk, CheckpointsOf, SizeOf;
  }

  lemma SealedClean(d: Disk, s: State, body: Body, i: nat)
    requires StateOk(s) && BodyOk(s, body) && i < |body| - 1 && FileAt(d, s.segments[i], body[i])
    ensures ScanSegment(d, s.segments[i].id, ExpectedLen(s.seals, s.segments[i].id)).1 == []
  {
    assert SealedAt(s, body, i);
    ScanImage(d, s.segments[i], body[i], ExpectedLen(s.seals, s.segments[i].id));
    hide StateOk, BodyOk, ScanSegment, Image;
  }

  lemma RecoverableParts(d: Disk, s: State, body: Body)
    requires Recoverable(d, s, body)
    ensures StateOk(s) && BodyOk(s, body) && 0 < |body| == |s.segments|
    ensures ManifestReadable(d.manifest, s) && Widths(d, body)
    ensures forall i :: 0 <= i < |body| - 1 ==> FileAt(d, s.segments[i], body[i])
    ensures ActiveReadable(d, s.segments[|body| - 1].id, body[|body| - 1])
  {
    hide StateOk, ManifestReadable, ActiveReadable, FileAt;
  }

  lemma NoIssueMinor(issues: seq<FileIssue>)
    requires issues == []
    ensures AllMinor(issues)
  {
  }

  lemma RecoverableMendable(d: Disk, s: State, body: Body)
    requires Recoverable(d, s, body)
    ensures Mendable(d, s)
  {
    hide StateOk, BodyOk, Recoverable, ManifestReadable, ActiveReadable, FileAt, ScanSegment, AllMinor, Widths;
    RecoverableParts(d, s, body);
    var n := |body| - 1;
    LastUnsealed(s);
    ScanActive(d, s.segments[n].id, body[n]);
    assert ExpectedLen(s.seals, s.segments[n].id) == None;
    hide ExpectedLen;
    forall i | 0 <= i < |s.segments|
      ensures AllMinor(IssuesAt(d, s.segments, s.seals, i))
    {
      if i < n {
        SealedClean(d, s, body, i);
        NoIssueMinor(IssuesAt(d, s.segments, s.seals, i));
      }
    }
  }

  // ── The disk recovery leaves behind ─────────────────────────────────────────

  lemma ActiveMended(file: seq<byte>, fs: seq<Frame>)
    requires SEGMENT_MAGIC <= file && Walk(file, MAGIC_LEN).frames == fs
    ensures Mended(file) == Image(fs)
  {
    WalkedPart(SEGMENT_MAGIC, file);
    hide Walk, SetLen, FileOf, SizeOf;
  }

  /** Of the live segments only the active one is unsealed. */
  lemma OnlyActiveUnsealed(s: State, id: SegmentId)
    requires StateOk(s) && id in IdSet(s.segments) && id !in s.seals
    ensures id == s.segments[|s.segments| - 1].id
  {
    IdSetLast(s.segments, |s.segments| - 1);
    assert s.segments[..|s.segments|] == s.segments;
    hide IdSet, DistinctIds;
  }

  lemma MendsOnlyActive(d: Disk, s: State, id: SegmentId, fs: seq<Frame>)
    requires StateOk(s) && id == s.segments[|s.segments| - 1].id && ActiveReadable(d, id, fs)
    ensures MendedFiles(d, s) == d.segments[id := Image(fs)]
  {
    LastUnsealed(s);
    InIdSet(s.segments, |s.segments| - 1);
    ActiveMended(d.segments[id], fs);
    hide StateOk, Walk, Mended, Image, IdSet;
    forall x | x in d.segments
      ensures MendedFiles(d, s)[x] == d.segments[id := Image(fs)][x]
    {
      if CanMend(s, x, d.segments[x]) {
        OnlyActiveUnsealed(s, x);
      }
    }
  }

  lemma DeadKeepsOrder(s: State, dead: set<SegmentId>)
    requires StateOk(s) && IdSet(s.segments) !! dead
    ensures StateOk(WithDead(s, dead))
  {
    hide IdSet, DistinctIds, AscendingFirsts, UniqueKeys;
  }

  lemma ReconciledOk(d: Disk, s: State)
    requires StateOk(s)
    ensures StateOk(Reconciled(d, s))
  {
    ReconciledIs(d, s);
    DeadKeepsOrder(s, Reconciled(d, s).dead);
    hide IdSet, DistinctIds, AscendingFirsts, UniqueKeys;
  }

  lemma ReconciledBody(d: Disk, s: State, body: Body)
    requires BodyOk(s, body)
    ensures BodyOk(Reconciled(d, s), body)
  {
    forall i | 0 <= i < |body| - 1
      ensures SealedAt(Reconciled(d, s), body, i)
    {
      assert SealedAt(s, body, i);
    }
  }

  lemma ReconciledFiles(d: Disk, s: State, body: Body, d': Disk)
    requires Recoverable(d, s, body)
    requires d'.segments == d.segments[s.segments[|body| - 1].id := Image(body[|body| - 1])]
    ensures FilesOk(d', s.segments, body)
  {
    var n := |body| - 1;
    assert DistinctIds(s.segments);
    hide StateOk, ManifestReadable, IdSet, Image, SealedAt, InSegment, Widths;
    forall i | 0 <= i < |body|
      ensures FileAt(d', s.segments[i], body[i])
    {
      if i < n {
        assert FileAt(d, s.segments[i], body[i]);
        assert s.segments[i].id != s.segments[n].id;
      }
    }
  }

  lemma KeysConverge(disk: set<SegmentId>, live: set<SegmentId>, dead: set<SegmentId>)
    requires live <= disk
    ensures disk == live + (dead * disk + (disk - (live + dead)))
  {
  }

  lemma ReconciledSettled(d: Disk, s: State, body: Body, d': Disk)
    requires Recoverable(d, s, body)
    requires d'.segments == d.segments[s.segments[|body| - 1].id := Image(body[|body| - 1])]
    requires ManifestHolds(d'.manifest, Reconciled(d, s))
    ensures Settled(d', Reconciled(d, s), body)
  {
    assert StateOk(s);
    ReconciledOk(d, s);
    ReconciledBody(d, s, body);
    ReconciledFiles(d, s, body, d');
    LiveOnDisk(d, s, body);
    assert ActiveReadable(d, s.segments[|body| - 1].id, body[|body| - 1]) && Widths(d, body);
    hide StateOk, BodyOk, ManifestHolds, ManifestReadable, Recoverable, FilesOk, FileAt, IdSet, Image;
    assert d'.segments.Keys == d.segments.Keys;
    KeysConverge(d.segments.Keys, IdSet(s.segments), s.dead);
  }

  lemma LiveOnDisk(d: Disk, s: State, body: Body)
    requires Recoverable(d, s, body)
    ensures IdSet(s.segments) <= d.segments.Keys && IdSet(s.segments) !! s.dead
  {
    forall id | id in IdSet(s.segments)
      ensures id in d.segments
    {
      var i :| 0 <= i < |s.segments| && s.segments[i].id == id;
      assert i < |body| - 1 ==> FileAt(d, s.segments[i], body[i]);
    }
  }

  /** Whatever recovery does with a recoverable disk, it leaves one that is in order and has the same bodies. */
  lemma RecoverableConverges(d: Disk, s: State, body: Body) returns (d': Disk)
    requires Recoverable(d, s, body)
    ensures AttemptRecovery(d, Scan(d).issues, false) == Outcome(d', Success(()))
    ensures AllMinor(Scan(d).issues) && Scan(d).state == s
    ensures Settled(d', Reconciled(d, s), body)
  {
    hide *;
    RecoverableMendable(d, s, body);
    MendableScan(d, s);
    d' := RecoveryConverges(d);
    RecoverableParts(d, s, body);
    MendsOnlyActive(d, s, s.segments[|body| - 1].id, body[|body| - 1]);
    ReconciledSettled(d, s, body, d');
  }

  lemma NothingToFix(d: Disk, d': Disk)
    requires AttemptRecovery(d, Scan(d).issues, false) == Outcome(d', Success(()))
    ensures Scan(d).issues == [] ==> d' == d
  {
    hide Scan;
  }

  lemma OpenThroughRecovery(trigger: nat, d: Disk, d': Disk)
    requires AttemptRecovery(d, Scan(d).issues, false) == Outcome(d', Success(()))
    requires Scan(d').issues == [] && MemFrom(trigger, Scan(d')).Some?
    requires Scan(d).issues == [] ==> d' == d
    ensures Open(trigger, d) == Outcome(d', Success(MemFrom(trigger, Scan(d')).value))
    ensures Open(trigger, d') == Outcome(d', Success(MemFrom(trigger, Scan(d')).value))
  {
    hide Scan, MemFrom, AttemptRecovery;
  }

  /** The store that opens on a disk in order, seen from outside. */
  lemma SettledOpens(trigger: nat, d: Disk, t: State, body: Body)
    requires Settled(d, t, body)
    ensures 0 < |body| == |t.segments|
    ensures var w := World(OpenedMem(trigger, d, t, body), d);
      && Inv(w, body) && Entries(w) == Concat(body) && w.mem.state == t
      && w.mem.activePos == |Image(body[|body| - 1])|
      && (forall id :: id in t.dead || id in IdSet(t.segments) ==> id < w.mem.nextId)
  {
    OpenSettled(trigger, d, t, body);
    BodyLength(t, body);
    var w := World(OpenedMem(trigger, d, t, body), d);
    assert w.mem.state == t;
    hide StateOk, BodyOk, FilesOk, ManifestOk, IndexSound, LastOk, OpenedMem, Open, IdSet, Image, Settled, ManifestHolds;
    InvIsValid(w, body);
    assert IdsOk(w.mem, w.disk) && CursorOk(w.mem, body);
  }

  /** Opening a recoverable disk yields a valid store whose log is exactly what was readable. */
  lemma OpenRecovers(trigger: nat, d: Disk, s: State, body: Body)
    requires Recoverable(d, s, body)
    ensures var r := Open(trigger, d);
      && r.result.Success?
      && var w := World(r.result.value, r.disk);
         && Inv(w, body) && Entries(w) == Concat(body)
         && w.mem.state == Reconciled(d, s)
         && body != [] && w.mem.activePos == |Image(body[|body| - 1])|
         && (forall id :: id in w.mem.state.dead || id in IdSet(s.segments) ==> id < w.mem.nextId)
  {
    hide *;
    var t := Reconciled(d, s);
    var d' := RecoverableConverges(d, s, body);
    NothingToFix(d, d');
    OpensAs(trigger, d, d', t, body);
    SettledOpens(trigger, d', t, body);
    SameSegments(d, s);
  }

  lemma SameSegments(d: Disk, s: State)
    ensures Reconciled(d, s).segments == s.segments
  {
    hide IdSet;
  }

  lemma OpensAs(trigger: nat, d: Disk, d': Disk, t: State, body: Body)
    requires AttemptRecovery(d, Scan(d).issues, false) == Outcome(d', Success(()))
    requires Scan(d).issues == [] ==> d' == d
    requires Settled(d', t, body)
    ensures 0 < |body| == |t.segments|
    ensures Open(trigger, d) == Outcome(d', Success(OpenedMem(trigger, d', t, body)))
  {
    hide *;
    SettledOpens(trigger, d', t, body);
    ScanSettled(d', t, body);
    MemFromSettled(trigger, d', t, body);
    NoIssuesThere(d', t);
    OpenThroughRecovery(trigger, d, d');
  }

  lemma NoIssuesThere(d: Disk, t: State)
    requires Scan(d) == ScanReport(t, |d.manifest|, SegmentReports(d, t.segments, t.seals), [])
    ensures Scan(d).issues == []
  {
    hide Scan, SegmentReports;
  }
}
