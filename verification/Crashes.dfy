/** What opening finds after a power failure: lost file tails and torn manifest records. */
module Crashes {
  import opened Basics
  import opened Frames
  import opened State
  import opened StateLaws
  import opened Disk
  import opened Log
  import opened World
  import opened Invariant
  import opened TruncatingEnd
  import opened Recovery
  import opened Reopening
  import opened Mending
  import opened RecoveryLaws
  import opened Recovering

  /** Opening succeeds with exactly these entries, this head and this metadata, in a valid store whose next
      segment id is above every live or dead one. */
  ghost predicate Reopens(trigger: nat, d: Disk, entries: seq<Frame>, head: EntryId, meta: seq<Pair>) {
    var r := Open(trigger, d);
    && r.result.Success?
    && var w := World(r.result.value, r.disk);
       && Valid(w) && Entries(w) == entries
       && w.mem.state.firstEntry == head && w.mem.state.meta == meta
       && forall id :: id in IdSet(w.mem.state.segments) || id in w.mem.state.dead ==> id < w.mem.nextId
  }

  /** Opening gives what this store shows. */
  ghost predicate ReopensLike(trigger: nat, d: Disk, w: World) {
    Reopens(trigger, d, Entries(w), w.mem.state.firstEntry, w.mem.state.meta)
  }

  lemma RecoverableReopens(trigger: nat, d: Disk, s: State, body: Body)
    requires Recoverable(d, s, body)
    ensures Reopens(trigger, d, Concat(body), s.firstEntry, s.meta)
  {
    OpenRecovers(trigger, d, s, body);
    var w := World(Open(trigger, d).result.value, Open(trigger, d).disk);
    InvIsValid(w, body);
    hide Open, Valid, Inv, IdSet, Recoverable;
  }

  /** The live files as they were, a readable manifest, and possibly more files. */
  lemma StillRecoverable(w: World, body: Body, d: Disk)
    requires Inv(w, body) && ManifestReadable(d.manifest, w.mem.state)
    requires FilesOk(d, w.mem.state.segments, body)
    requires forall id :: id in d.segments ==> id + 1 < U32_LIMIT
    ensures Recoverable(d, w.mem.state, body)
  {
    var s, n := w.mem.state, |body| - 1;
    BodyLength(s, body);
    assert CursorOk(w.mem, body);
    assert FileAt(d, s.segments[n], body[n]);
    FileOfWalk(SEGMENT_MAGIC, body[n]);
    FileOfBody(SEGMENT_MAGIC, body[n]);
    hide StateOk, BodyOk, ManifestReadable, Walk, FileOf, LastOk, IdsOk, ManifestOk, IndexSound;
  }

  lemma InvReopens(trigger: nat, w: World, body: Body)
    requires Inv(w, body)
    ensures Reopens(trigger, w.disk, Concat(body), w.mem.state.firstEntry, w.mem.state.meta)
  {
    InvIsSettled(w, body);
    hide StateOk, BodyOk, FilesOk, CursorOk, LastOk, ManifestHolds, IndexSound, IdSet, Reopens;
    assert ManifestReadable(w.disk.manifest, w.mem.state) by { HoldsReadable(w.disk.manifest, w.mem.state); }
    StillRecoverable(w, body, w.disk);
    RecoverableReopens(trigger, w.disk, w.mem.state, body);
  }

  // ── Torn manifest records ───────────────────────────────────────────────────

  lemma WalkWithTail(manifest: seq<byte>, s: State, tail: seq<byte>)
    requires ManifestHolds(manifest, s)
    requires tail != [] ==> CheckAt(manifest + tail, |manifest|) == Torn
    ensures Walk(manifest + tail, MAGIC_LEN)
         == Walked(Walk(manifest, MAGIC_LEN).frames, |manifest|, if tail == [] then Clean else TornTail)
  {
    hide Walk, Replays, ManifestHolds, CheckAt, EncodeAll, SizeOf;
    HoldsReadable(manifest, s);
    var data, fs := manifest + tail, Walk(manifest, MAGIC_LEN).frames;
    WalkIsEncoding(manifest, MAGIC_LEN);
    SliceOfTake(data, |manifest|, MAGIC_LEN, |manifest|);
    assert data[..|manifest|] == manifest;
    if tail == [] {
      WalkAtEnd(data);
    } else {
      WalkTorn(data, |manifest|);
    }
    WalkEncodedLast(data, MAGIC_LEN, fs, if tail == [] then Clean else TornTail);
  }

  /** Any tail shorter than a frame header leaves the manifest readable with the same state. */
  lemma ShortTailReadable(manifest: seq<byte>, s: State, tail: seq<byte>)
    requires ManifestHolds(manifest, s) && |tail| < HEADER_LEN
    ensures ManifestReadable(manifest + tail, s)
  {
    HoldsReadable(manifest, s);
    WalkWithTail(manifest, s, tail);
    assert MANIFEST_MAGIC <= manifest <= manifest + tail;
    hide Walk, Replays;
  }

  /** A record cut behind its header makes the replay fail. */
  lemma LongTailFails(manifest: seq<byte>, s: State, f: Frame, j: nat)
    requires ManifestHolds(manifest, s) && HEADER_LEN <= j < |Encode(f)|
    ensures var data := manifest + Encode(f)[..j];
      ReplayFrom(data, MAGIC_LEN, EMPTY) == ReadFailed && Walk(data, MAGIC_LEN).status == TornTail
  {
    hide Encode, HeaderAt, Walk, Replays, ReplayFrom, CheckAt, FoldFrames;
    var tail := Encode(f)[..j];
    var data, c := manifest + tail, |manifest|;
    assert data[c..] == tail;
    TornPrefix(data, c, f);
    HoldsReadable(manifest, s);
    WalkWithTail(manifest, s, tail);
    TakeOfDrop(data, c, HEADER_LEN);
    assert tail[..HEADER_LEN] == Encode(f)[..HEADER_LEN];
    HeaderOfEncoded(data, c, f);
    CutPayload(data, c, s);
    ReadableFolds(manifest, s);
    ReplayOverWalk(data, MAGIC_LEN, EMPTY);
  }

  lemma CutPayload(data: seq<byte>, c: nat, s: State)
    requires c + HEADER_LEN <= |data| < c + HEADER_LEN + HeaderAt(data, c).len
    ensures ReplayFrom(data, c, s) == ReadFailed
  {
    hide HeaderAt;
  }

  /** The torn-record boundary.  A manifest record that a crash cut after `j` bytes can be recovered from exactly
      when the cut falls inside the frame header; otherwise the store cannot be opened at all. */
  lemma TornRecordIff(trigger: nat, w: World, body: Body, f: Frame, j: nat)
    requires Inv(w, body) && j < |Encode(f)|
    ensures var d := w.disk.(manifest := w.disk.manifest + Encode(f)[..j]);
      && (Open(trigger, d).result.Success? <==> j < HEADER_LEN)
      && (j < HEADER_LEN ==> Reopens(trigger, d, Concat(body), w.mem.state.firstEntry, w.mem.state.meta))
      && (j >= HEADER_LEN ==> Open(trigger, d) == Outcome(d, Failure(RecoveryNotPossible)))
  {
    var s := w.mem.state;
    var d := w.disk.(manifest := w.disk.manifest + Encode(f)[..j]);
    InvIsSettled(w, body);
    hide Inv, StateOk, BodyOk, IdSet, ManifestHolds, Encode, Open, Image;
    if j < HEADER_LEN {
      ShortTailReadable(w.disk.manifest, s, Encode(f)[..j]);
      FilesOkSame(w.disk, d, s.segments, body);
      StillRecoverable(w, body, d);
      RecoverableReopens(trigger, d, s, body);
    } else {
      LongTailFails(w.disk.manifest, s, f, j);
      assert MANIFEST_MAGIC <= w.disk.manifest by { HoldsReadable(w.disk.manifest, s); }
      UnreadableManifest(trigger, d);
    }
  }

  lemma UnreadableManifest(trigger: nat, d: Disk)
    requires MANIFEST_MAGIC <= d.manifest
    requires ReplayFrom(d.manifest, MAGIC_LEN, EMPTY) == ReadFailed && Walk(d.manifest, MAGIC_LEN).status == TornTail
    ensures Open(trigger, d) == Outcome(d, Failure(RecoveryNotPossible))
  {
    hide ReplayFrom, Walk, SizeOf;
    var torn, bad := TornManifest(Walk(d.manifest, MAGIC_LEN)), [FileIssue(ManifestRef, ManifestNotReadable)];
    assert (torn + bad)[1..] == bad;
    assert FixUps(bad, false) == Failure(NotPossible);
  }

  // ── Lost tails of segment files ─────────────────────────────────────────────

  function CutLast(body: Body, k: nat): Body
    requires body != [] && MAGIC_LEN <= k
  {
    var n := |body| - 1;
    body[..n] + [body[n][..Whole(body[n], k - MAGIC_LEN)]]
  }

  lemma CutLastOk(s: State, body: Body, k: nat)
    requires StateOk(s) && BodyOk(s, body) && MAGIC_LEN <= k
    ensures BodyOk(s, CutLast(body, k))
  {
    var n, cut := |body| - 1, CutLast(body, k);
    hide Whole, StateOk;
    assert forall i :: 0 <= i < n ==> cut[i] == body[i];
    forall i | 0 <= i < |cut|
      ensures InSegment(s.segments[i], cut[i])
    {
      assert InSegment(s.segments[i], body[i]);
    }
    forall i | 0 <= i < n
      ensures SealedAt(s, cut, i)
    {
      assert SealedAt(s, body, i);
    }
  }

  /** Cutting a segment image at byte `k` leaves its whole frames readable. */
  lemma ImageCut(fs: seq<Frame>, k: nat)
    requires MAGIC_LEN <= k <= |Image(fs)|
    ensures var n, file := Whole(fs, k - MAGIC_LEN), Image(fs)[..k];
      && SEGMENT_MAGIC <= file
      && Walk(file, MAGIC_LEN).frames == fs[..n]
      && (Walk(file, MAGIC_LEN).status.Clean? <==> k == |Image(fs[..n])|)
  {
    FileOfBody(SEGMENT_MAGIC, fs);
    TornPrefixes(Image(fs), MAGIC_LEN, fs, k);
    hide Walk, EncodeAll, SizeOf, Whole;
  }

  /** The file holds the first `k` bytes of a segment with these frames. */
  ghost predicate CutFile(d: Disk, id: SegmentId, fs: seq<Frame>, k: nat) {
    MAGIC_LEN <= k <= |Image(fs)| && id in d.segments && d.segments[id] == Image(fs)[..k]
  }

  lemma CutReadable(d: Disk, id: SegmentId, fs: seq<Frame>, k: nat)
    requires CutFile(d, id, fs, k)
    ensures ActiveReadable(d, id, fs[..Whole(fs, k - MAGIC_LEN)])
    ensures |Image(fs[..Whole(fs, k - MAGIC_LEN)])| <= |Image(fs)|
  {
    ImageCut(fs, k);
    ImageTake(fs, Whole(fs, k - MAGIC_LEN));
    hide Walk, Whole, FileOf;
  }

  lemma CutRecoverable(s: State, body: Body, d: Disk, k: nat)
    requires StateOk(s) && BodyOk(s, body) && 0 < |body| == |s.segments| && ManifestReadable(d.manifest, s)
    requires forall id :: id in d.segments ==> id + 1 < U32_LIMIT
    requires forall i :: 0 <= i < |body| - 1 ==> FileAt(d, s.segments[i], body[i])
    requires CutFile(d, s.segments[|body| - 1].id, body[|body| - 1], k)
    requires |Image(body[|body| - 1])| < U64_LIMIT
    ensures Recoverable(d, s, CutLast(body, k))
  {
    hide StateOk, BodyOk, ManifestReadable, ActiveReadable, FileAt, Whole, CutLast, Image;
    var n, cut := |body| - 1, CutLast(body, k);
    CutReadable(d, s.segments[n].id, body[n], k);
    CutLastAt(body, k);
    CutLastOk(s, body, k);
    assert forall i :: 0 <= i < n ==> FileAt(d, s.segments[i], cut[i]);
  }

  lemma CutLastAt(body: Body, k: nat)
    requires body != [] && MAGIC_LEN <= k
    ensures |CutLast(body, k)| == |body|
    ensures forall i :: 0 <= i < |body| - 1 ==> CutLast(body, k)[i] == body[i]
    ensures CutLast(body, k)[|body| - 1] == body[|body| - 1][..Whole(body[|body| - 1], k - MAGIC_LEN)]
  {
  }

  lemma CutLastEntries(body: Body, k: nat)
    requires body != [] && MAGIC_LEN <= k
    ensures var n := |body| - 1;
      && Concat(body) == Concat(body[..n]) + body[n]
      && Concat(CutLast(body, k)) == Concat(body[..n]) + body[n][..Whole(body[n], k - MAGIC_LEN)]
  {
    var n := |body| - 1;
    var fs := body[n][..Whole(body[n], k - MAGIC_LEN)];
    assert body == body[..n] + [body[n]];
    ConcatSplit(body[..n], [body[n]]);
    ConcatSplit(body[..n], [fs]);
    ConcatOne(body[n]);
    ConcatOne(fs);
  }

  /** What a power failure can leave of a store.  Live files may have lost their tails, but not their magic, which is
      synced on creation.  The manifest, which is synced after every record, still reads as the state, with at most a
      piece of a record header behind it.  There may be a file that it does not name yet, and dead files may be gone. */
  ghost predicate TailsLost(w: World, d: Disk) {
    && ManifestReadable(d.manifest, w.mem.state)
    && (forall id :: id in d.segments ==> id + 1 < U32_LIMIT)
    && forall i :: 0 <= i < |w.mem.state.segments| ==> TailLost(w.disk, d, w.mem.state.segments[i].id)
  }

  /** The simplest case: same manifest, same files, some of them shorter. */
  lemma OnlyTailsLost(w: World, body: Body, d: Disk)
    requires Inv(w, body) && d.manifest == w.disk.manifest && d.segments.Keys == w.disk.segments.Keys
    requires forall i :: 0 <= i < |w.mem.state.segments| ==> TailLost(w.disk, d, w.mem.state.segments[i].id)
    ensures TailsLost(w, d)
  {
    InvIsSettled(w, body);
    hide Inv, StateOk, BodyOk, FilesOk, ManifestHolds, ManifestReadable, IdSet, TailLost, Image;
    HoldsReadable(w.disk.manifest, w.mem.state);
  }

  ghost predicate TailLost(before: Disk, d: Disk, id: SegmentId) {
    id in before.segments && id in d.segments && SEGMENT_MAGIC <= d.segments[id] <= before.segments[id]
  }

  ghost predicate SealedWhole(w: World, d: Disk) {
    forall i :: 0 <= i < |w.mem.state.segments| - 1 ==> Kept(w, d, i)
  }

  ghost predicate Kept(w: World, d: Disk, i: nat)
    requires i < |w.mem.state.segments|
  {
    var id := w.mem.state.segments[i].id;
    id in d.segments && id in w.disk.segments && |d.segments[id]| == |w.disk.segments[id]|
  }

  lemma TailIsTake(whole: seq<byte>, tail: seq<byte>)
    requires SEGMENT_MAGIC <= tail <= whole
    ensures MAGIC_LEN <= |tail| <= |whole| && tail == whole[..|tail|]
    ensures |tail| == |whole| ==> tail == whole
  {
  }

  lemma KeptIsSame(w: World, body: Body, d: Disk, i: nat)
    requires FilesOk(w.disk, w.mem.state.segments, body) && i < |body|
    requires TailLost(w.disk, d, w.mem.state.segments[i].id) && Kept(w, d, i)
    ensures FileAt(d, w.mem.state.segments[i], body[i])
  {
    assert FileAt(w.disk, w.mem.state.segments[i], body[i]);
    hide Image;
    TailIsTake(Image(body[i]), d.segments[w.mem.state.segments[i].id]);
  }

  /** How much of the active file is left. */
  function Left(w: World, d: Disk): nat {
    |FileIn(d, w.mem.activeId)|
  }

  lemma LostTailsRecoverable(w: World, body: Body, d: Disk)
    requires Inv(w, body) && TailsLost(w, d) && SealedWhole(w, d)
    ensures MAGIC_LEN <= Left(w, d) <= |Image(body[|body| - 1])|
    ensures Recoverable(d, w.mem.state, CutLast(body, Left(w, d)))
  {
    var s, n := w.mem.state, |body| - 1;
    BodyLength(s, body);
    InvIsSettled(w, body);
    assert CursorOk(w.mem, body) && FilesOk(w.disk, s.segments, body);
    assert FileAt(w.disk, s.segments[n], body[n]);
    assert TailLost(w.disk, d, s.segments[n].id);
    hide StateOk, BodyOk, FilesOk, Image, LastOk, IdsOk, IndexSound, ManifestHolds, ManifestReadable, IdSet;
    TailIsTake(Image(body[n]), d.segments[s.segments[n].id]);
    forall i | 0 <= i < n
      ensures FileAt(d, s.segments[i], body[i])
    {
      KeptIsSame(w, body, d, i);
    }
    CutRecoverable(s, body, d, Left(w, d));
  }

  ghost predicate Fatal(issues: seq<FileIssue>) {
    |issues| == 1 && CreateFixUp(issues[0]).None?
  }

  ghost predicate Fixable(issues: seq<FileIssue>) {
    issues == [] || (|issues| == 1 && CreateFixUp(issues[0]).Some? && !CreateFixUp(issues[0]).value.approvalRequired)
  }

  lemma {:induction false} FatalDecides(d: Disk, segs: seq<Segment>, seals: map<SegmentId, Seal>, bad: nat)
    requires bad < |segs| && Fatal(IssuesAt(d, segs, seals, bad))
    requires forall i :: 0 <= i < bad ==> Fixable(IssuesAt(d, segs, seals, i))
    ensures FixUps(SegmentIssues(d, segs, seals), false) == Failure(NotPossible)
    decreases bad
  {
    hide ScanSegment, ExpectedLen, CreateFixUp;
    var first, rest := IssuesAt(d, segs, seals, 0), SegmentIssues(d, segs[1..], seals);
    if bad > 0 {
      assert forall i :: 0 <= i < |segs| - 1 ==> IssuesAt(d, segs[1..], seals, i) == IssuesAt(d, segs, seals, i + 1);
      FatalDecides(d, segs[1..], seals, bad - 1);
      assert Fixable(first);
      if first == [] {
        assert first + rest == rest;
      } else {
        assert (first + rest)[1..] == rest;
      }
    }
  }

  lemma ShrunkIsFatal(w: World, body: Body, d: Disk, i: nat)
    requires Inv(w, body) && i < |body| - 1
    requires TailLost(w.disk, d, w.mem.state.segments[i].id) && !Kept(w, d, i)
    ensures Fatal(IssuesAt(d, w.mem.state.segments, w.mem.state.seals, i))
  {
    assert SealedAt(w.mem.state, body, i);
    assert FileAt(w.disk, w.mem.state.segments[i], body[i]);
    hide StateOk, LastOk, IdsOk, IndexSound, ManifestOk, Image;
  }

  lemma WholeIsFixable(w: World, body: Body, d: Disk, i: nat)
    requires Inv(w, body) && i < |body| - 1
    requires TailLost(w.disk, d, w.mem.state.segments[i].id) && Kept(w, d, i)
    ensures Fixable(IssuesAt(d, w.mem.state.segments, w.mem.state.seals, i))
  {
    var s := w.mem.state;
    assert StateOk(s) && BodyOk(s, body) && FilesOk(w.disk, s.segments, body);
    hide Inv, StateOk, BodyOk, FilesOk, Image, ScanSegment;
    KeptIsSame(w, body, d, i);
    SealedClean(d, s, body, i);
  }

  function FirstShrunk(w: World, d: Disk, i: nat): (bad: nat)
    requires i <= |w.mem.state.segments|
    ensures i <= bad <= |w.mem.state.segments|
    decreases |w.mem.state.segments| - i
  {
    if i == |w.mem.state.segments| then i
    else
      var id := w.mem.state.segments[i].id;
      if |FileIn(d, id)| != |FileIn(w.disk, id)| then i else FirstShrunk(w, d, i + 1)
  }

  lemma {:induction false} FirstShrunkIs(w: World, d: Disk, i: nat)
    requires i <= |w.mem.state.segments| && TailsLost(w, d)
    ensures var bad := FirstShrunk(w, d, i);
      && (forall k :: i <= k < bad ==> Kept(w, d, k))
      && (bad < |w.mem.state.segments| ==> !Kept(w, d, bad))
    decreases |w.mem.state.segments| - i
  {
    if i < |w.mem.state.segments| {
      assert TailLost(w.disk, d, w.mem.state.segments[i].id);
      FirstShrunkIs(w, d, i + 1);
    }
  }

  lemma ShrunkNotPossible(trigger: nat, w: World, body: Body, d: Disk)
    requires Inv(w, body) && TailsLost(w, d) && !SealedWhole(w, d)
    ensures Open(trigger, d) == Outcome(d, Failure(RecoveryNotPossible))
  {
    var s, n := w.mem.state, |body| - 1;
    BodyLength(s, body);
    FirstShrunkIs(w, d, 0);
    var bad := FirstShrunk(w, d, 0);
    var shrunk :| 0 <= shrunk < |s.segments| - 1 && !Kept(w, d, shrunk);
    assert bad < n;
    assert forall i :: 0 <= i < |s.segments| ==> TailLost(w.disk, d, s.segments[i].id);
    hide Inv, StateOk, BodyOk, FilesOk, Kept, TailLost, Open, FirstShrunk, ManifestReadable, IdSet;
    ShrunkIsFatal(w, body, d, bad);
    forall i | 0 <= i < bad
      ensures Fixable(IssuesAt(d, s.segments, s.seals, i))
    {
      WholeIsFixable(w, body, d, i);
    }
    assert s.segments != [];
    BadSegment(trigger, d, s, bad);
  }

  lemma ScanKnown(d: Disk, s: State)
    requires ManifestHolds(d.manifest, s) && s.segments != []
    requires s.dead <= d.segments.Keys <= IdSet(s.segments) + s.dead
    ensures Scan(d).issues == SegmentIssues(d, s.segments, s.seals)
  {
    HoldsReadable(d.manifest, s);
    ReadableReplays(d.manifest, s);
    NothingUnknown(d, s);
    assert Walk(d.manifest, MAGIC_LEN).status.Clean?;
    hide ReplayFrom, Replays, SegmentIssues, SegmentReports, Orphans, MissingDead, IdSet, Walk;
  }

  lemma NotPossibleDecides(trigger: nat, d: Disk)
    requires FixUps(Scan(d).issues, false) == Failure(NotPossible)
    ensures Open(trigger, d) == Outcome(d, Failure(RecoveryNotPossible))
  {
    NoFixUps();
    hide Scan, FixUps;
  }

  lemma {:induction false} FixUpsStopAt(a: seq<FileIssue>, b: seq<FileIssue>, e: RecoveryError)
    requires FixUps(a, false).Success? && FixUps(b, false) == Failure(e)
    ensures FixUps(a + b, false) == Failure(e)
  {
    hide CreateFixUp;
    if a == [] {
      assert a + b == b;
    } else {
      assert (a + b)[1..] == a[1..] + b;
      FixUpsStopAt(a[1..], b, e);
    }
  }

  lemma BadSegment(trigger: nat, d: Disk, s: State, bad: nat)
    requires ManifestReadable(d.manifest, s) && bad < |s.segments|
    requires Fatal(IssuesAt(d, s.segments, s.seals, bad))
    requires forall i :: 0 <= i < bad ==> Fixable(IssuesAt(d, s.segments, s.seals, i))
    ensures Open(trigger, d) == Outcome(d, Failure(RecoveryNotPossible))
  {
    hide FixUps, SegmentIssues, ScanSegment, ExpectedLen, Fatal, Fixable, ManifestReadable, Open, Scan, IdSet, Orphans,
      MissingDead, TornManifest, Walk;
    ScanReadable(d, s);
    FatalDecides(d, s.segments, s.seals, bad);
    var a, b, c := TornManifest(Walk(d.manifest, MAGIC_LEN)), IssuesFor(Orphans(d, s), OrphanSegmentFound),
                   IssuesFor(MissingDead(d, s), DeadSegmentNotFound);
    hide IssuesFor;
    FixUpsForManifest(Walk(d.manifest, MAGIC_LEN));
    FixUpsForIds(Orphans(d, s), true);
    FixUpsForIds(MissingDead(d, s), false);
    FixUpsConcat(a, b, false);
    FixUpsConcat(a + b, c, false);
    FixUpsStopAt(a + b + c, SegmentIssues(d, s.segments, s.seals), NotPossible);
    NotPossibleDecides(trigger, d);
  }

  /** The log that is left when the active file was cut at byte `k`: everything in the sealed segments, and the
      whole frames before the cut. */
  lemma LostTailsLog(body: Body, k: nat)
    requires body != [] && MAGIC_LEN <= k
    ensures var n, cut := |body| - 1, CutLast(body, k);
      && Concat(cut) == Concat(body[..n]) + body[n][..Whole(body[n], k - MAGIC_LEN)]
      && Concat(cut) <= Concat(body)
      && (forall j :: 0 <= j <= |body[n]| && |Image(body[n][..j])| <= k ==> Concat(body[..n]) + body[n][..j] <= Concat(cut))
  {
    var n := |body| - 1;
    CutLastEntries(body, k);
    hide Whole, CutLast, Image, Concat;
    PrefixOfLog(Concat(body[..n]), body[n], Whole(body[n], k - MAGIC_LEN));
    forall j | 0 <= j <= |body[n]| && |Image(body[n][..j])| <= k
      ensures Concat(body[..n]) + body[n][..j] <= Concat(CutLast(body, k))
    {
      SyncedKept(body[n], k, j);
      PrefixOfLog(Concat(body[..n]), body[n][..Whole(body[n], k - MAGIC_LEN)], j);
      assert body[n][..Whole(body[n], k - MAGIC_LEN)][..j] == body[n][..j];
    }
  }

  /** Power failure.  Whatever tails the live files lost, the store opens if and only if every sealed file is
      whole; then the log is the longest whole-frame prefix of what was written, it contains every entry that ends
      within what is left of the active file, and the write position is at its end. */
  lemma PowerLoss(trigger: nat, w: World, body: Body, d: Disk)
    requires Inv(w, body) && TailsLost(w, d)
    ensures Open(trigger, d).result.Success? <==> SealedWhole(w, d)
    ensures !SealedWhole(w, d) ==> Open(trigger, d) == Outcome(d, Failure(RecoveryNotPossible))
    ensures SealedWhole(w, d) ==>
      var n, k := |body| - 1, Left(w, d);
      && n >= 0 && MAGIC_LEN <= k
      && var cut := CutLast(body, k);
         && Reopens(trigger, d, Concat(cut), w.mem.state.firstEntry, w.mem.state.meta)
         && Concat(cut) <= Concat(body)
         && (forall j :: 0 <= j <= |body[n]| && |Image(body[n][..j])| <= k ==> Concat(body[..n]) + body[n][..j] <= Concat(cut))
         && Open(trigger, d).result.value.activePos == |Image(body[n][..Whole(body[n], k - MAGIC_LEN)])|
  {
    if SealedWhole(w, d) {
      LostTailsRecoverable(w, body, d);
      var n, k := |body| - 1, Left(w, d);
      assert CursorOk(w.mem, body);
      hide Inv, TailsLost, SealedWhole, Recoverable, Open, Reopens, Whole, CutLast, Left, Image, Concat;
      OpenRecovers(trigger, d, w.mem.state, CutLast(body, k));
      RecoverableReopens(trigger, d, w.mem.state, CutLast(body, k));
      LostTailsLog(body, k);
      CutLastAt(body, k);
    } else {
      hide *;
      ShrunkNotPossible(trigger, w, body, d);
    }
  }

  lemma PrefixOfLog(a: seq<Frame>, fs: seq<Frame>, j: nat)
    requires j <= |fs|
    ensures a + fs[..j] <= a + fs
  {
  }

  lemma SizesAscend(fs: seq<Frame>, m: nat, n: nat)
    requires m <= n <= |fs|
    ensures SizeOf(fs[..m]) <= SizeOf(fs[..n])
    ensures m < n ==> SizeOf(fs[..m]) < SizeOf(fs[..n])
  {
    assert fs[..n][..m] == fs[..m];
    SizeOfSplit(fs[..n], m);
    assert m < n ==> fs[..n][m..] != [];
    hide EncodeAll;
  }

  lemma SyncedKept(fs: seq<Frame>, k: nat, j: nat)
    requires j <= |fs| && |Image(fs[..j])| <= k && MAGIC_LEN <= k
    ensures j <= Whole(fs, k - MAGIC_LEN)
  {
    assert |Image(fs[..j])| == MAGIC_LEN + SizeOf(fs[..j]);
    hide *;
    var m := Whole(fs, k - MAGIC_LEN);
    WholeIsGreatest(fs, k - MAGIC_LEN);
    if m < j {
      SizesAscend(fs, m + 1, j);
    }
  }

  // ── The active file without its magic ───────────────────────────────────────

  /** The active file is gone, or is there without its magic; nothing else has changed. */
  ghost predicate ActiveBroken(w: World, d: Disk) {
    var id := w.mem.activeId;
    && d.manifest == w.disk.manifest
    && (d.segments == w.disk.segments - {id}
        || (id in d.segments && !(SEGMENT_MAGIC <= d.segments[id]) && d.segments == w.disk.segments[id := d.segments[id]]))
  }

  function MissingIssue(id: SegmentId): FileIssue {
    FileIssue(SegmentRef(id), ActiveSegmentMissing)
  }

  lemma BrokenFiles(w: World, body: Body, d: Disk)
    requires Inv(w, body) && ActiveBroken(w, d)
    ensures var s, n := w.mem.state, |body| - 1;
      && n >= 0 && |body| == |s.segments| && s.segments[n].id == w.mem.activeId
      && (forall i :: 0 <= i < n ==> FileAt(d, s.segments[i], body[i]))
      && s.dead <= d.segments.Keys <= IdSet(s.segments) + s.dead
  {
    var s, n := w.mem.state, |body| - 1;
    assert CursorOk(w.mem, body) && FilesOk(w.disk, s.segments, body) && DistinctIds(s.segments);
    assert s.segments[n].id in IdSet(s.segments) && IdSet(s.segments) !! s.dead;
    assert w.disk.segments.Keys == IdSet(s.segments) + s.dead;
    hide Inv, Image, IdSet;
    forall i | 0 <= i < n
      ensures FileAt(d, s.segments[i], body[i])
    {
      assert FileAt(w.disk, s.segments[i], body[i]);
      assert s.segments[i].id != s.segments[n].id;
    }
  }

  lemma {:induction false} IssuesConcat(d: Disk, a: seq<Segment>, b: seq<Segment>, seals: map<SegmentId, Seal>)
    ensures SegmentIssues(d, a + b, seals) == SegmentIssues(d, a, seals) + SegmentIssues(d, b, seals)
  {
    hide ScanSegment;
    if a == [] {
      assert a + b == b;
    } else {
      assert (a + b)[1..] == a[1..] + b;
      IssuesConcat(d, a[1..], b, seals);
    }
  }

  lemma OnlyLastHasIssues(d: Disk, segs: seq<Segment>, seals: map<SegmentId, Seal>)
    requires segs != []
    requires forall i :: 0 <= i < |segs| - 1 ==> ScanSegment(d, segs[i].id, ExpectedLen(seals, segs[i].id)).1 == []
    ensures var id := segs[|segs| - 1].id;
      SegmentIssues(d, segs, seals) == ScanSegment(d, id, ExpectedLen(seals, id)).1
  {
    hide ScanSegment, ExpectedLen;
    var n := |segs| - 1;
    var tail := [segs[n]];
    assert segs == segs[..n] + tail;
    NoIssues(d, segs[..n], seals);
    IssuesConcat(d, segs[..n], tail, seals);
    assert tail[1..] == [] && SegmentIssues(d, tail[1..], seals) == [];
  }

  lemma BrokenScan(w: World, body: Body, d: Disk)
    requires Inv(w, body) && ActiveBroken(w, d)
    ensures Scan(d).issues == [MissingIssue(w.mem.activeId)]
  {
    var s, n := w.mem.state, |body| - 1;
    BrokenFiles(w, body, d);
    InvIsSettled(w, body);
    assert ScanSegment(d, w.mem.activeId, None).1 == [MissingIssue(w.mem.activeId)];
    hide Inv, ActiveBroken, ManifestHolds, StateOk, BodyOk, FilesOk, ScanSegment, Image, IdSet, SegmentIssues, Scan;
    forall i | 0 <= i < n
      ensures ScanSegment(d, s.segments[i].id, ExpectedLen(s.seals, s.segments[i].id)).1 == []
    {
      SealedClean(d, s, body, i);
    }
    LastUnsealed(s);
    assert ExpectedLen(s.seals, s.segments[n].id) == None;
    hide ExpectedLen;
    OnlyLastHasIssues(d, s.segments, s.seals);
    ScanKnown(d, s);
  }

  lemma MissingFixes(id: SegmentId)
    ensures FixUps([MissingIssue(id)], false) == Failure(ApprovalRequired)
    ensures FixUps([MissingIssue(id)], true) == Success([FixUp(SegmentFileClean, true, CreateActiveSegment(id))])
  {
    var f := FixUp(SegmentFileClean, true, CreateActiveSegment(id));
    assert [MissingIssue(id)][1..] == [] && FixUps([], true) == Success([]);
    assert [f] + [] == [f];
  }

  lemma OneFixSorted(f: FixUp)
    ensures ByPhase([f]) == [f]
  {
    assert [f][1..] == [];
    assert InPhase([], ManifestFileClean) == InPhase([], ManifestAppends) == InPhase([], SegmentFileClean) == [];
    assert forall p: Phase :: InPhase([f], p) == (if f.phase == p then [f] else []) + [];
    assert [f] + [] == [f] && [] + [f] == [f];
  }

  lemma Recreated(d: Disk, id: SegmentId)
    ensures var fixes := [FixUp(SegmentFileClean, true, CreateActiveSegment(id))];
      PerformAll(d, fixes) ==
        if id in d.segments then Outcome(d, Failure(IoError)) else Outcome(WithSegment(d, id, SEGMENT_MAGIC), Success(()))
  {
    var fixes := [FixUp(SegmentFileClean, true, CreateActiveSegment(id))];
    assert fixes[1..] == [];
  }

  lemma ApprovalDecides(trigger: nat, d: Disk)
    requires FixUps(Scan(d).issues, false) == Failure(ApprovalRequired)
    ensures Open(trigger, d) == Outcome(d, Failure(ApprovedRecoveryRequired))
  {
    NoFixUps();
    hide Scan, FixUps;
  }

  lemma RecreatedRecoverable(w: World, body: Body, d: Disk)
    requires Inv(w, body) && ActiveBroken(w, d) && w.mem.activeId !in d.segments
    ensures body != []
    ensures Recoverable(WithSegment(d, w.mem.activeId, SEGMENT_MAGIC), w.mem.state, CutLast(body, MAGIC_LEN))
  {
    var s, n, d' := w.mem.state, |body| - 1, WithSegment(d, w.mem.activeId, SEGMENT_MAGIC);
    BrokenFiles(w, body, d);
    InvIsSettled(w, body);
    FileOfBody(SEGMENT_MAGIC, body[n]);
    assert Image(body[n])[..MAGIC_LEN] == SEGMENT_MAGIC;
    assert w.mem.activeId in w.disk.segments && d'.segments.Keys == w.disk.segments.Keys;
    hide Inv, StateOk, BodyOk, FilesOk, ManifestHolds, Image, IdSet, Recoverable, CutLast;
    HoldsReadable(d'.manifest, s);
    assert forall i :: 0 <= i < n ==> FileAt(d', s.segments[i], body[i]);
    CutRecoverable(s, body, d', MAGIC_LEN);
  }

  lemma NothingLeft(body: Body)
    requires body != []
    ensures Concat(CutLast(body, MAGIC_LEN)) == Concat(body[..|body| - 1])
  {
    var n := |body| - 1;
    CutLastEntries(body, MAGIC_LEN);
    assert Whole(body[n], 0) == 0;
    assert Concat(body[..n]) + [] == Concat(body[..n]);
  }

  /** A broken active file always needs approval.  With approval, an absent file is created anew and the store opens
      with the entries of the sealed segments; a file that is there without its magic makes the recovery fail,
      because creating a segment refuses an existing file. */
  lemma BrokenActiveNeedsApproval(trigger: nat, w: World, body: Body, d: Disk)
    requires Inv(w, body) && ActiveBroken(w, d)
    ensures body != [] && Open(trigger, d) == Outcome(d, Failure(ApprovedRecoveryRequired))
    ensures var r := AttemptRecovery(d, Scan(d).issues, true);
      && (w.mem.activeId in d.segments ==> r == Outcome(d, Failure(IoError)))
      && (w.mem.activeId !in d.segments ==>
            r.result.Success? && Reopens(trigger, r.disk, Concat(body[..|body| - 1]), w.mem.state.firstEntry, w.mem.state.meta))
  {
    hide *;
    var id := w.mem.activeId;
    BrokenFiles(w, body, d);
    BrokenScan(w, body, d);
    MissingFixes(id);
    ApprovalDecides(trigger, d);
    var f := FixUp(SegmentFileClean, true, CreateActiveSegment(id));
    OneFixSorted(f);
    Recreated(d, id);
    AttemptIs(d, [MissingIssue(id)], [f], true);
    if id !in d.segments {
      RecreatedRecoverable(w, body, d);
      RecoverableReopens(trigger, WithSegment(d, id, SEGMENT_MAGIC), w.mem.state, CutLast(body, MAGIC_LEN));
      NothingLeft(body);
    }
  }
}
