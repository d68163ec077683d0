/** The store object: fields changed in place, and every disk change recorded in the order it is made. */
module Stores {
  import opened Basics
  import opened Frames
  import opened State
  import opened StateLaws
  import opened Disk
  import opened Index
  import opened Log
  import opened World
  import opened Invariant
  import opened Writing
  import opened TruncatingEnd
  import opened Recovery
  import opened Reopening
  import opened Scanner
  import opened ScannerLaws
  import opened Devices
  import opened Manifests
  import opened Scanning
  import opened Runs

  datatype StoreError = InvalidInput | InvalidData | FileError

  class Store {
    const trigger: nat
    const device: Device
    const state: StoreState
    const index: EntryIndex
    const manifestCursor: FrameCursor
    var activeCursor: FrameCursor
    var activeId: SegmentId
    var activeFirst: EntryId
    var activeCount: nat
    var lastEntry: Option<EntryId>
    var nextId: SegmentId
    var rolloverPending: bool

    ghost predicate Valid()
      reads this, manifestCursor, activeCursor
    {
      && manifestCursor != activeCursor && manifestCursor.buffer == []
      && activeCursor.position < U64_LIMIT
    }

    /** The store as a value. */
    ghost function Now(): World
      requires Valid()
      reads this, device, state, index, manifestCursor, activeCursor
    {
      World(Mem(trigger, state.View(), index.segments, manifestCursor.position, activeId, activeCursor.position,
                activeFirst, activeCount, lastEntry, nextId, rolloverPending), device.disk)
    }

    constructor (m: Mem, index: EntryIndex, device: Device)
      requires index.segments == m.index
      ensures Valid() && fresh(state) && fresh(manifestCursor) && fresh(activeCursor)
      ensures this.device == device && this.index == index && activeCursor.buffer == []
      ensures Now() == World(m, device.disk)
    {
      trigger := m.trigger;
      this.device, this.index := device, index;
      activeId, activeFirst, activeCount := m.activeId, m.activeFirst, m.activeCount;
      lastEntry, nextId, rolloverPending := m.lastEntry, m.nextId, m.rolloverPending;
      state := new StoreState.From(m.state);
      manifestCursor := new FrameCursor(m.manifestPos);
      activeCursor := new FrameCursor(m.activePos);
    }

    /** Append a record, then apply it to the in-memory state. */
    method Append(entry: ManifestOp)
      requires Valid()
      modifies device, state, manifestCursor
      ensures Valid() && Now() == Logged(old(Now()), entry)
      ensures device.history == old(device.history) + [device.disk]
    {
      hide WriteAt, Encode, Applied;
      WriteOp(manifestCursor, device, entry);
      var applied := state.Apply(entry);
    }

    /** `do_rollover`: create the file, append the record, then switch to the new segment.  Frames already buffered
        stay buffered for it. */
    method DoRollover(first: EntryId) returns (ok: bool)
      requires Valid()
      modifies this, device, state, manifestCursor, activeCursor
      ensures Valid() && activeCursor == old(activeCursor) && activeCursor.buffer == old(activeCursor.buffer)
      ensures index.segments == old(index.segments)
      ensures ok ==> activeCursor.position == MAGIC_LEN
      ensures ok <==> old(nextId) !in old(device.disk).segments
      ensures !ok ==> Now() == old(Now()) && device.history == old(device.history)
      ensures ok ==> Now().(mem := Now().mem.(rolloverPending := false)) == RolledOver(old(Now()), first)
      ensures ok ==> device.history == old(device.history) + RollSteps(old(Now()), first)
    {
      hide WriteAt, Encode, Applied;
      ghost var before := Now();
      var op := Bare(RollSegment(activeId, activeFirst, lastEntry.GetOr(activeFirst), Wrap32(activeCount),
                                 activeCursor.position, nextId, first));
      ok := device.CreateSegment(nextId);
      if !ok {
        return;
      }
      Append(op);
      activeId := nextId;
      nextId := Wrap32(nextId + 1);
      activeCursor.SetPosition(MAGIC_LEN);
      activeFirst := first;
      activeCount := 0;
      assert op == RollOp(before.mem, first);
    }

    /** Flush what is buffered, the frames `fs`, to the active file. */
    method FlushBatch(ghost fs: seq<Frame>, last: EntryId, count: nat) returns (ok: bool)
      requires Valid() && fs != [] && activeCursor.buffer == EncodeAll(fs) && last == LastId(fs) && count == |fs|
      requires activeCursor.position + SizeOf(fs) < U64_LIMIT
      modifies this, device, activeCursor
      ensures Valid() && activeCursor == old(activeCursor)
      ensures ok <==> OpenSegment(old(device.disk), old(activeId)).Some?
      ensures ok ==> activeCursor.buffer == [] && Now() == Flushed(old(Now()), fs)
      ensures ok ==> device.history == old(device.history) + [device.disk]
    {
      hide WriteAt, EncodeAll, SizeOf;
      ok := OpenSegment(device.disk, activeId).Some?;
      if !ok {
        return;
      }
      activeCursor.FlushToSegment(device, activeId);
      lastEntry := Some(last);
      activeCount := activeCount + count;
      if activeCursor.position > trigger {
        rolloverPending := true;
      }
    }

    /** The sealed segments wholly below `first`. */
    method ToEvict(first: EntryId) returns (ids: seq<SegmentId>)
      ensures ids == Evicted(state.segments, state.seals, first)
    {
      var segs := state.segments;
      assert segs[0..] == segs;
      ids := [];
      var i := 0;
      while i < |segs|
        invariant 0 <= i <= |segs|
        invariant ids + Evicted(segs[i..], state.seals, first) == Evicted(segs, state.seals, first)
      {
        assert segs[i..][1..] == segs[i + 1..];
        if segs[i].id in state.seals && state.seals[segs[i].id].lastEntry < first {
          ids := ids + [segs[i].id];
        }
        i := i + 1;
      }
    }

    method TruncateStart(first: EntryId, meta: seq<Pair>) returns (r: Result<(), StoreError>)
      requires Valid()
      modifies device, state, manifestCursor, index
      ensures Valid()
      ensures match StartTruncated(old(Now()), first, meta)
        case None => r == Failure(InvalidInput) && Now() == old(Now()) && device.history == old(device.history)
        case Some(w) => r.Success? && Now() == w && device.history == old(device.history) + [w.disk]
      ensures r.Success? && IndexOk(old(index.segments)) ==>
        forall p :: Has(index.segments, p) <==> Has(old(index.segments), p) && p.checkpoint >= first
    {
      hide Evicted, Logged, TruncatedStart, IndexOk, Has;
      if first < state.firstEntry {
        return Failure(InvalidInput);
      }
      var drop := ToEvict(first);
      Append(ManifestOp(Op.TruncateStart(first, drop), meta));
      index.TruncateStart(first);
      if IndexOk(old(index.segments)) {
        TruncatedStartKeeps(old(index.segments), first);
      }
      r := Success(());
    }

    /** The segment `truncate_end` looks in, and the byte behind `last` as its scanner reports it. */
    method FindCut(last: EntryId) returns (i: nat, r: Result<u64, StoreError>)
      requires Valid() && state.segments != []
      ensures i == TargetIndex(state.segments, last)
      ensures r.Success? ==> CutOffset(Now(), last) == Some(r.value)
      ensures r.Failure? ==> CutOffset(Now(), last) == None && r.error == CutError(Now(), last)
    {
      hide AfterFrom, ScanningAfter, PartitionPoint, Floor;
      var segs := state.segments;
      var p := BinarySearch(segs, StartsBy(last));
      i := if p == 0 then 0 else p - 1;
      var target := segs[i].id;
      var found := index.Find(last);
      var start := if found.Some? && found.value.segment == target then found.value.offset else MAGIC_LEN;
      assert start == StartOffset(Now().mem, target, last);
      var file := OpenSegment(device.disk, target);
      if file.None? {
        return i, Failure(FileError);
      }
      var scanner := new FrameScanner(file.value, MAGIC_LEN, start);
      AfterAgrees(scanner.View(), last);
      var end := scanner.ScanToAfter(last);
      if end.Failure? {
        return i, Failure(InvalidData);
      }
      r := Success(Wrap64(end.value));
    }

    /** Shrink the target's file, record it, and make it the active segment. */
    method CutAt(last: EntryId, i: nat, offset: u64)
      requires Valid() && StateOk(state.View()) && i < |state.segments| && i == TargetIndex(state.segments, last)
      requires state.segments[i].id in device.disk.segments
      modifies this, device, state, manifestCursor, index
      ensures Valid() && fresh(activeCursor)
      ensures Now() == EndCut(old(Now()), last, offset)
      ensures device.history == old(device.history) + [CutDisk(old(Now()), last, offset), device.disk]
      ensures IndexOk(old(index.segments)) ==>
        forall p :: Has(index.segments, p) <==> Has(old(index.segments), p) && p.checkpoint <= last
    {
      hide Logged, SetLen, TruncatedEnd, Ids, StateOk, TargetIndex, FindSegment, IndexOk, Has;
      ghost var before := Now();
      TargetStays(before, last, offset);
      var target, drop := state.segments[i].id, Ids(state.segments[i + 1..]);
      device.ResizeSegment(target, offset);
      assert device.disk == CutDisk(before, last, offset);
      Append(Bare(Op.TruncateEnd(target, offset, drop)));
      activeId := target;
      activeCursor := new FrameCursor(offset);
      lastEntry := Some(last);
      rolloverPending := false;
      index.TruncateEnd(last);
      if IndexOk(old(index.segments)) {
        TruncatedEndKeeps(old(index.segments), last);
      }
      activeFirst := FirstEntryOf(state.segments, target);
      activeCount := 0;
    }

    /** `truncate_end`. */
    method TruncateEnd(last: EntryId) returns (r: Result<(), StoreError>)
      requires Valid() && StateOk(state.View())
      modifies this, device, state, manifestCursor, index
      ensures Valid() && (activeCursor == old(activeCursor) || fresh(activeCursor))
      ensures match EndTruncated(old(Now()), last)
        case None =>
          r == Failure(CutError(old(Now()), last)) && Now() == old(Now()) && device.history == old(device.history)
        case Some(w) => r.Success? && Now() == w && device.history == old(device.history) + EndSteps(old(Now()), last)
    {
      if lastEntry.None? || last >= lastEntry.value {
        return Success(());
      }
      assert state.segments != [];
      hide EndCut, CutDisk, CutOffset, TargetIndex, StateOk;
      var i, offset := FindCut(last);
      if offset.Failure? {
        return Failure(offset.error);
      }
      CutIsOnDisk(Now(), last);
      CutAt(last, i, offset.value);
      r := Success(());
    }

    method DeleteDeadSegments() returns (deleted: nat)
      requires Valid()
      modifies device, state, manifestCursor
      ensures Valid() && Now() == DeadDeleted(old(Now()))
      ensures deleted == |old(state.dead)|
      ensures device.history == old(device.history) + DeleteSteps(old(Now()), HASH_ORDER(old(state.dead)))
    {
      hide Logged;
      var dead := HASH_ORDER(state.dead);
      ghost var start, want, steps := device.history, Deleted(Now(), dead), DeleteSteps(Now(), dead);
      EnumerationSize(dead, state.dead);
      assert dead[0..] == dead;
      deleted := 0;
      while deleted < |dead|
        invariant 0 <= deleted <= |dead| && Valid()
        invariant Deleted(Now(), dead[deleted..]) == want
        invariant device.history + DeleteSteps(Now(), dead[deleted..]) == start + steps
      {
        assert dead[deleted..][1..] == dead[deleted + 1..];
        device.DeleteSegment(dead[deleted]);
        Append(Bare(SegmentDeleted(dead[deleted])));
        deleted := deleted + 1;
      }
    }

    method WriteMetadata(pairs: seq<Pair>)
      requires Valid()
      modifies device, state, manifestCursor
      ensures Valid() && Now() == MetadataWritten(old(Now()), pairs)
      ensures device.history == old(device.history) + [device.disk]
    {
      hide Logged;
      Append(ManifestOp(Metadata, pairs));
    }

    method FirstEntryId() returns (id: EntryId)
      requires Valid()
      ensures id == Now().mem.state.firstEntry
    {
      id := state.firstEntry;
    }

    method LastEntryId() returns (id: Option<EntryId>)
      requires Valid()
      ensures id == LastVisible(Now().mem)
    {
      if lastEntry.None? || lastEntry.value < state.firstEntry {
        return None;
      }
      id := lastEntry;
    }
  }

  /** Why no cut can be found: the target's file cannot be opened, or the entry is not in it. */
  function CutError(w: World, last: EntryId): StoreError
    requires w.mem.state.segments != []
  {
    if OpenSegment(w.disk, Target(w, last)).None? then FileError else InvalidData
  }

  /** In a valid store the only reason is that the entry is not stored. */
  lemma CutFailsAsNotStored(w: World, body: Body, last: EntryId)
    requires Inv(w, body)
    ensures w.mem.state.segments != [] && CutError(w, last) == InvalidData
  {
    hide *;
    HasSegments(w, body);
    TargetOpens(w, body, TargetIndex(w.mem.state.segments, last));
    CutErrorIs(w, last);
  }

  lemma TargetOpens(w: World, body: Body, i: nat)
    requires Inv(w, body) && i < |body|
    ensures i < |w.mem.state.segments| && OpenSegment(w.disk, w.mem.state.segments[i].id).Some?
  {
    assert FilesOk(w.disk, w.mem.state.segments, body);
    assert FileAt(w.disk, w.mem.state.segments[i], body[i]);
    FileOfBody(SEGMENT_MAGIC, body[i]);
    hide Inv, Image;
  }

  lemma CutErrorIs(w: World, last: EntryId)
    requires w.mem.state.segments != []
    requires OpenSegment(w.disk, w.mem.state.segments[TargetIndex(w.mem.state.segments, last)].id).Some?
    ensures CutError(w, last) == InvalidData
  {
    hide TargetIndex, OpenSegment;
  }

  /** The recorded first entry of a segment, 0 when it is not live. */
  function FirstEntryOf(segs: seq<Segment>, id: SegmentId): EntryId {
    match FindSegment(segs, id)
    case Some(seg) => seg.firstEntry
    case None => 0
  }

  lemma CutIsOnDisk(w: World, last: EntryId)
    requires w.mem.state.segments != [] && CutOffset(w, last).Some?
    ensures w.mem.state.segments[TargetIndex(w.mem.state.segments, last)].id in w.disk.segments
  {
    hide TargetIndex, AfterFrom, StartOffset;
  }

  /** The target is still live after the record has been applied, with the first entry it had. */
  lemma TargetStays(w: World, last: EntryId, offset: u64)
    requires StateOk(w.mem.state)
    ensures var segs := w.mem.state.segments; var target := segs[TargetIndex(segs, last)];
      FindSegment(Logged(w.(disk := CutDisk(w, last, offset)), EndOp(w, last, offset)).mem.state.segments, target.id) == Some(target)
  {
    var s, i := w.mem.state, TargetIndex(w.mem.state.segments, last);
    hide TargetIndex, CutDisk, WriteAt, Encode, Applied, FindSegment, IdSet, Ids;
    TruncateEndKeeps(s, i, offset);
    assert DistinctIds(s.segments[..i + 1]);
    FindSegmentAt(s.segments[..i + 1], i);
  }

  lemma EnumerationSize(q: seq<SegmentId>, s: set<SegmentId>)
    requires Enumerates(q, s)
    ensures |q| == |s|
    decreases |q|
  {
    if q == [] {
      assert s == {};
    } else {
      var last := q[|q| - 1];
      assert last in q;
      var rest := q[..|q| - 1];
      forall x
        ensures x in rest <==> x in s - {last}
      {
        if x in s - {last} {
          assert x in q;
          var i :| 0 <= i < |q| && q[i] == x;
          assert rest[i] == x;
        }
      }
      EnumerationSize(rest, s - {last});
    }
  }

  // ── Batches ─────────────────────────────────────────────────────────────────

  /** A write batch.  Pushed frames go straight into the store's cursor. */
  class StoreWriter {
    const store: Store
    var firstId: Option<EntryId>
    var lastId: Option<EntryId>
    var count: nat
    ghost var pushed: seq<Frame>

    ghost predicate Valid()
      reads this, store, store.manifestCursor, store.activeCursor
    {
      && store.Valid() && store.activeCursor.buffer == EncodeAll(pushed) && count == |pushed|
      && (pushed != [] ==> firstId == Some(pushed[0].id) && lastId == Some(pushed[|pushed| - 1].id))
      && (pushed == [] ==> firstId == None)
    }

    constructor (store: Store)
      requires store.Valid() && store.activeCursor.buffer == []
      ensures Valid() && this.store == store && pushed == []
    {
      this.store := store;
      firstId, lastId, count, pushed := None, None, 0, [];
    }

    method Push(id: EntryId, payload: seq<byte>)
      requires Valid() && |payload| < U32_LIMIT
      modifies this, store.activeCursor`buffer
      ensures Valid() && pushed == old(pushed) + [RawFrame.Frame(id, payload)]
    {
      ghost var f := RawFrame.Frame(id, payload);
      PushedOne(pushed, f);
      hide EncodeAll, Encode;
      store.activeCursor.Write(id, payload);
      if firstId.None? {
        firstId := Some(id);
      }
      lastId := Some(id);
      count := count + 1;
      pushed := pushed + [f];
    }

    /** `write`: roll over first when that is pending, then flush everything pushed. */
    method Write() returns (ok: bool)
      requires Valid()
      requires store.activeCursor.position + SizeOf(pushed) < U64_LIMIT && MAGIC_LEN + SizeOf(pushed) < U64_LIMIT
      modifies store, store.device, store.state, store.manifestCursor, store.activeCursor
      ensures store.Valid() && store.activeCursor == old(store.activeCursor)
      ensures ok ==> store.activeCursor.buffer == [] && store.Now() == Written(old(store.Now()), pushed)
      ensures ok ==> store.device.history == old(store.device.history) + WriteSteps(old(store.Now()), pushed)
      ensures ok <==> CanOpenActive(old(store.Now()), pushed)
    {
      hide EncodeAll, RolledOver, RollSteps, OpenSegment, Flushed, SizeOf;
      EncodeAllEmpty();
      if count == 0 {
        return true;
      }
      ghost var before, fs := store.Now(), pushed;
      if store.rolloverPending {
        ok := store.DoRollover(firstId.value);
        if !ok {
          return;
        }
        store.rolloverPending := false;
        assert store.Now() == RolledOver(before, fs[0].id);
      }
      ok := store.FlushBatch(fs, lastId.value, count);
    }
  }

  /** The files a write needs: a free name for the new segment when rolling over, and an active file that can be
      opened. */
  ghost predicate CanOpenActive(w: World, batch: seq<Frame>) {
    batch != [] ==>
      && (w.mem.rolloverPending ==> w.mem.nextId !in w.disk.segments)
      && var rolled := if w.mem.rolloverPending then RolledOver(w, batch[0].id) else w;
         OpenSegment(rolled.disk, rolled.mem.activeId).Some?
  }

  lemma PushedOne(fs: seq<Frame>, f: Frame)
    ensures EncodeAll(fs + [f]) == EncodeAll(fs) + Encode(f)
  {
    EncodeAllConcat(fs, [f]);
    assert [f] == [f] + [];
    EncodeAllCons(f, []);
    EncodeAllEmpty();
    assert Encode(f) + [] == Encode(f);
  }

  /** In a valid store a batch always finds its files. */
  lemma WriteFindsFiles(w: World, body: Body, batch: seq<Frame>)
    requires Inv(w, body) && CanWrite(w.mem, batch)
    ensures CanOpenActive(w, batch)
  {
    hide *;
    if batch != [] {
      if w.mem.rolloverPending {
        NextIsFresh(w, body);
        PlainRoll(w, body, batch);
        RollKeepsInv(w, body, batch[0].id);
        ActiveOpens(RolledOver(w, batch[0].id), body + [[]]);
      } else {
        ActiveOpens(w, body);
      }
    }
    CanOpenActiveIs(w, batch);
  }

  lemma CanOpenActiveIs(w: World, batch: seq<Frame>)
    requires batch != [] && w.mem.rolloverPending ==>
      w.mem.nextId !in w.disk.segments
      && OpenSegment(RolledOver(w, batch[0].id).disk, RolledOver(w, batch[0].id).mem.activeId).Some?
    requires batch != [] && !w.mem.rolloverPending ==> OpenSegment(w.disk, w.mem.activeId).Some?
    ensures CanOpenActive(w, batch)
  {
    hide OpenSegment, RolledOver;
  }

  lemma ActiveOpens(w: World, body: Body)
    requires Inv(w, body)
    ensures OpenSegment(w.disk, w.mem.activeId).Some?
  {
    var n := |body| - 1;
    assert CursorOk(w.mem, body) && FilesOk(w.disk, w.mem.state.segments, body);
    assert FileAt(w.disk, w.mem.state.segments[n], body[n]);
    FileOfBody(SEGMENT_MAGIC, body[n]);
    hide Inv, Image;
  }

  // ── Creating ────────────────────────────────────────────────────────────────

  /** The creating half of `open_or_create`, in an empty directory: manifest, first segment, first record. */
  method CreateFiles(device: Device)
    requires device.disk == Disk([], map[])
    modifies device
    ensures device.disk == FreshDisk()
    ensures device.history == old(device.history) + CreateSteps()
  {
    hide Encode;
    WriteAtEnd([], MANIFEST_MAGIC);
    device.WriteManifest(0, MANIFEST_MAGIC);
    assert [] + MANIFEST_MAGIC == MANIFEST_MAGIC;
    hide WriteAt;
    var ok := device.CreateSegment(1);
    assert device.disk == Disk(MANIFEST_MAGIC, map[1 := SEGMENT_MAGIC]);
    var cursor := new FrameCursor(MAGIC_LEN);
    WriteOp(cursor, device, Bare(CreateSegment(1, 0)));
  }

  // ── Opening ─────────────────────────────────────────────────────────────────

  /** `from_scan_report`, filling the index segment by segment. */
  method FromReport(trigger: nat, report: ScanReport, error: OpenError, device: Device) returns (r: Result<Store, OpenError>)
    ensures match FromScanReport(trigger, report, error)
      case Failure(e) => r == Failure(e)
      case Success(m) => r.Success? && Opens(r.value, m, device) && fresh(r.value) && fresh(r.value.activeCursor)
  {
    hide MemFrom;
    if report.issues != [] {
      return Failure(error);
    }
    var m := MemFrom(trigger, report);
    if m.None? {
      return Failure(Panics);
    }
    var index := new EntryIndex();
    var all := m.value.index;
    assert all[0..] == all;
    var i := 0;
    while i < |all|
      invariant 0 <= i <= |all| && fresh(index)
      invariant index.segments + all[i..] == all
    {
      index.AddSegment(all[i].segment, all[i].checkpoints);
      i := i + 1;
    }
    var store := new Store(m.value, index, device);
    r := Success(store);
  }

  ghost predicate Opens(store: Store, m: Mem, device: Device)
    reads store, store.device, store.state, store.index, store.manifestCursor, store.activeCursor
  {
    store.Valid() && store.device == device && store.activeCursor.buffer == [] && store.Now() == World(m, device.disk)
  }

  /** `open`: scan, recover what needs no approval, and scan again. */
  method OpenStore(trigger: nat, device: Device) returns (r: Result<Store, OpenError>)
    modifies device
    ensures device.disk == Open(trigger, old(device.disk)).disk
    ensures match Open(trigger, old(device.disk)).result
      case Failure(e) => r == Failure(e)
      case Success(m) => r.Success? && Opens(r.value, m, device) && fresh(r.value)
  {
    hide Scan, FromScanReport, AttemptRecovery;
    var report := ScanStore(device.disk);
    if report.issues == [] {
      r := FromReport(trigger, report, RecoveryNotPossible, device);
      return;
    }
    var fixed := Recover(device, report, false);
    if fixed.Failure? {
      match fixed.error {
        case NotPossible => return Failure(RecoveryNotPossible);
        case ApprovalRequired => return Failure(ApprovedRecoveryRequired);
        case IoError => return Failure(RecoveryFailed);
      }
    }
    var again := ScanStore(device.disk);
    r := FromReport(trigger, again, RecoveryFailed, device);
  }
}
