/** The store as a value: its in-memory fields and the disk, and what each public operation does to them.
    Every disk change is also listed step by step, in the order the code issues it. */
module World {
  import opened Basics
  import opened Frames
  import opened State
  import opened StateLaws
  import opened Disk
  import opened Index

  /** The fields of `Store` that decide its behaviour; `trigger` is `cfg.segment_rollover_trigger_bytes`. */
  datatype Mem = Mem(
    trigger: nat,
    state: State,
    index: seq<Indexed>,
    manifestPos: nat,
    activeId: SegmentId,
    activePos: u64,
    activeFirst: EntryId,
    activeCount: nat,
    lastEntry: Option<EntryId>,
    nextId: SegmentId,
    rolloverPending: bool)

  datatype World = World(mem: Mem, disk: Disk)

  // ── Set iteration order ─────────────────────────────────────────────────────

  ghost predicate Enumerates(q: seq<SegmentId>, s: set<SegmentId>) {
    && (forall i, j :: 0 <= i < j < |q| ==> q[i] != q[j])
    && (forall x :: x in q <==> x in s)
  }

  function SortedBelow(s: set<SegmentId>, limit: nat): (q: seq<SegmentId>)
    requires limit <= U32_LIMIT
    ensures forall i, j :: 0 <= i < j < |q| ==> q[i] < q[j]
    ensures forall x :: x in q <==> x in s && x < limit
  {
    if limit == 0 then []
    else
      var rest := SortedBelow(s, limit - 1);
      if limit - 1 in s then
        assert forall i :: 0 <= i < |rest| ==> rest[i] in rest;
        rest + [limit - 1]
      else rest
  }

  /** `collect_segment_ids`: the ids in ascending order. */
  function Sorted(s: set<SegmentId>): (q: seq<SegmentId>)
    ensures Enumerates(q, s)
    ensures forall i, j :: 0 <= i < j < |q| ==> q[i] < q[j]
  {
    SortedBelow(s, U32_LIMIT)
  }

  type SetOrder = f: set<SegmentId> -> seq<SegmentId> | forall s :: Enumerates(f(s), s) witness s => Sorted(s)

  /** The order in which a hash set of segment ids is iterated: some enumeration, not interpreted. */
  const HASH_ORDER: SetOrder

  // ── Manifest records ────────────────────────────────────────────────────────

  /** Append one record at the manifest cursor, sync it, and apply it to the in-memory state.  The code expects
      every application to succeed; the `GetState` default is never used. */
  function Logged(w: World, entry: ManifestOp): World {
    var bytes := Encode(RecordFrame(entry));
    World(
      w.mem.(manifestPos := w.mem.manifestPos + |bytes|, state := GetState(Applied(w.mem.state, entry), w.mem.state)),
      w.disk.(manifest := WriteAt(w.disk.manifest, w.mem.manifestPos, bytes)))
  }

  function GetState(r: Result<State, ApplyError>, default: State): State {
    if r.Success? then r.value else default
  }

  // ── Writing ─────────────────────────────────────────────────────────────────

  function RollOp(m: Mem, first: EntryId): ManifestOp {
    Bare(RollSegment(m.activeId, m.activeFirst, m.lastEntry.GetOr(m.activeFirst), Wrap32(m.activeCount),
                     m.activePos, m.nextId, first))
  }

  /** `do_rollover` followed by clearing the pending flag. */
  function RolledOver(w: World, first: EntryId): World {
    var created := w.(disk := WithSegment(w.disk, w.mem.nextId, SEGMENT_MAGIC));
    var logged := Logged(created, RollOp(w.mem, first));
    logged.(mem := logged.mem.(
      nextId := Wrap32(w.mem.nextId + 1),
      activeId := w.mem.nextId,
      activePos := MAGIC_LEN,
      activeFirst := first,
      activeCount := 0,
      rolloverPending := false))
  }

  /** Its disk steps: create the file, write the magic, append the record. */
  function RollSteps(w: World, first: EntryId): seq<Disk> {
    [WithSegment(w.disk, w.mem.nextId, []),
     WithSegment(w.disk, w.mem.nextId, SEGMENT_MAGIC),
     RolledOver(w, first).disk]
  }

  function FileIn(d: Disk, id: SegmentId): seq<byte> {
    if id in d.segments then d.segments[id] else []
  }

  /** Flush a non-empty batch to the active file at the cursor. */
  function Flushed(w: World, batch: seq<Frame>): World
    requires batch != []
  {
    var id := w.mem.activeId;
    World(
      FlushedMem(w.mem, batch),
      WithSegment(w.disk, id, WriteAt(FileIn(w.disk, id), w.mem.activePos, EncodeAll(batch))))
  }

  function FlushedMem(m: Mem, batch: seq<Frame>): Mem
    requires batch != []
  {
    var pos := Wrap64(m.activePos + SizeOf(batch));
    m.(activePos := pos,
       lastEntry := Some(batch[|batch| - 1].id),
       activeCount := m.activeCount + |batch|,
       rolloverPending := m.rolloverPending || pos > m.trigger)
  }

  /** The pushes of one batch followed by `write`. */
  function Written(w: World, batch: seq<Frame>): World {
    if batch == [] then w
    else Flushed(if w.mem.rolloverPending then RolledOver(w, batch[0].id) else w, batch)
  }

  function WriteSteps(w: World, batch: seq<Frame>): seq<Disk> {
    if batch == [] then []
    else (if w.mem.rolloverPending then RollSteps(w, batch[0].id) else []) + [Written(w, batch).disk]
  }

  // ── Truncation ──────────────────────────────────────────────────────────────

  /** The sealed segments whose last entry lies below `first`. */
  function Evicted(segs: seq<Segment>, seals: map<SegmentId, Seal>, first: EntryId): seq<SegmentId> {
    if segs == [] then []
    else
      var rest := Evicted(segs[1..], seals, first);
      if segs[0].id in seals && seals[segs[0].id].lastEntry < first then [segs[0].id] + rest else rest
  }

  function StartTruncated(w: World, first: EntryId, meta: seq<Pair>): Option<World> {
    if first < w.mem.state.firstEntry then None
    else
      var drop := Evicted(w.mem.state.segments, w.mem.state.seals, first);
      var logged := Logged(w, ManifestOp(TruncateStart(first, drop), meta));
      Some(logged.(mem := logged.mem.(index := TruncatedStart(w.mem.index, first))))
  }

  function StartsBy(last: EntryId): Segment -> bool {
    (seg: Segment) => seg.firstEntry <= last
  }

  /** The position in the segment list that `truncate_end` looks for `last` in. */
  function TargetIndex(segs: seq<Segment>, last: EntryId): (i: nat)
    requires segs != []
    ensures i < |segs|
  {
    var p := PartitionPoint(segs, StartsBy(last));
    if p == 0 then 0 else p - 1
  }

  /** The logical position its scanner starts with; the scanner's reader always starts right behind the magic. */
  function StartOffset(m: Mem, target: SegmentId, last: EntryId): nat {
    match Floor(m.index, last)
    case None => MAGIC_LEN
    case Some(p) => if p.segment == target then p.offset else MAGIC_LEN
  }

  /** The byte offset behind the frame with id `target`, walking headers from `c` without checksums. */
  function AfterFrom(data: seq<byte>, c: nat, target: EntryId): Option<nat>
    requires c <= |data|
    ensures AfterFrom(data, c, target).Some? ==> c <= AfterFrom(data, c, target).value <= |data|
    decreases |data| - c
  {
    if |data| < c + HEADER_LEN then None
    else
      var next := c + HEADER_LEN + HeaderAt(data, c).len;
      if |data| < next then None
      else if HeaderAt(data, c).id == target then Some(next)
      else AfterFrom(data, next, target)
  }

  /** The byte offset `truncate_end` computes, or `None` when the scan fails.  The scanner reports its logical
      position, which runs ahead of its reader by the difference of their starting points. */
  function CutOffset(w: World, last: EntryId): Option<u64>
    requires w.mem.state.segments != []
  {
    var target := w.mem.state.segments[TargetIndex(w.mem.state.segments, last)].id;
    match OpenSegment(w.disk, target)
    case None => None
    case Some(file) =>
      match AfterFrom(file, MAGIC_LEN, last)
      case None => None
      case Some(end) => Some(Wrap64(end - MAGIC_LEN + StartOffset(w.mem, target, last)))
  }

  predicate IsEndNoop(m: Mem, last: EntryId) {
    m.lastEntry.None? || last >= m.lastEntry.value
  }

  function EndTruncated(w: World, last: EntryId): Option<World>
    requires w.mem.state.segments != []
  {
    if IsEndNoop(w.mem, last) then Some(w)
    else
      match CutOffset(w, last)
      case None => None
      case Some(offset) => Some(EndCut(w, last, offset))
  }

  function CutDisk(w: World, last: EntryId, offset: u64): Disk
    requires w.mem.state.segments != []
  {
    var target := w.mem.state.segments[TargetIndex(w.mem.state.segments, last)].id;
    WithSegment(w.disk, target, SetLen(FileIn(w.disk, target), offset))
  }

  function EndOp(w: World, last: EntryId, offset: u64): ManifestOp
    requires w.mem.state.segments != []
  {
    var segs := w.mem.state.segments;
    var i := TargetIndex(segs, last);
    Bare(TruncateEnd(segs[i].id, offset, Ids(segs[i + 1..])))
  }

  function EndCut(w: World, last: EntryId, offset: u64): World
    requires w.mem.state.segments != []
  {
    var target := w.mem.state.segments[TargetIndex(w.mem.state.segments, last)];
    var logged := Logged(w.(disk := CutDisk(w, last, offset)), EndOp(w, last, offset));
    logged.(mem := logged.mem.(
      activeId := target.id,
      activePos := offset,
      activeFirst := target.firstEntry,
      activeCount := 0,
      lastEntry := Some(last),
      rolloverPending := false,
      index := TruncatedEnd(w.mem.index, last)))
  }

  /** Its disk steps: shrink the file, append the record. */
  function EndSteps(w: World, last: EntryId): seq<Disk>
    requires w.mem.state.segments != []
  {
    if IsEndNoop(w.mem, last) || CutOffset(w, last).None? then []
    else
      var offset := CutOffset(w, last).value;
      [CutDisk(w, last, offset), EndCut(w, last, offset).disk]
  }

  // ── Deletion and metadata ───────────────────────────────────────────────────

  function Deleted(w: World, ids: seq<SegmentId>): World
    decreases |ids|
  {
    if ids == [] then w
    else
      var unlinked := w.(disk := WithoutSegment(w.disk, ids[0]));
      Deleted(Logged(unlinked, Bare(SegmentDeleted(ids[0]))), ids[1..])
  }

  /** Its disk steps, per dead segment: unlink the file, append the record. */
  function DeleteSteps(w: World, ids: seq<SegmentId>): seq<Disk>
    decreases |ids|
  {
    if ids == [] then []
    else
      var unlinked := w.(disk := WithoutSegment(w.disk, ids[0]));
      var logged := Logged(unlinked, Bare(SegmentDeleted(ids[0])));
      [unlinked.disk, logged.disk] + DeleteSteps(logged, ids[1..])
  }

  function DeadDeleted(w: World): World {
    Deleted(w, HASH_ORDER(w.mem.state.dead))
  }

  function MetadataWritten(w: World, pairs: seq<Pair>): World {
    Logged(w, ManifestOp(Metadata, pairs))
  }

  // ── Observers ───────────────────────────────────────────────────────────────

  /** `last_entry_id()`: hidden once the head has passed it. */
  function LastVisible(m: Mem): Option<EntryId> {
    if m.lastEntry.Some? && m.lastEntry.value >= m.state.firstEntry then m.lastEntry else None
  }
}
