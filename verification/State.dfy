/** The structural state recorded by the manifest: segments, seals, dead set, log head and metadata. */
module State {
  import opened Basics

  type SegmentId = u32
  type EntryId = u64
  type Pair = (byte, seq<byte>)

  datatype Segment = Segment(id: SegmentId, firstEntry: EntryId)
  datatype Seal = Seal(firstEntry: EntryId, lastEntry: EntryId, entryCount: u32, finalSize: u64)

  datatype State = State(
    segments: seq<Segment>,
    seals: map<SegmentId, Seal>,
    active: Option<SegmentId>,
    dead: set<SegmentId>,
    firstEntry: EntryId,
    meta: seq<Pair>)

  const EMPTY := State([], map[], None, {}, 0, [])

  datatype Op =
    | CreateSegment(id: SegmentId, firstEntry: EntryId)
    | RollSegment(sealedId: SegmentId, firstEntry: EntryId, lastEntry: EntryId, entryCount: u32, finalSize: u64,
                  newId: SegmentId, newFirstEntry: EntryId)
    | TruncateStart(firstEntry: EntryId, drop: seq<SegmentId>)
    | TruncateEnd(newActiveId: SegmentId, byteOffset: u64, drop: seq<SegmentId>)
    | SegmentDeleted(id: SegmentId)
    | RecordOrphan(id: SegmentId)
    | Metadata

  datatype ManifestOp = ManifestOp(op: Op, meta: seq<Pair>)

  function Bare(op: Op): ManifestOp {
    ManifestOp(op, [])
  }

  datatype ApplyError =
    | StoreNotEmpty
    | NotActiveSegment(id: SegmentId)
    | TruncateStartBeforeFirst(firstEntry: EntryId)
    | SegmentNotFound(id: SegmentId)
    | SegmentNotDead(id: SegmentId)

  // ── Transitions ─────────────────────────────────────────────────────────────

  predicate HasSegment(segs: seq<Segment>, id: SegmentId) {
    exists i :: 0 <= i < |segs| && segs[i].id == id
  }

  function Without(segs: seq<Segment>, id: SegmentId): seq<Segment> {
    if segs == [] then []
    else if segs[0].id == id then Without(segs[1..], id)
    else [segs[0]] + Without(segs[1..], id)
  }

  function Kill(s: State, id: SegmentId): State {
    s.(segments := Without(s.segments, id), seals := s.seals - {id}, dead := s.dead + {id})
  }

  function KillAll(s: State, ids: seq<SegmentId>): State
    decreases |ids|
  {
    if ids == [] then s else KillAll(Kill(s, ids[0]), ids[1..])
  }

  function FirstMissing(segs: seq<Segment>, ids: seq<SegmentId>): Option<SegmentId> {
    if ids == [] then None
    else if !HasSegment(segs, ids[0]) then Some(ids[0])
    else FirstMissing(segs, ids[1..])
  }

  lemma {:induction false} NoneMissingIff(segs: seq<Segment>, ids: seq<SegmentId>)
    ensures FirstMissing(segs, ids) == None <==> forall i :: 0 <= i < |ids| ==> HasSegment(segs, ids[i])
  {
    if ids != [] {
      NoneMissingIff(segs, ids[1..]);
      assert forall i :: 0 < i < |ids| ==> ids[i] == ids[1..][i - 1];
      assert forall i :: 0 <= i < |ids| - 1 ==> ids[1..][i] == ids[i + 1];
    }
  }

  function Transition(s: State, op: Op): Result<State, ApplyError> {
    match op
    case CreateSegment(id, first) =>
      if s.segments != [] then Failure(StoreNotEmpty)
      else Success(s.(firstEntry := first, segments := [Segment(id, first)], active := Some(id)))
    case RollSegment(sealed, first, last, count, size, newId, newFirst) =>
      if s.active != Some(sealed) then Failure(NotActiveSegment(sealed))
      else Success(s.(seals := s.seals[sealed := Seal(first, last, count, size)],
                      segments := s.segments + [Segment(newId, newFirst)],
                      active := Some(newId)))
    case TruncateStart(first, drop) =>
      if first < s.firstEntry then Failure(TruncateStartBeforeFirst(first))
      else Success(KillAll(s, drop).(firstEntry := first))
    case TruncateEnd(target, _, drop) =>
      var missing := FirstMissing(s.segments, drop);
      if missing.Some? then Failure(SegmentNotFound(missing.value))
      else if !HasSegment(s.segments, target) then Failure(SegmentNotFound(target))
      else
        var k := KillAll(s, drop);
        Success(k.(seals := k.seals - {target}, active := Some(target)))
    case SegmentDeleted(id) =>
      if id !in s.dead then Failure(SegmentNotDead(id)) else Success(s.(dead := s.dead - {id}))
    case RecordOrphan(id) => Success(s.(dead := s.dead + {id}))
    case Metadata => Success(s)
  }

  function SetPair(meta: seq<Pair>, p: Pair): seq<Pair> {
    if meta == [] then [p]
    else if meta[0].0 == p.0 then [p] + meta[1..]
    else [meta[0]] + SetPair(meta[1..], p)
  }

  function Merge(meta: seq<Pair>, pairs: seq<Pair>): seq<Pair>
    decreases |pairs|
  {
    if pairs == [] then meta else Merge(SetPair(meta, pairs[0]), pairs[1..])
  }

  function Applied(s: State, entry: ManifestOp): Result<State, ApplyError> {
    var t :- Transition(s, entry.op);
    Success(t.(meta := Merge(t.meta, entry.meta)))
  }

  function AppliedAll(s: State, entries: seq<ManifestOp>): Result<State, ApplyError>
    decreases |entries|
  {
    if entries == [] then Success(s)
    else
      var t :- Applied(s, entries[0]);
      AppliedAll(t, entries[1..])
  }

  // ── The mutable state object ────────────────────────────────────────────────

  class StoreState {
    var segments: seq<Segment>
    var seals: map<SegmentId, Seal>
    var active: Option<SegmentId>
    var dead: set<SegmentId>
    var firstEntry: EntryId
    var meta: seq<Pair>

    function View(): State
      reads this
    {
      State(segments, seals, active, dead, firstEntry, meta)
    }

    constructor ()
      ensures View() == EMPTY
    {
      segments, seals, active, dead, firstEntry, meta := [], map[], None, {}, 0, [];
    }

    constructor From(s: State)
      ensures View() == s
    {
      segments, seals, active, dead, firstEntry, meta :=
        s.segments, s.seals, s.active, s.dead, s.firstEntry, s.meta;
    }

    /** `apply`: on success the state is the one `Applied` names, on failure nothing has changed. */
    method Apply(entry: ManifestOp) returns (r: Result<(), ApplyError>)
      modifies this
      ensures match Applied(old(View()), entry)
        case Success(s) => r.Success? && View() == s
        case Failure(e) => r == Failure(e) && View() == old(View())
    {
      match entry.op {
        case CreateSegment(id, first) => r := Create(id, first);
        case RollSegment(sealed, first, last, count, size, newId, newFirst) =>
          r := Roll(sealed, Seal(first, last, count, size), Segment(newId, newFirst));
        case TruncateStart(first, drop) => r := TruncateStart(first, drop);
        case TruncateEnd(target, offset, drop) => r := TruncateEnd(target, offset, drop);
        case SegmentDeleted(id) => r := Deleted(id);
        case RecordOrphan(id) =>
          dead := dead + {id};
          r := Success(());
        case Metadata => r := Success(());
      }
      if r.Failure? {
        return;
      }
      ghost var before := meta;
      var i := 0;
      while i < |entry.meta|
        invariant 0 <= i <= |entry.meta|
        invariant View() == Transition(old(View()), entry.op).value.(meta := meta)
        invariant Merge(meta, entry.meta[i..]) == Merge(before, entry.meta)
      {
        meta := SetPair(meta, entry.meta[i]);
        i := i + 1;
      }
    }

    method Create(id: SegmentId, first: EntryId) returns (r: Result<(), ApplyError>)
      modifies this
      ensures Performs(r, old(View()), Op.CreateSegment(id, first), View())
    {
      if segments != [] {
        return Failure(StoreNotEmpty);
      }
      firstEntry := first;
      segments := segments + [Segment(id, first)];
      active := Some(id);
      r := Success(());
    }

    method Roll(sealed: SegmentId, seal: Seal, next: Segment) returns (r: Result<(), ApplyError>)
      modifies this
      ensures Performs(r, old(View()),
        RollSegment(sealed, seal.firstEntry, seal.lastEntry, seal.entryCount, seal.finalSize, next.id, next.firstEntry), View())
    {
      if active != Some(sealed) {
        return Failure(NotActiveSegment(sealed));
      }
      seals := seals[sealed := seal];
      segments := segments + [next];
      active := Some(next.id);
      r := Success(());
    }

    method TruncateStart(first: EntryId, drop: seq<SegmentId>) returns (r: Result<(), ApplyError>)
      modifies this
      ensures Performs(r, old(View()), Op.TruncateStart(first, drop), View())
    {
      if first < firstEntry {
        return Failure(TruncateStartBeforeFirst(first));
      }
      KillSegments(drop);
      firstEntry := first;
      r := Success(());
    }

    method TruncateEnd(target: SegmentId, byteOffset: u64, drop: seq<SegmentId>) returns (r: Result<(), ApplyError>)
      modifies this
      ensures Performs(r, old(View()), Op.TruncateEnd(target, byteOffset, drop), View())
      ensures r.Success? <==>
        HasSegment(old(segments), target) && forall i :: 0 <= i < |drop| ==> HasSegment(old(segments), drop[i])
      ensures r.Success? ==> active == Some(target) && target !in seals
      ensures r.Failure? ==> View() == old(View())
    {
      NoneMissingIff(segments, drop);
      var i := 0;
      while i < |drop|
        invariant 0 <= i <= |drop|
        invariant FirstMissing(segments, drop[i..]) == FirstMissing(segments, drop)
      {
        if !HasSegment(segments, drop[i]) {
          return Failure(SegmentNotFound(drop[i]));
        }
        i := i + 1;
      }
      if !HasSegment(segments, target) {
        return Failure(SegmentNotFound(target));
      }
      KillSegments(drop);
      seals := seals - {target};
      active := Some(target);
      r := Success(());
    }

    method KillSegments(drop: seq<SegmentId>)
      modifies this
      ensures View() == KillAll(old(View()), drop)
    {
      var i := 0;
      while i < |drop|
        invariant 0 <= i <= |drop|
        invariant KillAll(View(), drop[i..]) == KillAll(old(View()), drop)
      {
        segments := Without(segments, drop[i]);
        seals := seals - {drop[i]};
        dead := dead + {drop[i]};
        i := i + 1;
      }
    }

    method Deleted(id: SegmentId) returns (r: Result<(), ApplyError>)
      modifies this
      ensures Performs(r, old(View()), SegmentDeleted(id), View())
    {
      if id !in dead {
        return Failure(SegmentNotDead(id));
      }
      dead := dead - {id};
      r := Success(());
    }
  }

  ghost predicate Performs(r: Result<(), ApplyError>, before: State, op: Op, after: State) {
    match Transition(before, op)
    case Success(s) => r.Success? && after == s
    case Failure(e) => r == Failure(e) && after == before
  }

  // ── Metadata: last write wins ───────────────────────────────────────────────

  ghost predicate UniqueKeys(meta: seq<Pair>) {
    forall i, j :: 0 <= i < j < |meta| ==> meta[i].0 != meta[j].0
  }

  /** The value a reader of the metadata list finds for `key`. */
  function Lookup(meta: seq<Pair>, key: byte): Option<seq<byte>> {
    if meta == [] then None
    else if meta[0].0 == key then Some(meta[0].1)
    else Lookup(meta[1..], key)
  }

  /** The value in the last pair written for `key`. */
  function LastWritten(pairs: seq<Pair>, key: byte): Option<seq<byte>> {
    if pairs == [] then None
    else
      var later := LastWritten(pairs[1..], key);
      if later.Some? then later else if pairs[0].0 == key then Some(pairs[0].1) else None
  }

  function PairsOf(entries: seq<ManifestOp>): seq<Pair> {
    if entries == [] then [] else entries[0].meta + PairsOf(entries[1..])
  }

  lemma {:induction false} LookupPresent(meta: seq<Pair>, key: byte)
    ensures Lookup(meta, key).Some? <==> exists i :: 0 <= i < |meta| && meta[i].0 == key
  {
    if meta != [] {
      LookupPresent(meta[1..], key);
      if exists i :: 0 <= i < |meta[1..]| && meta[1..][i].0 == key {
        var i :| 0 <= i < |meta[1..]| && meta[1..][i].0 == key;
        assert meta[i + 1].0 == key;
      }
      if i :| 0 <= i < |meta| && meta[i].0 == key && meta[0].0 != key {
        assert meta[1..][i - 1].0 == key;
      }
    }
  }

  lemma {:induction false} SetPairMeaning(meta: seq<Pair>, p: Pair, key: byte)
    ensures Lookup(SetPair(meta, p), key) == if p.0 == key then Some(p.1) else Lookup(meta, key)
  {
    if meta != [] && meta[0].0 != p.0 {
      SetPairMeaning(meta[1..], p, key);
    }
  }

  lemma {:induction false} SetPairKeys(meta: seq<Pair>, p: Pair)
    ensures forall i :: 0 <= i < |SetPair(meta, p)| ==>
      SetPair(meta, p)[i].0 == p.0 || exists j :: 0 <= j < |meta| && meta[j].0 == SetPair(meta, p)[i].0
  {
    forall i | 0 <= i < |SetPair(meta, p)| && SetPair(meta, p)[i].0 != p.0
      ensures exists j :: 0 <= j < |meta| && meta[j].0 == SetPair(meta, p)[i].0
    {
      if meta[0].0 == p.0 || i == 0 {
        assert meta[i].0 == SetPair(meta, p)[i].0;
      } else {
        SetPairKeys(meta[1..], p);
        assert SetPair(meta[1..], p)[i - 1] == SetPair(meta, p)[i];
        var j :| 0 <= j < |meta[1..]| && meta[1..][j].0 == SetPair(meta, p)[i].0;
        assert meta[j + 1].0 == SetPair(meta, p)[i].0;
      }
    }
  }

  lemma {:induction false} SetPairUnique(meta: seq<Pair>, p: Pair)
    requires UniqueKeys(meta)
    ensures UniqueKeys(SetPair(meta, p))
  {
    if meta != [] && meta[0].0 != p.0 {
      SetPairUnique(meta[1..], p);
      SetPairKeys(meta[1..], p);
    }
  }

  lemma {:induction false} MergeMeaning(meta: seq<Pair>, pairs: seq<Pair>, key: byte)
    requires UniqueKeys(meta)
    ensures UniqueKeys(Merge(meta, pairs))
    ensures Lookup(Merge(meta, pairs), key) ==
      if LastWritten(pairs, key).Some? then LastWritten(pairs, key) else Lookup(meta, key)
    decreases |pairs|
  {
    if pairs != [] {
      SetPairUnique(meta, pairs[0]);
      SetPairMeaning(meta, pairs[0], key);
      MergeMeaning(SetPair(meta, pairs[0]), pairs[1..], key);
    }
  }

  lemma {:induction false} KillAllFrame(s: State, ids: seq<SegmentId>)
    ensures var k := KillAll(s, ids);
      k.meta == s.meta && k.active == s.active && k.firstEntry == s.firstEntry
      && k.dead == s.dead + (set i | i in ids) && k.seals == s.seals - (set i | i in ids)
    decreases |ids|
  {
    if ids != [] {
      KillAllFrame(Kill(s, ids[0]), ids[1..]);
      assert (set i | i in ids) == {ids[0]} + (set i | i in ids[1..]);
    }
  }

  lemma TransitionKeepsMeta(s: State, op: Op)
    requires Transition(s, op).Success?
    ensures Transition(s, op).value.meta == s.meta
  {
    if op.TruncateStart? || op.TruncateEnd? {
      KillAllFrame(s, op.drop);
    }
  }

  // ── Metadata: the order of the list ─────────────────────────────────────────

  /** Where `key` is written first; the number of pairs when it is not written. */
  function FirstWrite(pairs: seq<Pair>, key: byte): (n: nat)
    ensures n <= |pairs|
    ensures forall i :: 0 <= i < n ==> pairs[i].0 != key
    ensures n < |pairs| ==> pairs[n].0 == key
  {
    if pairs == [] || pairs[0].0 == key then 0 else 1 + FirstWrite(pairs[1..], key)
  }

  ghost predicate HasKey(meta: seq<Pair>, key: byte) {
    exists i :: 0 <= i < |meta| && meta[i].0 == key
  }

  /** The keys behind `from` are new ones, in the order of their first write. */
  ghost predicate NewKeys(pairs: seq<Pair>, after: seq<Pair>, from: nat) {
    && (forall i :: from <= i < |after| ==> FirstWrite(pairs, after[i].0) < |pairs|)
    && (forall i, j :: from <= i < j < |after| ==> FirstWrite(pairs, after[i].0) < FirstWrite(pairs, after[j].0))
  }

  /** Every key that was there keeps its place; behind them come the new keys, in the order of their first write. */
  ghost predicate InWriteOrder(before: seq<Pair>, pairs: seq<Pair>, after: seq<Pair>) {
    && |before| <= |after|
    && (forall i :: 0 <= i < |before| ==> after[i].0 == before[i].0)
    && NewKeys(pairs, after, |before|)
    && (forall k :: 0 <= k < |pairs| ==> HasKey(after, pairs[k].0))
  }

  /** One write: a known key is rewritten in its place, a new one goes to the end. */
  lemma {:induction false} SetPairPlace(meta: seq<Pair>, p: Pair)
    ensures !HasKey(meta, p.0) ==> SetPair(meta, p) == meta + [p]
    ensures HasKey(meta, p.0) ==>
      |SetPair(meta, p)| == |meta| && forall i :: 0 <= i < |meta| ==> SetPair(meta, p)[i].0 == meta[i].0
  {
    if meta != [] && meta[0].0 != p.0 {
      SetPairPlace(meta[1..], p);
      assert HasKey(meta, p.0) ==> HasKey(meta[1..], p.0) by {
        if i :| 0 <= i < |meta| && meta[i].0 == p.0 {
          assert meta[1..][i - 1].0 == p.0;
        }
      }
      assert HasKey(meta[1..], p.0) ==> HasKey(meta, p.0) by {
        if i :| 0 <= i < |meta[1..]| && meta[1..][i].0 == p.0 {
          assert meta[i + 1].0 == p.0;
        }
      }
    } else if meta != [] {
      assert meta[0].0 == p.0;
    }
  }

  lemma FirstWriteStep(pairs: seq<Pair>, key: byte)
    requires pairs != []
    ensures FirstWrite(pairs, key) == if pairs[0].0 == key then 0 else 1 + FirstWrite(pairs[1..], key)
  {
  }

  /** A write of a key at `place` in front of the new ones shifts their first writes by one; a new key itself comes
      before them all. */
  lemma NewKeysStep(pairs: seq<Pair>, after: seq<Pair>, place: nat, known: nat)
    requires pairs != [] && UniqueKeys(after) && place <= known && place < |after| && after[place].0 == pairs[0].0
    requires NewKeys(pairs[1..], after, if place < known then known else place + 1)
    ensures NewKeys(pairs, after, known)
  {
    forall i | known <= i < |after|
      ensures FirstWrite(pairs, after[i].0) == if i == place then 0 else 1 + FirstWrite(pairs[1..], after[i].0)
    {
      FirstWriteStep(pairs, after[i].0);
    }
    hide FirstWrite, UniqueKeys;
  }

  lemma StillPresent(pairs: seq<Pair>, after: seq<Pair>)
    requires pairs != [] && HasKey(after, pairs[0].0) && forall k :: 0 <= k < |pairs[1..]| ==> HasKey(after, pairs[1..][k].0)
    ensures forall k :: 0 <= k < |pairs| ==> HasKey(after, pairs[k].0)
  {
    hide HasKey;
    assert forall k :: 0 < k < |pairs| ==> pairs[k] == pairs[1..][k - 1];
  }

  lemma OneMoreWrite(meta: seq<Pair>, pairs: seq<Pair>, after: seq<Pair>)
    requires pairs != [] && UniqueKeys(after) && InWriteOrder(SetPair(meta, pairs[0]), pairs[1..], after)
    ensures InWriteOrder(meta, pairs, after)
  {
    var p := pairs[0];
    SetPairPlace(meta, p);
    var place := if HasKey(meta, p.0) then IndexOfKey(meta, p.0) else |meta|;
    hide SetPair, FirstWrite;
    assert after[place].0 == p.0;
    assert HasKey(after, p.0);
    hide HasKey, UniqueKeys;
    NewKeysStep(pairs, after, place, |meta|);
    StillPresent(pairs, after);
  }

  ghost function IndexOfKey(meta: seq<Pair>, key: byte): (i: nat)
    requires HasKey(meta, key)
    ensures i < |meta| && meta[i].0 == key
  {
    var i :| 0 <= i < |meta| && meta[i].0 == key;
    i
  }

  /** Together with unique keys and the last value of each (`MergeMeaning`), this determines the whole list. */
  lemma {:induction false} MergeOrder(meta: seq<Pair>, pairs: seq<Pair>)
    requires UniqueKeys(meta)
    ensures UniqueKeys(Merge(meta, pairs)) && InWriteOrder(meta, pairs, Merge(meta, pairs))
    decreases |pairs|
  {
    MergeMeaning(meta, pairs, 0);
    if pairs != [] {
      SetPairUnique(meta, pairs[0]);
      MergeOrder(SetPair(meta, pairs[0]), pairs[1..]);
      OneMoreWrite(meta, pairs, Merge(meta, pairs));
    }
  }

  lemma {:induction false} MergeConcat(meta: seq<Pair>, a: seq<Pair>, b: seq<Pair>)
    ensures Merge(meta, a + b) == Merge(Merge(meta, a), b)
    decreases |a|
  {
    if a == [] {
      assert a + b == b;
    } else {
      assert (a + b)[1..] == a[1..] + b;
      MergeConcat(SetPair(meta, a[0]), a[1..], b);
    }
  }

  lemma {:induction false} HistoryMerges(s: State, entries: seq<ManifestOp>)
    requires AppliedAll(s, entries).Success?
    ensures AppliedAll(s, entries).value.meta == Merge(s.meta, PairsOf(entries))
    decreases |entries|
  {
    if entries != [] {
      TransitionKeepsMeta(s, entries[0].op);
      HistoryMerges(Applied(s, entries[0]).value, entries[1..]);
      MergeConcat(s.meta, entries[0].meta, PairsOf(entries[1..]));
    }
  }

  /** After any replayed history the metadata list has unique keys, each bound to the last value written for it; the keys
      are the old ones in their places, followed by the new ones in the order of their first write. */
  lemma MetadataHistory(s: State, entries: seq<ManifestOp>, key: byte)
    requires UniqueKeys(s.meta) && AppliedAll(s, entries).Success?
    ensures var t := AppliedAll(s, entries).value; var written := LastWritten(PairsOf(entries), key);
      && UniqueKeys(t.meta)
      && Lookup(t.meta, key) == (if written.Some? then written else Lookup(s.meta, key))
      && InWriteOrder(s.meta, PairsOf(entries), t.meta)
  {
    HistoryMerges(s, entries);
    MergeMeaning(s.meta, PairsOf(entries), key);
    MergeOrder(s.meta, PairsOf(entries));
  }

  lemma KeyNotBefore(a: seq<Pair>, b: seq<Pair>, i: nat, m: nat)
    requires UniqueKeys(a) && i < |a| && i <= |b| && m < |b| && b[m].0 == a[i].0
    requires forall k :: 0 <= k < i ==> a[k].0 == b[k].0
    ensures m >= i
  {
  }

  lemma KeyNotLater(before: seq<Pair>, pairs: seq<Pair>, a: seq<Pair>, b: seq<Pair>, i: nat)
    requires UniqueKeys(a) && InWriteOrder(before, pairs, a) && InWriteOrder(before, pairs, b)
    requires |before| <= i < |a| && i < |b| && forall k :: 0 <= k < i ==> a[k].0 == b[k].0
    ensures FirstWrite(pairs, b[i].0) <= FirstWrite(pairs, a[i].0)
  {
    var n := FirstWrite(pairs, a[i].0);
    assert HasKey(b, pairs[n].0);
    var m :| 0 <= m < |b| && b[m].0 == a[i].0;
    KeyNotBefore(a, b, i, m);
    hide HasKey, UniqueKeys, FirstWrite;
    assert m == i || FirstWrite(pairs, b[i].0) < FirstWrite(pairs, b[m].0);
  }

  lemma SameKeyAt(before: seq<Pair>, pairs: seq<Pair>, a: seq<Pair>, b: seq<Pair>, i: nat)
    requires InWriteOrder(before, pairs, a) && InWriteOrder(before, pairs, b) && i < |a| && i < |b|
    requires i >= |before| ==> FirstWrite(pairs, a[i].0) == FirstWrite(pairs, b[i].0)
    ensures a[i].0 == b[i].0
  {
    if i < |before| {
      assert a[i].0 == before[i].0 == b[i].0;
    } else {
      assert FirstWrite(pairs, a[i].0) < |pairs|;
    }
  }

  lemma {:induction false} SameKeysUpTo(before: seq<Pair>, pairs: seq<Pair>, a: seq<Pair>, b: seq<Pair>, n: nat)
    requires UniqueKeys(a) && UniqueKeys(b) && InWriteOrder(before, pairs, a) && InWriteOrder(before, pairs, b)
    requires n <= |a| && n <= |b|
    ensures forall i :: 0 <= i < n ==> a[i].0 == b[i].0
  {
    hide *;
    if n > 0 {
      SameKeysUpTo(before, pairs, a, b, n - 1);
      if n > |before| {
        KeyNotLater(before, pairs, a, b, n - 1);
        KeyNotLater(before, pairs, b, a, n - 1);
      }
      SameKeyAt(before, pairs, a, b, n - 1);
    }
  }

  lemma KeyPresent(before: seq<Pair>, pairs: seq<Pair>, a: seq<Pair>, b: seq<Pair>, n: nat)
    requires InWriteOrder(before, pairs, a) && InWriteOrder(before, pairs, b) && n < |a|
    ensures HasKey(b, a[n].0)
  {
    if n < |before| {
      assert b[n].0 == before[n].0 == a[n].0;
    } else {
      var k := FirstWrite(pairs, a[n].0);
      assert HasKey(b, pairs[k].0);
    }
  }

  lemma NoLonger(before: seq<Pair>, pairs: seq<Pair>, a: seq<Pair>, b: seq<Pair>)
    requires UniqueKeys(a) && UniqueKeys(b) && InWriteOrder(before, pairs, a) && InWriteOrder(before, pairs, b)
    ensures |a| <= |b|
  {
    hide InWriteOrder;
    if |a| > |b| {
      SameKeysUpTo(before, pairs, a, b, |b|);
      KeyPresent(before, pairs, a, b, |b|);
    }
  }

  lemma {:induction false} LookupAt(meta: seq<Pair>, i: nat)
    requires UniqueKeys(meta) && i < |meta|
    ensures Lookup(meta, meta[i].0) == Some(meta[i].1)
  {
    if i > 0 {
      assert meta[0].0 != meta[i].0;
      LookupAt(meta[1..], i - 1);
    }
  }

  /** Keys, their order and their values make up the list: no other list has these properties. */
  lemma MetadataDetermined(before: seq<Pair>, pairs: seq<Pair>, a: seq<Pair>, b: seq<Pair>)
    requires UniqueKeys(a) && UniqueKeys(b) && InWriteOrder(before, pairs, a) && InWriteOrder(before, pairs, b)
    requires forall key :: Lookup(a, key) == Lookup(b, key)
    ensures a == b
  {
    hide *;
    NoLonger(before, pairs, a, b);
    NoLonger(before, pairs, b, a);
    SameKeysUpTo(before, pairs, a, b, |a|);
    forall i | 0 <= i < |a|
      ensures a[i] == b[i]
    {
      LookupAt(a, i);
      LookupAt(b, i);
    }
  }
}
