/** What every reachable state satisfies, and that each operation the store records keeps it. */
module StateLaws {
  import opened Basics
  import opened State

  function Ids(segs: seq<Segment>): seq<SegmentId> {
    seq(|segs|, i requires 0 <= i < |segs| => segs[i].id)
  }

  function IdSet(segs: seq<Segment>): set<SegmentId> {
    set i | 0 <= i < |segs| :: segs[i].id
  }

  function Elements(ids: seq<SegmentId>): set<SegmentId> {
    set i | i in ids
  }

  ghost predicate DistinctIds(segs: seq<Segment>) {
    forall i, j :: 0 <= i < j < |segs| ==> segs[i].id != segs[j].id
  }

  ghost predicate AscendingFirsts(segs: seq<Segment>) {
    forall i, j :: 0 <= i < j < |segs| ==> segs[i].firstEntry < segs[j].firstEntry
  }

  /** Live ids are distinct and disjoint from dead ones, the active segment is last, exactly the others are
      sealed, recorded first entries ascend, and metadata keys are unique. */
  ghost predicate StateOk(s: State) {
    && s.segments != []
    && DistinctIds(s.segments)
    && AscendingFirsts(s.segments)
    && IdSet(s.segments) !! s.dead
    && s.active == Some(s.segments[|s.segments| - 1].id)
    && s.seals.Keys == IdSet(s.segments[..|s.segments| - 1])
    && UniqueKeys(s.meta)
  }

  lemma {:induction false} WithoutAbsent(segs: seq<Segment>, id: SegmentId)
    requires forall i :: 0 <= i < |segs| ==> segs[i].id != id
    ensures Without(segs, id) == segs
  {
    if segs != [] {
      WithoutAbsent(segs[1..], id);
      assert segs == [segs[0]] + segs[1..];
    }
  }

  lemma {:induction false} WithoutAt(segs: seq<Segment>, i: nat)
    requires DistinctIds(segs) && i < |segs|
    ensures Without(segs, segs[i].id) == segs[..i] + segs[i + 1..]
  {
    if i == 0 {
      WithoutAbsent(segs[1..], segs[0].id);
      assert segs[..0] + segs[1..] == segs[1..];
    } else {
      WithoutAt(segs[1..], i - 1);
      assert segs[1..][i - 1] == segs[i];
      assert segs[..i] + segs[i + 1..] == [segs[0]] + (segs[1..][..i - 1] + segs[1..][i..]);
    }
  }

  function WithoutAll(segs: seq<Segment>, ids: seq<SegmentId>): seq<Segment>
    decreases |ids|
  {
    if ids == [] then segs else WithoutAll(Without(segs, ids[0]), ids[1..])
  }

  lemma {:induction false} KillAllSegments(s: State, ids: seq<SegmentId>)
    ensures KillAll(s, ids).segments == WithoutAll(s.segments, ids)
    decreases |ids|
  {
    if ids != [] {
      KillAllSegments(Kill(s, ids[0]), ids[1..]);
    }
  }

  lemma RemoveOneOfRun<T>(s: seq<T>, lo: nat, hi: nat)
    requires lo < hi <= |s|
    ensures var rest := s[..lo] + s[lo + 1..];
      && rest[lo..hi - 1] == s[lo + 1..hi]
      && rest[..lo] + rest[hi - 1..] == s[..lo] + s[hi..]
  {
  }

  lemma IdsTail(segs: seq<Segment>, lo: nat, hi: nat)
    requires lo < hi <= |segs|
    ensures Ids(segs[lo..hi]) == [segs[lo].id] + Ids(segs[lo + 1..hi])
  {
  }

  lemma RestDistinct(segs: seq<Segment>, i: nat)
    requires DistinctIds(segs) && i < |segs|
    ensures DistinctIds(segs[..i] + segs[i + 1..])
  {
    var rest := segs[..i] + segs[i + 1..];
    assert forall k :: 0 <= k < |rest| ==> rest[k] == segs[if k < i then k else k + 1];
  }

  lemma WithoutAllStep(segs: seq<Segment>, ids: seq<SegmentId>)
    ensures WithoutAll(segs, []) == segs
    ensures ids != [] ==> WithoutAll(segs, ids) == WithoutAll(Without(segs, ids[0]), ids[1..])
  {
  }

  lemma {:induction false} WithoutRun(segs: seq<Segment>, lo: nat, hi: nat)
    requires DistinctIds(segs) && lo <= hi <= |segs|
    ensures WithoutAll(segs, Ids(segs[lo..hi])) == segs[..lo] + segs[hi..]
    decreases hi - lo
  {
    hide *;
    WithoutAllStep(segs, Ids(segs[lo..hi]));
    if lo == hi {
      IdsOfNone(segs[lo..hi]);
      assert segs[..lo] + segs[lo..] == segs;
    } else {
      var rest := segs[..lo] + segs[lo + 1..];
      WithoutAt(segs, lo);
      RemoveOneOfRun(segs, lo, hi);
      IdsTail(segs, lo, hi);
      RestDistinct(segs, lo);
      WithoutRun(rest, lo, hi - 1);
      assert ([segs[lo].id] + Ids(segs[lo + 1..hi]))[1..] == Ids(segs[lo + 1..hi]);
    }
  }

  lemma IdsOfNone(segs: seq<Segment>)
    requires segs == []
    ensures Ids(segs) == []
  {
  }

  lemma IdsAsSet(segs: seq<Segment>)
    ensures (set i | i in Ids(segs)) == IdSet(segs)
  {
    var ids := Ids(segs);
    assert forall i :: 0 <= i < |segs| ==> ids[i] == segs[i].id;
  }

  /** Killing a run of segments, in list order, removes exactly that run. */
  lemma KillRun(s: State, lo: nat, hi: nat)
    requires DistinctIds(s.segments) && lo <= hi <= |s.segments|
    ensures var run := IdSet(s.segments[lo..hi]);
      KillAll(s, Ids(s.segments[lo..hi])) ==
      s.(segments := s.segments[..lo] + s.segments[hi..], seals := s.seals - run, dead := s.dead + run)
  {
    hide *;
    var ids := Ids(s.segments[lo..hi]);
    KillAllFrame(s, ids);
    KillAllSegments(s, ids);
    WithoutRun(s.segments, lo, hi);
    IdsAsSet(s.segments[lo..hi]);
  }

  lemma IdSetSplit(segs: seq<Segment>, n: nat)
    requires n <= |segs|
    ensures IdSet(segs) == IdSet(segs[..n]) + IdSet(segs[n..])
  {
    assert forall i :: 0 <= i < n ==> segs[i] == segs[..n][i];
    assert forall i :: n <= i < |segs| ==> segs[i] == segs[n..][i - n];
  }

  lemma IdSetDisjoint(segs: seq<Segment>, n: nat)
    requires DistinctIds(segs) && n <= |segs|
    ensures IdSet(segs[..n]) !! IdSet(segs[n..])
  {
  }

  lemma MetaStaysUnique(meta: seq<Pair>, pairs: seq<Pair>)
    requires UniqueKeys(meta)
    ensures UniqueKeys(Merge(meta, pairs))
  {
    MergeMeaning(meta, pairs, 0);
  }

  lemma RolledIds(segs: seq<Segment>, next: Segment)
    requires segs != []
    ensures IdSet(segs + [next]) == IdSet(segs) + {next.id}
    ensures IdSet(segs) == IdSet(segs[..|segs| - 1]) + {segs[|segs| - 1].id}
    ensures (segs + [next])[..|segs|] == segs
  {
    var n, t := |segs|, segs + [next];
    IdSetSplit(t, n);
    assert t[..n] == segs && t[n..] == [next];
    assert IdSet([next]) == {next.id} by {
      assert [next][0] == next;
    }
    IdSetSplit(segs, n - 1);
    assert IdSet(segs[n - 1..]) == {segs[n - 1].id} by {
      assert segs[n - 1..][0] == segs[n - 1];
    }
  }

  lemma RolledOrder(segs: seq<Segment>, next: Segment)
    requires DistinctIds(segs) && AscendingFirsts(segs) && segs != [] && next.id !in IdSet(segs)
    requires segs[|segs| - 1].firstEntry < next.firstEntry
    ensures DistinctIds(segs + [next]) && AscendingFirsts(segs + [next])
  {
  }

  /** Sealing the active segment and opening a fresh one is always accepted and keeps the state in order. */
  lemma RollKeeps(s: State, seal: Seal, next: Segment)
    requires StateOk(s) && next.id !in IdSet(s.segments) && next.id !in s.dead
    requires s.segments[|s.segments| - 1].firstEntry < next.firstEntry
    ensures var op := RollSegment(s.active.value, seal.firstEntry, seal.lastEntry, seal.entryCount, seal.finalSize,
                                  next.id, next.firstEntry);
      && Applied(s, Bare(op)) == Success(s.(seals := s.seals[s.active.value := seal],
                                            segments := s.segments + [next], active := Some(next.id)))
      && StateOk(Applied(s, Bare(op)).value)
  {
    RolledIds(s.segments, next);
    RolledOrder(s.segments, next);
    hide IdSet, DistinctIds, AscendingFirsts, UniqueKeys;
  }

  lemma IdsAfter(segs: seq<Segment>, k: nat)
    requires DistinctIds(segs) && k < |segs|
    ensures IdSet(segs) == IdSet(segs[..k]) + IdSet(segs[k..]) && IdSet(segs[..k]) !! IdSet(segs[k..])
    ensures IdSet(segs[..|segs| - 1]) - IdSet(segs[..k]) == IdSet(segs[k..][..|segs| - k - 1])
  {
    var n := |segs|;
    IdSetSplit(segs, k);
    IdSetDisjoint(segs, k);
    IdSetSplit(segs[..n - 1], k);
    IdSetDisjoint(segs[..n - 1], k);
    assert segs[..n - 1][..k] == segs[..k] && segs[..n - 1][k..] == segs[k..][..n - 1 - k];
  }

  /** The state once the head is at `first` and the first `k` segments are dead. */
  function HeadMoved(s: State, first: EntryId, k: nat, meta: seq<Pair>): State
    requires k <= |s.segments|
  {
    var run := IdSet(s.segments[..k]);
    s.(segments := s.segments[k..], seals := s.seals - run, dead := s.dead + run,
       firstEntry := first, meta := Merge(s.meta, meta))
  }

  lemma HeadMovedApplied(s: State, first: EntryId, k: nat, meta: seq<Pair>)
    requires StateOk(s) && s.firstEntry <= first && k <= |s.segments|
    ensures Applied(s, ManifestOp(TruncateStart(first, Ids(s.segments[..k])), meta)) == Success(HeadMoved(s, first, k, meta))
  {
    KillRun(s, 0, k);
    assert s.segments[0..k] == s.segments[..k] && s.segments[..0] + s.segments[k..] == s.segments[k..];
    hide KillAll, IdSet, Ids, Merge, StateOk;
  }

  /** Advancing the head past the first `k` segments, `k` below the segment count, is always accepted and keeps
      the state in order. */
  lemma TruncateStartKeeps(s: State, first: EntryId, k: nat, meta: seq<Pair>)
    requires StateOk(s) && s.firstEntry <= first && k < |s.segments|
    ensures Applied(s, ManifestOp(TruncateStart(first, Ids(s.segments[..k])), meta)) == Success(HeadMoved(s, first, k, meta))
    ensures StateOk(HeadMoved(s, first, k, meta))
  {
    hide *;
    HeadMovedApplied(s, first, k, meta);
    HeadMovedOk(s, first, k, meta);
  }

  lemma HeadMovedOk(s: State, first: EntryId, k: nat, meta: seq<Pair>)
    requires StateOk(s) && k < |s.segments|
    ensures StateOk(HeadMoved(s, first, k, meta))
  {
    MetaStaysUnique(s.meta, meta);
    HeadMovedIds(s, k);
    SuffixInOrder(s.segments, k);
    hide IdSet, Merge, DistinctIds, AscendingFirsts, UniqueKeys;
  }

  lemma HeadMovedIds(s: State, k: nat)
    requires StateOk(s) && k < |s.segments|
    ensures IdSet(s.segments[k..]) !! s.dead + IdSet(s.segments[..k])
    ensures (s.seals - IdSet(s.segments[..k])).Keys == IdSet(s.segments[k..][..|s.segments[k..]| - 1])
  {
    IdsAfter(s.segments, k);
    hide IdSet, DistinctIds, AscendingFirsts, UniqueKeys;
  }

  lemma SuffixInOrder(segs: seq<Segment>, k: nat)
    requires DistinctIds(segs) && AscendingFirsts(segs) && k < |segs|
    ensures DistinctIds(segs[k..]) && AscendingFirsts(segs[k..])
    ensures segs[k..][|segs| - k - 1] == segs[|segs| - 1]
  {
  }

  /** The state once segment `k` is active again and all later ones are dead. */
  function RolledBack(s: State, k: nat): State
    requires k < |s.segments|
  {
    var run := IdSet(s.segments[k + 1..]);
    s.(segments := s.segments[..k + 1], seals := s.seals - run - {s.segments[k].id}, dead := s.dead + run,
       active := Some(s.segments[k].id))
  }

  lemma RolledBackApplied(s: State, k: nat, offset: u64)
    requires StateOk(s) && k < |s.segments|
    ensures Applied(s, Bare(TruncateEnd(s.segments[k].id, offset, Ids(s.segments[k + 1..])))) == Success(RolledBack(s, k))
  {
    var n := |s.segments|;
    var drop := Ids(s.segments[k + 1..]);
    assert s.segments[k + 1..n] == s.segments[k + 1..];
    forall i | 0 <= i < |drop|
      ensures HasSegment(s.segments, drop[i])
    {
      assert s.segments[k + 1 + i].id == drop[i];
    }
    NoneMissingIff(s.segments, drop);
    assert HasSegment(s.segments, s.segments[k].id);
    KillRun(s, k + 1, n);
    assert s.segments[..k + 1] + s.segments[n..] == s.segments[..k + 1];
    hide KillAll, IdSet, Ids, HasSegment, FirstMissing, StateOk;
  }

  /** Rolling back to segment `k`, dropping all later ones, is always accepted and keeps the state in order. */
  lemma TruncateEndKeeps(s: State, k: nat, offset: u64)
    requires StateOk(s) && k < |s.segments|
    ensures Applied(s, Bare(TruncateEnd(s.segments[k].id, offset, Ids(s.segments[k + 1..])))) == Success(RolledBack(s, k))
    ensures StateOk(RolledBack(s, k))
  {
    RolledBackApplied(s, k, offset);
    IdSetSplit(s.segments, k + 1);
    IdSetDisjoint(s.segments, k + 1);
    assert s.segments[..k + 1][..k] == s.segments[..k];
    SealsBehind(s, k);
    hide KillAll, IdSet, Ids, Applied;
  }

  lemma IdSetLast(segs: seq<Segment>, k: nat)
    requires k < |segs|
    ensures IdSet(segs[..k + 1]) == IdSet(segs[..k]) + {segs[k].id}
  {
    IdSetSplit(segs[..k + 1], k);
    assert segs[..k + 1][..k] == segs[..k] && segs[..k + 1][k..] == [segs[k]];
    assert [segs[k]][0] == segs[k];
  }

  lemma LiveParts(segs: seq<Segment>, k: nat)
    requires DistinctIds(segs) && k < |segs|
    ensures var front, back, n := IdSet(segs[..k]), IdSet(segs[k + 1..]), |segs| - 1;
      && IdSet(segs) == front + {segs[k].id} + back
      && IdSet(segs) == IdSet(segs[..n]) + {segs[n].id}
      && segs[n].id !in IdSet(segs[..n])
      && front !! back && segs[k].id !in front && segs[k].id !in back
      && (if k == n then back == {} else segs[n].id in back)
  {
    hide DistinctIds;
    IdSetSplit(segs, k + 1);
    IdSetDisjoint(segs, k + 1);
    IdSetLast(segs, k);
    IdSetLast(segs, |segs| - 1);
    IdSetSplit(segs, |segs| - 1);
    IdSetDisjoint(segs, k);
    IdSetDisjoint(segs, |segs| - 1);
    assert segs[..|segs|] == segs;
    assert segs[k..][0] == segs[k];
    assert k < |segs| - 1 ==> segs[k + 1..][|segs| - k - 2] == segs[|segs| - 1];
  }

  lemma SealsBehind(s: State, k: nat)
    requires StateOk(s) && k < |s.segments|
    ensures s.seals.Keys - IdSet(s.segments[k + 1..]) - {s.segments[k].id} == IdSet(s.segments[..k])
  {
    hide IdSet, DistinctIds, AscendingFirsts, UniqueKeys;
    LiveParts(s.segments, k);
  }

  /** The remaining operations never fail where the store issues them, and keep the state in order. */
  lemma DeletedKeeps(s: State, id: SegmentId)
    requires StateOk(s) && id in s.dead
    ensures Applied(s, Bare(SegmentDeleted(id))) == Success(s.(dead := s.dead - {id}))
    ensures StateOk(s.(dead := s.dead - {id}))
  {
  }

  lemma MetadataKeeps(s: State, pairs: seq<Pair>)
    requires StateOk(s)
    ensures Applied(s, ManifestOp(Metadata, pairs)) == Success(s.(meta := Merge(s.meta, pairs)))
    ensures StateOk(s.(meta := Merge(s.meta, pairs)))
  {
    MetaStaysUnique(s.meta, pairs);
  }
}
