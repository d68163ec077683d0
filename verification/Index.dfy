/** The sparse two-level entry index and the binary search it is built on. */
module Index {
  import opened Basics
  import opened State

  datatype Checkpoint = Checkpoint(id: EntryId, offset: nat)

  /** One segment's checkpoints, in the order the segment was scanned. */
  datatype Indexed = Indexed(segment: SegmentId, checkpoints: seq<Checkpoint>)

  datatype IndexPosition = IndexPosition(segment: SegmentId, checkpoint: EntryId, offset: nat)

  // ── partition_point, as the standard library computes it ────────────────────

  function Bisect<T>(s: seq<T>, pred: T -> bool, base: nat, size: nat): (n: nat)
    requires 1 <= size && base + size <= |s|
    ensures n <= |s|
    decreases size
  {
    if size == 1 then (if pred(s[base]) then base + 1 else base)
    else
      var half := size / 2;
      Bisect(s, pred, if pred(s[base + half]) then base + half else base, size - half)
  }

  function PartitionPoint<T>(s: seq<T>, pred: T -> bool): (n: nat)
    ensures n <= |s|
  {
    if |s| == 0 then 0 else Bisect(s, pred, 0, |s|)
  }

  method BinarySearch<T>(s: seq<T>, pred: T -> bool) returns (n: nat)
    ensures n == PartitionPoint(s, pred)
  {
    var size, base := |s|, 0;
    if size == 0 {
      return 0;
    }
    while size > 1
      invariant 1 <= size && 0 <= base && base + size <= |s|
      invariant Bisect(s, pred, base, size) == PartitionPoint(s, pred)
    {
      var half := size / 2;
      if pred(s[base + half]) {
        base := base + half;
      }
      size := size - half;
    }
    n := if pred(s[base]) then base + 1 else base;
  }

  /** The search splits any sequence whose predicate is true-then-false from index 1 on.  Index 0 may disagree:
      it is looked at only when everything behind it is false. */
  lemma {:induction false} BisectSplits<T>(s: seq<T>, pred: T -> bool, base: nat, size: nat)
    requires 1 <= size && base + size <= |s|
    requires forall i, j :: 1 <= i < j < |s| && pred(s[j]) ==> pred(s[i])
    requires base > 0 ==> pred(s[base])
    requires forall i :: base + size <= i < |s| ==> !pred(s[i])
    ensures var n := Bisect(s, pred, base, size);
      && (forall i :: 1 <= i < n ==> pred(s[i]))
      && (forall i :: 1 <= i && n <= i < |s| ==> !pred(s[i]))
      && (n <= 1 ==> (n == 1 <==> pred(s[0])))
    decreases size
  {
    if size > 1 {
      var half := size / 2;
      BisectSplits(s, pred, if pred(s[base + half]) then base + half else base, size - half);
    }
  }

  lemma PartitionPointSplits<T>(s: seq<T>, pred: T -> bool)
    requires forall i, j :: 1 <= i < j < |s| && pred(s[j]) ==> pred(s[i])
    ensures var n := PartitionPoint(s, pred);
      && (forall i :: 1 <= i < n ==> pred(s[i]))
      && (forall i :: 1 <= i && n <= i < |s| ==> !pred(s[i]))
      && (n <= 1 && s != [] ==> (n == 1 <==> pred(s[0])))
  {
    if s != [] {
      BisectSplits(s, pred, 0, |s|);
    }
  }

  // ── One segment ─────────────────────────────────────────────────────────────

  function AtMost(target: EntryId): Checkpoint -> bool {
    (c: Checkpoint) => c.id <= target
  }

  function Below(target: EntryId): Checkpoint -> bool {
    (c: Checkpoint) => c.id < target
  }

  function SegmentFind(cps: seq<Checkpoint>, target: EntryId): Option<Checkpoint> {
    var n := PartitionPoint(cps, AtMost(target));
    if n == 0 then None else Some(cps[n - 1])
  }

  function WithoutBelow(cps: seq<Checkpoint>, first: EntryId): seq<Checkpoint> {
    cps[PartitionPoint(cps, Below(first))..]
  }

  function UpTo(cps: seq<Checkpoint>, last: EntryId): seq<Checkpoint> {
    cps[..PartitionPoint(cps, AtMost(last))]
  }

  ghost predicate Ascending(cps: seq<Checkpoint>) {
    forall i, j :: 0 <= i < j < |cps| ==> cps[i].id < cps[j].id
  }

  lemma AtMostSplits(cps: seq<Checkpoint>, target: EntryId)
    requires Ascending(cps)
    ensures forall i :: 0 <= i < |cps| ==> (cps[i].id <= target <==> i < PartitionPoint(cps, AtMost(target)))
    ensures forall i :: 0 <= i < |cps| ==> (cps[i].id < target <==> i < PartitionPoint(cps, Below(target)))
  {
    PrefixSplits(cps, AtMost(target));
    PrefixSplits(cps, Below(target));
  }

  lemma PrefixSplits<T>(s: seq<T>, pred: T -> bool)
    requires forall i, j :: 0 <= i < j < |s| && pred(s[j]) ==> pred(s[i])
    ensures forall i :: 0 <= i < |s| ==> (pred(s[i]) <==> i < PartitionPoint(s, pred))
  {
    PartitionPointSplits(s, pred);
    var n := PartitionPoint(s, pred);
    if n >= 2 {
      assert pred(s[1]) && pred(s[0]);
    }
  }

  // ── All segments ────────────────────────────────────────────────────────────

  function StartsAtMost(target: EntryId): Indexed -> bool {
    (e: Indexed) => e.checkpoints != [] && e.checkpoints[0].id <= target
  }

  function Floor(idx: seq<Indexed>, target: EntryId): Option<IndexPosition> {
    var n := PartitionPoint(idx, StartsAtMost(target));
    if n == 0 then None
    else
      match SegmentFind(idx[n - 1].checkpoints, target)
      case None => None
      case Some(c) => Some(IndexPosition(idx[n - 1].segment, c.id, c.offset))
  }

  function TruncatedStart(idx: seq<Indexed>, first: EntryId): seq<Indexed> {
    var n := PartitionPoint(idx, StartsAtMost(first));
    if n == 0 then idx
    else [idx[n - 1].(checkpoints := WithoutBelow(idx[n - 1].checkpoints, first))] + idx[n..]
  }

  function TruncatedEnd(idx: seq<Indexed>, last: EntryId): seq<Indexed> {
    var n := PartitionPoint(idx, StartsAtMost(last));
    if n == 0 then []
    else idx[..n - 1] + [idx[n - 1].(checkpoints := UpTo(idx[n - 1].checkpoints, last))]
  }

  ghost predicate Before(x: Indexed, y: Indexed) {
    forall a, b :: 0 <= a < |x.checkpoints| && 0 <= b < |y.checkpoints| ==> x.checkpoints[a].id < y.checkpoints[b].id
  }

  /** Checkpoints ascend within and across segments, and only the first and the last segment can be empty. */
  ghost predicate IndexOk(idx: seq<Indexed>) {
    && (forall i :: 0 <= i < |idx| ==> Ascending(idx[i].checkpoints))
    && (forall i, j :: 0 <= i < j < |idx| ==> Before(idx[i], idx[j]))
    && (forall i :: 0 < i < |idx| - 1 ==> idx[i].checkpoints != [])
  }

  ghost predicate HasAt(idx: seq<Indexed>, p: IndexPosition, i: nat, a: nat) {
    && i < |idx| && a < |idx[i].checkpoints|
    && p == IndexPosition(idx[i].segment, idx[i].checkpoints[a].id, idx[i].checkpoints[a].offset)
  }

  ghost predicate Has(idx: seq<Indexed>, p: IndexPosition) {
    exists i: nat, a: nat :: HasAt(idx, p, i, a)
  }

  lemma LevelOneSplits(idx: seq<Indexed>, target: EntryId)
    requires IndexOk(idx)
    ensures var n := PartitionPoint(idx, StartsAtMost(target));
      && (n > 0 ==> idx[n - 1].checkpoints != [] && idx[n - 1].checkpoints[0].id <= target)
      && (forall i :: n <= i < |idx| ==> AllAbove(idx[i].checkpoints, target))
      && (forall i :: 0 <= i < n - 1 ==> AllBelow(idx[i].checkpoints, target))
  {
    var pred := StartsAtMost(target);
    forall i, j | 1 <= i < j < |idx| && pred(idx[j])
      ensures pred(idx[i])
    {
      assert Before(idx[i], idx[j]);
    }
    PartitionPointSplits(idx, pred);
    var n := PartitionPoint(idx, pred);
    forall i | n <= i < |idx|
      ensures AllAbove(idx[i].checkpoints, target)
    {
      assert !pred(idx[i]);
      assert Ascending(idx[i].checkpoints);
    }
    forall i | 0 <= i < n - 1
      ensures AllBelow(idx[i].checkpoints, target)
    {
      assert Before(idx[i], idx[n - 1]);
    }
  }

  ghost predicate AllBelow(cps: seq<Checkpoint>, target: EntryId) {
    forall a :: 0 <= a < |cps| ==> cps[a].id < target
  }

  ghost predicate AllAbove(cps: seq<Checkpoint>, target: EntryId) {
    forall a :: 0 <= a < |cps| ==> cps[a].id > target
  }

  /** The two-level search is the simple specification: the greatest checkpoint at most `target` over all
      segments, or none, even when the first segment has lost all its checkpoints. */
  lemma FloorIsGreatest(idx: seq<Indexed>, target: EntryId)
    requires IndexOk(idx)
    ensures match Floor(idx, target)
      case None => forall p :: Has(idx, p) ==> p.checkpoint > target
      case Some(r) =>
        && Has(idx, r) && r.checkpoint <= target
        && forall p :: Has(idx, p) && p.checkpoint <= target ==> p.checkpoint <= r.checkpoint
  {
    LevelOneSplits(idx, target);
    hide PartitionPoint, AtMost, StartsAtMost;
    var n := PartitionPoint(idx, StartsAtMost(target));
    if n > 0 {
      var cps := idx[n - 1].checkpoints;
      AtMostSplits(cps, target);
      var m := PartitionPoint(cps, AtMost(target));
      var r := Floor(idx, target).value;
      assert HasAt(idx, r, n - 1, m - 1);
      forall p | Has(idx, p) && p.checkpoint <= target
        ensures p.checkpoint <= r.checkpoint
      {
        var i: nat, a: nat :| HasAt(idx, p, i, a);
        if i == n - 1 {
          assert a < m;
        } else {
          assert Before(idx[i], idx[n - 1]);
        }
      }
    }
  }

  function TrimStart(idx: seq<Indexed>, n: nat, m: nat): seq<Indexed>
    requires 0 < n <= |idx| && m <= |idx[n - 1].checkpoints|
  {
    [idx[n - 1].(checkpoints := idx[n - 1].checkpoints[m..])] + idx[n..]
  }

  lemma TrimStartOk(idx: seq<Indexed>, n: nat, m: nat)
    requires IndexOk(idx) && 0 < n <= |idx| && m <= |idx[n - 1].checkpoints|
    ensures IndexOk(TrimStart(idx, n, m))
  {
    var t := TrimStart(idx, n, m);
    assert forall i :: 0 < i < |t| ==> t[i] == idx[i + n - 1];
    forall j | 0 < j < |t|
      ensures Before(t[0], t[j])
    {
      assert Before(idx[n - 1], idx[j + n - 1]);
    }
  }

  lemma TrimStartMembers(idx: seq<Indexed>, n: nat, m: nat, first: EntryId, p: IndexPosition)
    requires 0 < n <= |idx| && m <= |idx[n - 1].checkpoints|
    requires var cps := idx[n - 1].checkpoints; forall a :: 0 <= a < |cps| ==> (cps[a].id < first <==> a < m)
    requires forall i :: n <= i < |idx| ==> AllAbove(idx[i].checkpoints, first)
    requires forall i :: 0 <= i < n - 1 ==> AllBelow(idx[i].checkpoints, first)
    ensures Has(TrimStart(idx, n, m), p) <==> Has(idx, p) && p.checkpoint >= first
  {
    var t := TrimStart(idx, n, m);
    if Has(t, p) {
      var i: nat, a: nat :| HasAt(t, p, i, a);
      assert i > 0 ==> t[i] == idx[i + n - 1];
      assert HasAt(idx, p, i + n - 1, if i == 0 then a + m else a);
    }
    if Has(idx, p) && p.checkpoint >= first {
      var i: nat, a: nat :| HasAt(idx, p, i, a);
      assert i >= n - 1;
      assert i > n - 1 ==> t[i - (n - 1)] == idx[i];
      assert HasAt(t, p, i - (n - 1), if i == n - 1 then a - m else a);
    }
  }

  /** Truncating the start removes exactly the checkpoints below `first` and keeps the index in order. */
  lemma TruncatedStartKeeps(idx: seq<Indexed>, first: EntryId)
    requires IndexOk(idx)
    ensures IndexOk(TruncatedStart(idx, first))
    ensures forall p :: Has(TruncatedStart(idx, first), p) <==> Has(idx, p) && p.checkpoint >= first
  {
    LevelOneSplits(idx, first);
    var n := PartitionPoint(idx, StartsAtMost(first));
    if n > 0 {
      var cps := idx[n - 1].checkpoints;
      var m := PartitionPoint(cps, Below(first));
      assert Ascending(cps);
      AtMostSplits(cps, first);
      assert TruncatedStart(idx, first) == TrimStart(idx, n, m);
      hide *;
      TrimStartOk(idx, n, m);
      forall p
        ensures Has(TruncatedStart(idx, first), p) <==> Has(idx, p) && p.checkpoint >= first
      {
        TrimStartMembers(idx, n, m, first, p);
      }
    }
  }

  function TrimEnd(idx: seq<Indexed>, n: nat, m: nat): seq<Indexed>
    requires 0 < n <= |idx| && m <= |idx[n - 1].checkpoints|
  {
    idx[..n - 1] + [idx[n - 1].(checkpoints := idx[n - 1].checkpoints[..m])]
  }

  lemma TrimEndOk(idx: seq<Indexed>, n: nat, m: nat)
    requires IndexOk(idx) && 0 < n <= |idx| && m <= |idx[n - 1].checkpoints|
    ensures IndexOk(TrimEnd(idx, n, m))
  {
    var t := TrimEnd(idx, n, m);
    assert forall i :: 0 <= i < n - 1 ==> t[i] == idx[i];
    forall i | 0 <= i < n - 1
      ensures Before(t[i], t[n - 1])
    {
      assert Before(idx[i], idx[n - 1]);
    }
  }

  lemma TrimEndMembers(idx: seq<Indexed>, n: nat, m: nat, last: EntryId, p: IndexPosition)
    requires 0 < n <= |idx| && m <= |idx[n - 1].checkpoints|
    requires var cps := idx[n - 1].checkpoints; forall a :: 0 <= a < |cps| ==> (cps[a].id <= last <==> a < m)
    requires forall i :: n <= i < |idx| ==> AllAbove(idx[i].checkpoints, last)
    requires forall i :: 0 <= i < n - 1 ==> AllBelow(idx[i].checkpoints, last)
    ensures Has(TrimEnd(idx, n, m), p) <==> Has(idx, p) && p.checkpoint <= last
  {
    var t := TrimEnd(idx, n, m);
    assert forall i :: 0 <= i < n - 1 ==> t[i] == idx[i];
    if Has(t, p) {
      var i: nat, a: nat :| HasAt(t, p, i, a);
      assert HasAt(idx, p, i, a);
    }
    if Has(idx, p) && p.checkpoint <= last {
      var i: nat, a: nat :| HasAt(idx, p, i, a);
      assert i <= n - 1;
      assert HasAt(t, p, i, a);
    }
  }

  lemma NothingAtMost(idx: seq<Indexed>, last: EntryId, p: IndexPosition)
    requires forall i :: 0 <= i < |idx| ==> AllAbove(idx[i].checkpoints, last)
    ensures Has(idx, p) ==> p.checkpoint > last
    ensures !Has([], p)
  {
  }

  /** Truncating the end removes exactly the checkpoints above `last` and keeps the index in order. */
  lemma TruncatedEndKeeps(idx: seq<Indexed>, last: EntryId)
    requires IndexOk(idx)
    ensures IndexOk(TruncatedEnd(idx, last))
    ensures forall p :: Has(TruncatedEnd(idx, last), p) <==> Has(idx, p) && p.checkpoint <= last
  {
    LevelOneSplits(idx, last);
    var n := PartitionPoint(idx, StartsAtMost(last));
    if n == 0 {
      forall p
        ensures Has(TruncatedEnd(idx, last), p) <==> Has(idx, p) && p.checkpoint <= last
      {
        NothingAtMost(idx, last, p);
      }
    } else {
      var cps := idx[n - 1].checkpoints;
      var m := PartitionPoint(cps, AtMost(last));
      assert Ascending(cps);
      AtMostSplits(cps, last);
      assert TruncatedEnd(idx, last) == TrimEnd(idx, n, m);
      hide *;
      TrimEndOk(idx, n, m);
      forall p
        ensures Has(TruncatedEnd(idx, last), p) <==> Has(idx, p) && p.checkpoint <= last
      {
        TrimEndMembers(idx, n, m, last, p);
      }
    }
  }

  // ── The mutable index object ────────────────────────────────────────────────

  class EntryIndex {
    var segments: seq<Indexed>

    constructor ()
      ensures segments == []
    {
      segments := [];
    }

    method AddSegment(id: SegmentId, checkpoints: seq<Checkpoint>)
      modifies this
      ensures segments == old(segments) + [Indexed(id, checkpoints)]
    {
      segments := segments + [Indexed(id, checkpoints)];
    }

    method Find(target: EntryId) returns (r: Option<IndexPosition>)
      ensures r == Floor(segments, target)
    {
      var n := BinarySearch(segments, StartsAtMost(target));
      if n == 0 {
        return None;
      }
      var cps := segments[n - 1].checkpoints;
      var m := BinarySearch(cps, AtMost(target));
      if m == 0 {
        return None;
      }
      r := Some(IndexPosition(segments[n - 1].segment, cps[m - 1].id, cps[m - 1].offset));
    }

    method TruncateStart(first: EntryId)
      modifies this
      ensures segments == TruncatedStart(old(segments), first)
    {
      var n := BinarySearch(segments, StartsAtMost(first));
      if n == 0 {
        return;
      }
      hide PartitionPoint;
      var head, rest := segments[n - 1], segments[n..];
      var m := BinarySearch(head.checkpoints, Below(first));
      segments := [head.(checkpoints := head.checkpoints[m..])] + rest;
    }

    method TruncateEnd(last: EntryId)
      modifies this
      ensures segments == TruncatedEnd(old(segments), last)
    {
      var n := BinarySearch(segments, StartsAtMost(last));
      segments := segments[..n];
      hide PartitionPoint;
      if n > 0 {
        var m := BinarySearch(segments[n - 1].checkpoints, AtMost(last));
        segments := segments[n - 1 := segments[n - 1].(checkpoints := segments[n - 1].checkpoints[..m])];
      }
    }
  }
}
