/** The checkpoints a scan records: which frames they are, and how close they lie to any stored id. */
module Checkpoints {
  import opened Basics
  import opened Frames
  import opened Index
  import opened Log
  import opened Recovery

  /** A fresh scan's checkpoint list: exactly the frames at multiples of the stride, at their true offsets. */
  lemma {:induction false} CheckpointForm(fs: seq<Frame>, base: nat, n: nat)
    requires n <= |fs|
    ensures var cps := CheckpointsOf(fs, base, INDEX_STRIDE, n);
      && |cps| == (n + INDEX_STRIDE - 1) / INDEX_STRIDE
      && forall a :: 0 <= a < |cps| ==>
           a * INDEX_STRIDE < n && cps[a] == Checkpoint(fs[a * INDEX_STRIDE].id, base + SizeOf(fs[..a * INDEX_STRIDE]))
  {
    if n > 0 {
      CheckpointForm(fs, base, n - 1);
      assert (n - 1) % INDEX_STRIDE == 0 ==> (n - 1 + INDEX_STRIDE - 1) / INDEX_STRIDE * INDEX_STRIDE == n - 1;
      hide SizeOf;
    }
  }

  lemma CheckpointsAscend(fs: seq<Frame>, base: nat)
    requires Increasing(fs)
    ensures Ascending(CheckpointsOf(fs, base, INDEX_STRIDE, |fs|))
    ensures fs != [] ==> CheckpointsOf(fs, base, INDEX_STRIDE, |fs|) != []
  {
    CheckpointForm(fs, base, |fs|);
    hide CheckpointsOf, SizeOf;
  }

  /** The search among checkpoints at multiples of the stride stops at the one before position `k`. */
  lemma NearestCheckpoint(fs: seq<Frame>, cps: seq<Checkpoint>, k: nat, n: nat)
    requires Increasing(fs) && k < |fs| && |cps| == (|fs| + INDEX_STRIDE - 1) / INDEX_STRIDE && n <= |cps|
    requires forall a :: 0 <= a < |cps| ==> a * INDEX_STRIDE < |fs| && cps[a].id == fs[a * INDEX_STRIDE].id
    requires forall a :: 0 <= a < |cps| ==> (cps[a].id <= fs[k].id <==> a < n)
    ensures n == k / INDEX_STRIDE + 1
  {
    var a := k / INDEX_STRIDE;
    assert a < |cps| && cps[a].id <= fs[k].id;
    if a + 1 < |cps| {
      assert (a + 1) * INDEX_STRIDE > k;
      assert cps[a + 1].id > fs[k].id;
    }
  }

  /** For any stored id the index lookup finds the nearest checkpoint, fewer than 64 frames before it. */
  lemma CheckpointDensity(fs: seq<Frame>, base: nat, k: nat)
    requires Increasing(fs) && k < |fs|
    ensures var cps := CheckpointsOf(fs, base, INDEX_STRIDE, |fs|);
      exists c: nat :: c <= k < c + INDEX_STRIDE && c % INDEX_STRIDE == 0 &&
        SegmentFind(cps, fs[k].id) == Some(Checkpoint(fs[c].id, base + SizeOf(fs[..c])))
  {
    var cps := CheckpointsOf(fs, base, INDEX_STRIDE, |fs|);
    CheckpointForm(fs, base, |fs|);
    CheckpointsAscend(fs, base);
    AtMostSplits(cps, fs[k].id);
    hide CheckpointsOf, SizeOf, PartitionPoint, Increasing, Ascending, AtMost, Below;
    NearestCheckpoint(fs, cps, k, PartitionPoint(cps, AtMost(fs[k].id)));
    var c := k / INDEX_STRIDE * INDEX_STRIDE;
    assert c <= k < c + INDEX_STRIDE && c % INDEX_STRIDE == 0;
  }
}
