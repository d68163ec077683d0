/** The log as a list of segment bodies: order facts and the concatenated entry list. */
module Log {
  import opened Frames
  import opened State
  import opened StateLaws
  import opened Disk

  type Body = seq<seq<Frame>>

  ghost predicate Increasing(fs: seq<Frame>) {
    forall i, j :: 0 <= i < j < |fs| ==> fs[i].id < fs[j].id
  }

  function LastId(fs: seq<Frame>): EntryId
    requires fs != []
  {
    fs[|fs| - 1].id
  }

  function Concat(body: Body): seq<Frame> {
    if body == [] then [] else body[0] + Concat(body[1..])
  }

  /** The entries with id at or above `from`, and those with id at most `last`. */
  function AtLeast(fs: seq<Frame>, from: EntryId): seq<Frame> {
    if fs == [] then [] else (if fs[0].id >= from then [fs[0]] else []) + AtLeast(fs[1..], from)
  }

  function UpToId(fs: seq<Frame>, last: EntryId): seq<Frame> {
    if fs == [] then [] else (if fs[0].id <= last then [fs[0]] else []) + UpToId(fs[1..], last)
  }

  // ── Segments and their bodies ───────────────────────────────────────────────

  /** A live segment's frames ascend and none lies below its recorded first entry. */
  ghost predicate InSegment(seg: Segment, fs: seq<Frame>) {
    Increasing(fs) && forall i :: 0 <= i < |fs| ==> seg.firstEntry <= fs[i].id
  }

  /** A seal agrees with its file, and the file's ids lie strictly below the next segment's first entry. */
  ghost predicate SealedBy(seal: Seal, seg: Segment, fs: seq<Frame>, next: Segment) {
    && fs != []
    && seal.firstEntry == seg.firstEntry
    && seal.lastEntry == LastId(fs)
    && seal.finalSize == |Image(fs)|
    && LastId(fs) < next.firstEntry
  }

  ghost predicate SealedAt(s: State, body: Body, i: nat)
    requires |body| == |s.segments| && i + 1 < |body|
  {
    s.segments[i].id in s.seals && SealedBy(s.seals[s.segments[i].id], s.segments[i], body[i], s.segments[i + 1])
  }

  ghost predicate BodyOk(s: State, body: Body) {
    && |body| == |s.segments|
    && (forall i :: 0 <= i < |body| ==> InSegment(s.segments[i], body[i]))
    && (forall i :: 0 <= i < |body| - 1 ==> SealedAt(s, body, i))
  }

  lemma BodyLength(s: State, body: Body)
    requires BodyOk(s, body)
    ensures |body| == |s.segments|
  {
  }

  lemma AcrossSegments(s: State, body: Body, i: nat, j: nat, a: nat, b: nat)
    requires BodyOk(s, body) && AscendingFirsts(s.segments)
    requires i < j < |body| && a < |body[i]| && b < |body[j]|
    ensures body[i][a].id < body[j][b].id
  {
    assert SealedAt(s, body, i);
    assert InSegment(s.segments[i], body[i]) && InSegment(s.segments[j], body[j]);
    assert body[i][a].id <= LastId(body[i]);
    assert j > i + 1 ==> s.segments[i + 1].firstEntry < s.segments[j].firstEntry;
  }

  ghost predicate OrderedBody(body: Body) {
    && (forall i :: 0 <= i < |body| ==> Increasing(body[i]))
    && (forall i, j :: 0 <= i < j < |body| ==> AllBefore(body[i], body[j]))
  }

  ghost predicate AllBefore(x: seq<Frame>, y: seq<Frame>) {
    forall a, b :: 0 <= a < |x| && 0 <= b < |y| ==> x[a].id < y[b].id
  }

  lemma BodyIsOrdered(s: State, body: Body)
    requires BodyOk(s, body) && AscendingFirsts(s.segments)
    ensures OrderedBody(body)
  {
    forall i | 0 <= i < |body|
      ensures Increasing(body[i])
    {
      assert InSegment(s.segments[i], body[i]);
    }
    forall i, j | 0 <= i < j < |body|
      ensures AllBefore(body[i], body[j])
    {
      forall a, b | 0 <= a < |body[i]| && 0 <= b < |body[j]|
        ensures body[i][a].id < body[j][b].id
      {
        AcrossSegments(s, body, i, j, a, b);
      }
    }
  }

  lemma {:induction false} ConcatBehind(x: seq<Frame>, body: Body)
    requires forall j :: 0 <= j < |body| ==> AllBefore(x, body[j])
    ensures AllBefore(x, Concat(body))
  {
    if body != [] {
      ConcatBehind(x, body[1..]);
    }
  }

  /** The concatenated log has strictly increasing ids. */
  lemma {:induction false} ConcatIncreasing(body: Body)
    requires OrderedBody(body)
    ensures Increasing(Concat(body))
  {
    if body != [] {
      assert forall i :: 0 <= i < |body[1..]| ==> body[1..][i] == body[i + 1];
      ConcatIncreasing(body[1..]);
      ConcatBehind(body[0], body[1..]);
    }
  }

  lemma {:induction false} ConcatSplit(a: Body, b: Body)
    ensures Concat(a + b) == Concat(a) + Concat(b)
  {
    if a == [] {
      assert a + b == b;
    } else {
      assert (a + b)[1..] == a[1..] + b;
      ConcatSplit(a[1..], b);
    }
  }

  lemma ConcatOne(fs: seq<Frame>)
    ensures Concat([fs]) == fs
  {
    assert [fs][1..] == [];
    assert fs + [] == fs;
  }

  lemma ConcatAt(body: Body, k: nat)
    requires k < |body|
    ensures Concat(body) == Concat(body[..k]) + (body[k] + Concat(body[k + 1..]))
  {
    assert body == body[..k] + body[k..];
    ConcatSplit(body[..k], body[k..]);
    assert body[k..][1..] == body[k + 1..];
  }

  // ── Filters on ordered lists are prefixes and suffixes ──────────────────────

  lemma {:induction false} AtLeastConcat(a: seq<Frame>, b: seq<Frame>, from: EntryId)
    ensures AtLeast(a + b, from) == AtLeast(a, from) + AtLeast(b, from)
  {
    if a == [] {
      assert a + b == b;
    } else {
      assert (a + b)[1..] == a[1..] + b;
      AtLeastConcat(a[1..], b, from);
    }
  }

  lemma {:induction false} UpToIdConcat(a: seq<Frame>, b: seq<Frame>, last: EntryId)
    ensures UpToId(a + b, last) == UpToId(a, last) + UpToId(b, last)
  {
    if a == [] {
      assert a + b == b;
    } else {
      assert (a + b)[1..] == a[1..] + b;
      UpToIdConcat(a[1..], b, last);
    }
  }

  lemma {:induction false} AtLeastNone(fs: seq<Frame>, from: EntryId)
    requires forall i :: 0 <= i < |fs| ==> fs[i].id < from
    ensures AtLeast(fs, from) == []
  {
    if fs != [] {
      AtLeastNone(fs[1..], from);
    }
  }

  lemma {:induction false} AtLeastAll(fs: seq<Frame>, from: EntryId)
    requires forall i :: 0 <= i < |fs| ==> fs[i].id >= from
    ensures AtLeast(fs, from) == fs
  {
    if fs != [] {
      AtLeastAll(fs[1..], from);
    }
  }

  lemma {:induction false} UpToIdNone(fs: seq<Frame>, last: EntryId)
    requires forall i :: 0 <= i < |fs| ==> fs[i].id > last
    ensures UpToId(fs, last) == []
  {
    if fs != [] {
      UpToIdNone(fs[1..], last);
    }
  }

  lemma {:induction false} UpToIdAll(fs: seq<Frame>, last: EntryId)
    requires forall i :: 0 <= i < |fs| ==> fs[i].id <= last
    ensures UpToId(fs, last) == fs
  {
    if fs != [] {
      UpToIdAll(fs[1..], last);
    }
  }

  /** How many leading frames lie below `from`. */
  function CountBelow(fs: seq<Frame>, from: EntryId): (n: nat)
    ensures n <= |fs|
    ensures forall i :: 0 <= i < n ==> fs[i].id < from
    ensures n < |fs| ==> fs[n].id >= from
  {
    if fs == [] || fs[0].id >= from then 0 else 1 + CountBelow(fs[1..], from)
  }

  lemma {:induction false} AtLeastIsSuffix(fs: seq<Frame>, from: EntryId)
    requires Increasing(fs)
    ensures AtLeast(fs, from) == fs[CountBelow(fs, from)..]
  {
    if fs == [] {
    } else if fs[0].id >= from {
      AtLeastAll(fs, from);
    } else {
      AtLeastIsSuffix(fs[1..], from);
    }
  }

  lemma {:induction false} AtLeastTwice(fs: seq<Frame>, lo: EntryId, hi: EntryId)
    requires lo <= hi
    ensures AtLeast(AtLeast(fs, lo), hi) == AtLeast(fs, hi)
  {
    if fs != [] {
      AtLeastTwice(fs[1..], lo, hi);
      AtLeastConcat(if fs[0].id >= lo then [fs[0]] else [], AtLeast(fs[1..], lo), hi);
      assert [fs[0]][1..] == [];
    }
  }

  lemma {:induction false} FiltersCommute(fs: seq<Frame>, from: EntryId, last: EntryId)
    ensures AtLeast(UpToId(fs, last), from) == UpToId(AtLeast(fs, from), last)
  {
    if fs != [] {
      FiltersCommute(fs[1..], from, last);
      AtLeastConcat(if fs[0].id <= last then [fs[0]] else [], UpToId(fs[1..], last), from);
      UpToIdConcat(if fs[0].id >= from then [fs[0]] else [], AtLeast(fs[1..], from), last);
      assert [fs[0]][1..] == [];
    }
  }
}
