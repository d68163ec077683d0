/** The bytes on disk by their positions and values: what stands where in a frame, and in the files of a store. */
module Layout {
  import opened Basics
  import opened Frames
  import opened State
  import opened Disk
  import opened Log
  import opened World
  import opened Invariant

  lemma DivideTwice(n: nat, p: nat)
    requires p > 0
    ensures n / 256 / p == n / (256 * p)
  {
    var q := n / 256 / p;
    var r := n - 256 * p * q;
    assert n / 256 == p * q + n / 256 % p;
    assert n == 256 * (n / 256) + n % 256;
    assert 256 * (p * q) == 256 * p * q;
    assert r == 256 * (n / 256 % p) + n % 256;
    assert n == (256 * p) * q + r && 0 <= r < 256 * p;
    QuotientIs(n, 256 * p, q, r);
  }

  lemma LargerMultiple(d: nat, a: int, b: int)
    requires a < b
    ensures d * a + d <= d * b
  {
    assert d * b == d * (b - a - 1) + d + d * a;
    assert d * (b - a - 1) >= 0;
  }

  lemma QuotientIs(n: nat, d: nat, q: nat, r: nat)
    requires d > 0 && n == d * q + r && r < d
    ensures n / d == q
  {
    var t := n / d;
    DivMod(n, d);
    if t > q {
      LargerMultiple(d, q, t);
    } else if t < q {
      LargerMultiple(d, t, q);
    }
  }

  lemma DivMod(n: nat, d: nat)
    requires d > 0
    ensures 0 <= n - d * (n / d) < d
  {
  }

  /** Big-endian: the byte at `i` of `k` is the digit of weight 256^(k-1-i). */
  lemma {:induction false} DigitAt(n: nat, k: nat, i: nat)
    requires i < k
    ensures BigEndian(n, k)[i] == n / Pow256(k - 1 - i) % 256
  {
    if i < k - 1 {
      DigitAt(n / 256, k - 1, i);
      DivideTwice(n, Pow256(k - 2 - i));
    }
  }

  /** A frame on disk: eight bytes of id, four of length, eight of checksum, most significant first, then the payload. */
  lemma FrameBytes(f: RawFrame)
    ensures var e := Encode(f);
      && |e| == 20 + |f.payload|
      && (forall k :: 0 <= k < 8 ==> e[k] == f.id / Pow256(7 - k) % 256)
      && (forall k :: 8 <= k < 12 ==> e[k] == |f.payload| % 0x1_0000_0000 / Pow256(11 - k) % 256)
      && (forall k :: 12 <= k < 20 ==> e[k] == CHECKSUM(f.id, f.payload) / Pow256(19 - k) % 256)
      && e[20..] == f.payload
  {
    var e, len, sum := Encode(f), |f.payload| % U32_LIMIT, CHECKSUM(f.id, f.payload);
    EncodeParts(f);
    hide Encode, BigEndian, Pow256;
    forall k | 0 <= k < 8
      ensures e[k] == f.id / Pow256(7 - k) % 256
    {
      DigitAt(f.id, 8, k);
      assert e[k] == e[..HEADER_LEN][0..8][k];
    }
    forall k | 8 <= k < 12
      ensures e[k] == len / Pow256(11 - k) % 256
    {
      DigitAt(len, 4, k - 8);
      assert e[k] == e[..HEADER_LEN][8..12][k - 8];
    }
    forall k | 12 <= k < 20
      ensures e[k] == sum / Pow256(19 - k) % 256
    {
      DigitAt(sum, 8, k - 12);
      assert e[k] == e[..HEADER_LEN][12..20][k - 12];
    }
  }

  /** The files of a valid store: manifest and segments start with their magic numbers, and the frames of a segment
      follow its magic one after the other, up to the last byte. */
  lemma FileBytes(w: World, body: Body, i: nat)
    requires Inv(w, body) && i < |body|
    ensures |w.disk.manifest| >= 8 && w.disk.manifest[..8] == [0xff, 0x57, 0x44, 0x4d, 0x4e, 0x46, 0x54, 0x01]
    ensures i < |w.mem.state.segments| && w.mem.state.segments[i].id in w.disk.segments
    ensures var file := w.disk.segments[w.mem.state.segments[i].id];
      && |file| == 8 + SizeOf(body[i])
      && file[..8] == [0xff, 0x57, 0x44, 0x53, 0x45, 0x47, 0x4d, 0x01]
      && forall j :: 0 <= j < |body[i]| ==> FrameAt(file, body[i], j)
  {
    assert ManifestOk(w) && FilesOk(w.disk, w.mem.state.segments, body);
    assert FileAt(w.disk, w.mem.state.segments[i], body[i]);
    hide Inv, Replays;
    var fs: seq<Frame> :| w.disk.manifest == FileOf(MANIFEST_MAGIC, fs) && Replays(fs, w.mem.state);
    forall j | 0 <= j < |body[i]|
      ensures FrameAt(Image(body[i]), body[i], j)
    {
      FrameInImage(body[i], j);
    }
    hide EncodeAll, SizeOf;
  }

  /** Frame `j` stands behind the magic and the frames before it. */
  ghost predicate FrameAt(file: seq<byte>, fs: seq<Frame>, j: nat)
    requires j < |fs|
  {
    var start := 8 + SizeOf(fs[..j]);
    var end := start + |Encode(fs[j])|;
    end <= |file| && file[start..end] == Encode(fs[j])
  }

  lemma FrameInImage(fs: seq<Frame>, j: nat)
    requires j < |fs|
    ensures FrameAt(Image(fs), fs, j)
  {
    SizeOfSplit(fs, j);
    EncodeAllCons(fs[j], fs[j + 1..]);
    assert fs[j..] == [fs[j]] + fs[j + 1..];
    var front, back := EncodeAll(fs[..j]), EncodeAll(fs[j + 1..]);
    hide EncodeAll, SizeOf, Encode;
    assert Image(fs) == SEGMENT_MAGIC + (front + (Encode(fs[j]) + back));
    MiddlePart(SEGMENT_MAGIC, front, Encode(fs[j]), back);
  }

  lemma MiddlePart<T>(a: seq<T>, b: seq<T>, c: seq<T>, d: seq<T>)
    ensures (a + (b + (c + d)))[|a| + |b|..|a| + |b| + |c|] == c
  {
  }
}
