/** The frame wire format and what a checksum-verifying reader sees in a byte string.

    A frame is `[id: 8][payload_len: 4][checksum: 8][payload]`, integers big-endian. */
module Frames {
  import opened Basics

  const HEADER_LEN := 20

  /** xxHash-64 over the id bytes and the payload.  It is not interpreted: everything below holds for
      every function of this type. */
  const CHECKSUM: (u64, seq<byte>) -> u64

  datatype RawFrame = Frame(id: u64, payload: seq<byte>)

  /** Frames whose payload length fits the 4-byte length field. */
  type Frame = f: RawFrame | |f.payload| < U32_LIMIT witness RawFrame.Frame(0, [])

  /** `FrameBuffer::write`; the payload length is cast to 32 bits, as in the source. */
  function Encode(f: RawFrame): (s: seq<byte>)
    ensures |s| == HEADER_LEN + |f.payload|
  {
    BigEndian(f.id, 8) + BigEndian(|f.payload| % U32_LIMIT, 4) + BigEndian(CHECKSUM(f.id, f.payload), 8) + f.payload
  }

  function SizeOf(fs: seq<RawFrame>): nat {
    if fs == [] then 0 else HEADER_LEN + |fs[0].payload| + SizeOf(fs[1..])
  }

  function EncodeAll(fs: seq<RawFrame>): (s: seq<byte>)
    ensures |s| == SizeOf(fs)
  {
    if fs == [] then [] else Encode(fs[0]) + EncodeAll(fs[1..])
  }

  lemma SliceOfSlice<T>(s: seq<T>, c: nat, n: nat, lo: nat, hi: nat)
    requires lo <= hi <= n && c + n <= |s|
    ensures s[c..c + n][lo..hi] == s[c + lo..c + hi]
  {
    var t := s[c..c + n];
    assert forall i :: lo <= i < hi ==> t[i] == s[c + i];
  }

  lemma SliceSplit<T>(s: seq<T>, lo: nat, mid: nat, hi: nat)
    requires lo <= mid <= hi <= |s|
    ensures s[lo..hi] == s[lo..mid] + s[mid..hi]
  {
  }

  lemma TakeOfDrop<T>(s: seq<T>, c: nat, n: nat)
    requires c + n <= |s|
    ensures s[c..][..n] == s[c..c + n]
  {
  }

  lemma DropOfDrop<T>(s: seq<T>, c: nat, n: nat)
    requires c + n <= |s|
    ensures s[c..][n..] == s[c + n..]
  {
  }

  lemma SliceOfTake<T>(s: seq<T>, k: nat, lo: nat, hi: nat)
    requires lo <= hi <= k <= |s|
    ensures s[..k][lo..hi] == s[lo..hi]
    ensures s[..k][lo..] == s[lo..k]
  {
  }

  lemma {:induction false} EncodeAllConcat(a: seq<RawFrame>, b: seq<RawFrame>)
    ensures EncodeAll(a + b) == EncodeAll(a) + EncodeAll(b)
    ensures SizeOf(a + b) == SizeOf(a) + SizeOf(b)
  {
    if a == [] {
      assert a + b == b;
    } else {
      assert (a + b)[1..] == a[1..] + b;
      EncodeAllConcat(a[1..], b);
    }
  }

  lemma EncodeAllEmpty()
    ensures EncodeAll([]) == [] && SizeOf([]) == 0
  {
  }

  lemma EncodeAllCons(f: RawFrame, rest: seq<RawFrame>)
    ensures EncodeAll([f] + rest) == Encode(f) + EncodeAll(rest)
    ensures SizeOf([f] + rest) == |Encode(f)| + SizeOf(rest)
  {
    assert ([f] + rest)[1..] == rest;
  }

  lemma SizeOfSplit(fs: seq<RawFrame>, n: nat)
    requires n <= |fs|
    ensures SizeOf(fs) == SizeOf(fs[..n]) + SizeOf(fs[n..])
    ensures EncodeAll(fs) == EncodeAll(fs[..n]) + EncodeAll(fs[n..])
  {
    assert fs == fs[..n] + fs[n..];
    EncodeAllConcat(fs[..n], fs[n..]);
  }

  lemma SizeOfStep(fs: seq<RawFrame>, n: nat)
    requires n < |fs|
    ensures SizeOf(fs[..n + 1]) == SizeOf(fs[..n]) + HEADER_LEN + |fs[n].payload|
  {
    assert fs[..n + 1] == fs[..n] + [fs[n]];
    EncodeAllConcat(fs[..n], [fs[n]]);
  }

  // ── One frame, as read from a byte offset ───────────────────────────────────

  datatype Header = Header(id: u64, len: u32, sum: u64)

  function HeaderAt(data: seq<byte>, c: nat): Header
    requires c + HEADER_LEN <= |data|
  {
    ValueBound(data[c..c + 8]);
    ValueBound(data[c + 8..c + 12]);
    ValueBound(data[c + 12..c + 20]);
    WidthLimits();
    Header(Value(data[c..c + 8]), Value(data[c + 8..c + 12]), Value(data[c + 12..c + 20]))
  }

  /** What one `check` finds at offset `c`: nothing, a frame cut short, a frame whose checksum is wrong, or
      a good frame; `next` is where the following frame starts. */
  datatype Checked = AtEnd | Torn | Corrupt(next: nat) | Good(frame: Frame, next: nat)

  function CheckAt(data: seq<byte>, c: nat): Checked
    requires c <= |data|
  {
    if c == |data| then AtEnd
    else if |data| < c + HEADER_LEN then Torn
    else
      var h := HeaderAt(data, c);
      var next := c + HEADER_LEN + h.len;
      if |data| < next then Torn
      else
        var payload := data[c + HEADER_LEN..next];
        if CHECKSUM(h.id, payload) != h.sum then Corrupt(next) else Good(RawFrame.Frame(h.id, payload), next)
  }

  lemma HeaderOfEncoded(data: seq<byte>, c: nat, f: RawFrame)
    requires c + HEADER_LEN <= |data|
    requires data[c..c + HEADER_LEN] == Encode(f)[..HEADER_LEN]
    ensures HeaderAt(data, c) == Header(f.id, |f.payload| % U32_LIMIT, CHECKSUM(f.id, f.payload))
  {
    var d := data[c..c + HEADER_LEN];
    WidthLimits();
    SliceOfSlice(data, c, HEADER_LEN, 0, 8);
    SliceOfSlice(data, c, HEADER_LEN, 8, 12);
    SliceOfSlice(data, c, HEADER_LEN, 12, 20);
    EncodeParts(f);
    ValueOfBigEndian(f.id, 8);
    ValueOfBigEndian(|f.payload| % U32_LIMIT, 4);
    ValueOfBigEndian(CHECKSUM(f.id, f.payload), 8);
  }

  lemma EncodeParts(f: RawFrame)
    ensures Encode(f)[..HEADER_LEN][0..8] == BigEndian(f.id, 8)
    ensures Encode(f)[..HEADER_LEN][8..12] == BigEndian(|f.payload| % U32_LIMIT, 4)
    ensures Encode(f)[..HEADER_LEN][12..20] == BigEndian(CHECKSUM(f.id, f.payload), 8)
    ensures Encode(f)[HEADER_LEN..] == f.payload
  {
  }

  lemma CheckEncoded(data: seq<byte>, c: nat, f: Frame)
    requires c + |Encode(f)| <= |data|
    requires data[c..c + |Encode(f)|] == Encode(f)
    ensures CheckAt(data, c) == Good(f, c + |Encode(f)|)
  {
    hide Encode, HeaderAt;
    var n := |Encode(f)|;
    SliceOfSlice(data, c, n, 0, HEADER_LEN);
    SliceOfSlice(data, c, n, HEADER_LEN, n);
    EncodeParts(f);
    HeaderOfEncoded(data, c, f);
  }

  lemma FourSlices(data: seq<byte>, a: nat, b: nat, c: nat, d: nat, e: nat)
    requires a <= b <= c <= d <= e <= |data|
    ensures data[a..e] == data[a..b] + data[b..c] + data[c..d] + data[d..e]
  {
    SliceSplit(data, a, b, c);
    SliceSplit(data, a, c, d);
    SliceSplit(data, a, d, e);
  }

  /** Reading is the exact inverse of writing: a good frame's bytes are its encoding. */
  lemma GoodIsEncoded(data: seq<byte>, c: nat)
    requires c <= |data| && CheckAt(data, c).Good?
    ensures var g := CheckAt(data, c);
      g.next == c + |Encode(g.frame)| <= |data| && data[c..g.next] == Encode(g.frame)
  {
    hide Encode, HeaderAt, BigEndian;
    var g := CheckAt(data, c);
    HeaderBytes(data, c);
    EncodeIs(g.frame);
    FourSlices(data, c, c + 8, c + 12, c + 20, g.next);
  }

  lemma HeaderBytes(data: seq<byte>, c: nat)
    requires c + HEADER_LEN <= |data|
    ensures var h := HeaderAt(data, c);
      && data[c..c + 8] == BigEndian(h.id, 8) && data[c + 8..c + 12] == BigEndian(h.len, 4)
      && data[c + 12..c + 20] == BigEndian(h.sum, 8)
  {
    BigEndianOfValue(data[c..c + 8]);
    BigEndianOfValue(data[c + 8..c + 12]);
    BigEndianOfValue(data[c + 12..c + 20]);
    hide Value, BigEndian;
  }

  lemma EncodeIs(f: Frame)
    ensures Encode(f) ==
      BigEndian(f.id, 8) + BigEndian(|f.payload|, 4) + BigEndian(CHECKSUM(f.id, f.payload), 8) + f.payload
  {
    hide BigEndian;
  }

  /** Whatever its payload length, a written frame reads back as a whole frame of the length that the 32-bit field
      holds. */
  lemma ReadsBackAs(f: RawFrame)
    ensures var kept := f.payload[..|f.payload| % U32_LIMIT];
      CheckAt(Encode(f), 0) ==
        if CHECKSUM(f.id, kept) == CHECKSUM(f.id, f.payload) then Good(RawFrame.Frame(f.id, kept), HEADER_LEN + |kept|)
        else Corrupt(HEADER_LEN + |kept|)
  {
    var e, len := Encode(f), |f.payload| % U32_LIMIT;
    assert e[0..0 + HEADER_LEN] == e[..HEADER_LEN];
    HeaderOfEncoded(e, 0, f);
    EncodeParts(f);
    hide Encode, HeaderAt;
    SliceOfDrop(e, HEADER_LEN, len);
  }

  lemma SliceOfDrop<T>(s: seq<T>, c: nat, n: nat)
    requires c + n <= |s|
    ensures s[c..c + n] == s[c..][..n]
  {
  }

  /** A frame survives the round trip if and only if its payload length fits the length field.  The cast in `write`
      drops the high bits of a longer one: what is then read back ends before the written bytes do. */
  lemma FrameRoundTripIff(f: RawFrame)
    ensures |f.payload| < U32_LIMIT ==> CheckAt(Encode(f), 0) == Good(f, |Encode(f)|)
    ensures |f.payload| >= U32_LIMIT ==>
      var c := CheckAt(Encode(f), 0);
      (c.Good? || c.Corrupt?) && c.next < |Encode(f)| && (c.Good? ==> |c.frame.payload| < |f.payload|)
  {
    ReadsBackAs(f);
    hide CheckAt;
    if |f.payload| < U32_LIMIT {
      assert f.payload[..|f.payload|] == f.payload;
    }
  }

  /** A proper non-empty prefix of a frame is reported as torn, wherever the cut falls. */
  lemma TornPrefix(data: seq<byte>, c: nat, f: Frame)
    requires c < |data| < c + |Encode(f)|
    requires data[c..] == Encode(f)[..|data| - c]
    ensures CheckAt(data, c) == Torn
  {
    if c + HEADER_LEN <= |data| {
      assert data[c..c + HEADER_LEN] == data[c..][..HEADER_LEN] == Encode(f)[..HEADER_LEN];
      HeaderOfEncoded(data, c, f);
    }
  }

  // ── A whole byte string ─────────────────────────────────────────────────────

  datatype Status = Clean | TornTail | ChecksumCorrupt

  /** The frames a scan accepts, the offset after the last one, and why it stopped. */
  datatype Walked = Walked(frames: seq<Frame>, end: nat, status: Status)

  function Walk(data: seq<byte>, c: nat): (w: Walked)
    requires c <= |data|
    ensures c <= w.end <= |data|
    ensures w.status.Clean? <==> w.end == |data|
    decreases |data| - c
  {
    match CheckAt(data, c)
    case AtEnd => Walked([], c, Clean)
    case Torn => Walked([], c, TornTail)
    case Corrupt(_) => Walked([], c, ChecksumCorrupt)
    case Good(f, next) =>
      var w := Walk(data, next);
      Walked([f] + w.frames, w.end, w.status)
  }

  lemma WalkAtEnd(data: seq<byte>)
    ensures Walk(data, |data|) == Walked([], |data|, Clean)
  {
  }

  lemma WalkTorn(data: seq<byte>, c: nat)
    requires c <= |data| && CheckAt(data, c) == Torn
    ensures Walk(data, c) == Walked([], c, TornTail)
  {
  }

  lemma WalkGood(data: seq<byte>, c: nat, f: Frame, next: nat)
    requires c <= next <= |data| && CheckAt(data, c) == Good(f, next)
    ensures var w := Walk(data, next); Walk(data, c) == Walked([f] + w.frames, w.end, w.status)
  {
  }

  /** Encoded frames anywhere in a byte string are all read back, and the walk goes on behind them. */
  lemma {:induction false} WalkEncoded(data: seq<byte>, c: nat, fs: seq<Frame>)
    requires c + SizeOf(fs) <= |data|
    requires data[c..c + SizeOf(fs)] == EncodeAll(fs)
    ensures var w := Walk(data, c + SizeOf(fs));
      Walk(data, c) == Walked(fs + w.frames, w.end, w.status)
    decreases |fs|
  {
    hide *;
    if fs == [] {
      assert SizeOf(fs) == 0 by { EncodeAllEmpty(); }
      assert fs + Walk(data, c).frames == Walk(data, c).frames;
    } else {
      var f, rest := fs[0], fs[1..];
      assert fs == [f] + rest;
      EncodeAllCons(f, rest);
      var n, m := |Encode(f)|, SizeOf(fs);
      SliceOfSlice(data, c, m, 0, n);
      SliceOfSlice(data, c, m, n, m);
      CheckEncoded(data, c, f);
      WalkGood(data, c, f, c + n);
      WalkEncoded(data, c + n, rest);
      assert [f] + (rest + Walk(data, c + m).frames) == fs + Walk(data, c + m).frames;
    }
  }

  /** Conversely, what a walk has accepted is exactly the encoding of the frames it returned. */
  lemma {:induction false} WalkIsEncoding(data: seq<byte>, c: nat)
    requires c <= |data|
    ensures var w := Walk(data, c);
      w.end == c + SizeOf(w.frames) && data[c..w.end] == EncodeAll(w.frames)
    decreases |data| - c
  {
    match CheckAt(data, c)
    case Good(f, next) =>
      hide *;
      GoodIsEncoded(data, c);
      WalkGood(data, c, f, next);
      WalkIsEncoding(data, next);
      var w := Walk(data, next);
      EncodeAllCons(f, w.frames);
      SliceSplit(data, c, next, w.end);
    case _ =>
  }

  lemma WalkEncodedLast(data: seq<byte>, c: nat, fs: seq<Frame>, status: Status)
    requires c + SizeOf(fs) <= |data| && data[c..c + SizeOf(fs)] == EncodeAll(fs)
    requires Walk(data, c + SizeOf(fs)) == Walked([], c + SizeOf(fs), status)
    ensures Walk(data, c) == Walked(fs, c + SizeOf(fs), status)
  {
    hide *;
    WalkEncoded(data, c, fs);
    assert fs + [] == fs;
  }

  /** Round trip: a byte string that continues with exactly these frames reads back as these frames, cleanly. */
  lemma WalkRoundTrip(data: seq<byte>, c: nat, fs: seq<Frame>)
    requires c <= |data| && data[c..] == EncodeAll(fs)
    ensures Walk(data, c) == Walked(fs, |data|, Clean)
  {
    hide *;
    assert c + SizeOf(fs) == |data| && data[c..|data|] == data[c..];
    WalkAtEnd(data);
    WalkEncodedLast(data, c, fs, Clean);
  }

  /** How many whole frames fit in the first `k` bytes. */
  function Whole(fs: seq<RawFrame>, k: nat): (n: nat)
    ensures n <= |fs|
  {
    if fs == [] || k < |Encode(fs[0])| then 0 else 1 + Whole(fs[1..], k - |Encode(fs[0])|)
  }

  /** `Whole` is the greatest prefix that fits. */
  lemma {:induction false} WholeIsGreatest(fs: seq<RawFrame>, k: nat)
    ensures SizeOf(fs[..Whole(fs, k)]) <= k
    ensures Whole(fs, k) < |fs| ==> k < SizeOf(fs[..Whole(fs, k) + 1])
  {
    if !(fs == [] || k < |Encode(fs[0])|) {
      var n := Whole(fs, k);
      WholeIsGreatest(fs[1..], k - |Encode(fs[0])|);
      assert fs[..n][1..] == fs[1..][..n - 1];
      if n < |fs| {
        assert fs[..n + 1][1..] == fs[1..][..n];
      }
    } else if fs != [] {
      assert fs[..1] == [fs[0]];
      SizeOfSplit([fs[0]], 1);
    }
  }

  /** Where the pieces of an encoded file lie: the first `n` frames, and frame `n` right behind them. */
  lemma FramesAt(full: seq<byte>, c: nat, fs: seq<Frame>, n: nat)
    requires c <= |full| && full[c..] == EncodeAll(fs) && n <= |fs|
    ensures var e := c + SizeOf(fs[..n]);
      && e <= |full|
      && full[c..e] == EncodeAll(fs[..n])
      && full[e..] == EncodeAll(fs[n..])
      && (n < |fs| ==> e + |Encode(fs[n])| <= |full| && full[e..e + |Encode(fs[n])|] == Encode(fs[n])
                       && SizeOf(fs[..n + 1]) == SizeOf(fs[..n]) + |Encode(fs[n])|)
  {
    hide *;
    var size := SizeOf(fs[..n]);
    SizeOfSplit(fs, n);
    TakeOfDrop(full, c, size);
    DropOfDrop(full, c, size);
    if n < |fs| {
      SizeOfStep(fs, n);
      assert fs[n..] == [fs[n]] + fs[n + 1..];
      EncodeAllCons(fs[n], fs[n + 1..]);
      TakeOfDrop(full, c + size, |Encode(fs[n])|);
    }
  }

  /** Torn prefixes: cutting a file of whole frames at any byte leaves exactly the whole frames before the
      cut; the scan says clean at a frame boundary and torn everywhere else. */
  lemma TornPrefixes(full: seq<byte>, c: nat, fs: seq<Frame>, k: nat)
    requires c <= k <= |full| && full[c..] == EncodeAll(fs)
    ensures var n := Whole(fs, k - c);
      var end := c + SizeOf(fs[..n]);
      end <= k && Walk(full[..k], c) == Walked(fs[..n], end, if end == k then Clean else TornTail)
  {
    hide *;
    var data := full[..k];
    var n := Whole(fs, k - c);
    var end := c + SizeOf(fs[..n]);
    WholeIsGreatest(fs, k - c);
    FramesAt(full, c, fs, n);
    if end == k {
      WalkAtEnd(data);
    } else {
      assert fs[..|fs|] == fs;
      var f := fs[n];
      SliceOfSlice(full, end, |Encode(f)|, 0, k - end);
      SliceOfTake(full, k, end, k);
      TornPrefix(data, end, f);
      WalkTorn(data, end);
    }
    SliceOfTake(full, k, c, end);
    WalkEncodedLast(data, c, fs[..n], if end == k then Clean else TornTail);
  }
}
