/** The stateful frame scanner.  Its reader's byte cursor and its logical position are two separate fields, and a
    header can be read ahead. */
module Scanner {
  import opened Basics
  import opened Frames
  import opened State
  import opened Index
  import opened Recovery

  datatype Peeked = Peeked(header: Header, start: nat)

  datatype ScanError = Truncated(offset: nat) | ChecksumMismatch(offset: nat)

  /** The scanner as a value. */
  datatype ScannerState = ScannerState(data: seq<byte>, cursor: nat, position: nat, peeked: Option<Peeked>) {
    /** A header read ahead is the one right behind the cursor, recorded at the current position. */
    ghost predicate Ok() {
      && cursor <= |data|
      && (peeked.Some? ==>
            && HEADER_LEN <= cursor
            && peeked.value == Peeked(HeaderAt(data, cursor - HEADER_LEN), position))
    }

    /** Where the next frame starts: a header read ahead is not consumed yet. */
    function Boundary(): nat
      requires Ok()
    {
      if peeked.Some? then cursor - HEADER_LEN else cursor
    }

    /** Past everything up to `next`, with the position moved by as much. */
    function MovedTo(next: nat): ScannerState
      requires Ok() && Boundary() <= next
    {
      ScannerState(data, next, position + (next - Boundary()), None)
    }

    /** At the end of the data after a frame cut short; the position stays. */
    function Stopped(): ScannerState {
      ScannerState(data, |data|, position, None)
    }
  }

  // ── What the operations do ──────────────────────────────────────────────────

  datatype Did<+T> = Did(answer: Result<T, ScanError>, after: ScannerState)

  function Checking(s: ScannerState): (d: Did<Option<(EntryId, nat)>>)
    requires s.Ok()
    ensures d.after.Ok()
  {
    match CheckAt(s.data, s.Boundary())
    case AtEnd => Did(Success(None), s)
    case Torn => Did(Failure(Truncated(s.position)), s.Stopped())
    case Corrupt(next) => Did(Failure(ChecksumMismatch(s.position)), s.MovedTo(next))
    case Good(f, next) => Did(Success(Some((f.id, s.position))), s.MovedTo(next))
  }

  function Seeking(s: ScannerState, target: EntryId): (d: Did<()>)
    requires s.Ok()
    ensures d.after.Ok()
    decreases |s.data| - s.Boundary()
  {
    var c := s.Boundary();
    if c == |s.data| then Did(Success(()), s)
    else if |s.data| < c + HEADER_LEN then Did(Failure(Truncated(s.position)), s.Stopped())
    else
      var h := HeaderAt(s.data, c);
      var next := c + HEADER_LEN + h.len;
      if h.id >= target then Did(Success(()), ScannerState(s.data, c + HEADER_LEN, s.position, Some(Peeked(h, s.position))))
      else if |s.data| < next then Did(Failure(Truncated(s.position)), s.Stopped())
      else Seeking(s.MovedTo(next), target)
  }

  /** Running off the end without meeting the target is an error too. */
  function ScanningAfter(s: ScannerState, target: EntryId): (d: Did<nat>)
    requires s.Ok()
    ensures d.after.Ok()
    decreases |s.data| - s.Boundary()
  {
    var c := s.Boundary();
    if |s.data| < c + HEADER_LEN then Did(Failure(Truncated(s.position)), s.Stopped())
    else
      var h := HeaderAt(s.data, c);
      var next := c + HEADER_LEN + h.len;
      if |s.data| < next then Did(Failure(Truncated(s.position)), s.Stopped())
      else if h.id == target then Did(Success(s.MovedTo(next).position), s.MovedTo(next))
      else ScanningAfter(s.MovedTo(next), target)
  }

  // ── The mutable scanner ─────────────────────────────────────────────────────

  class FrameScanner {
    const data: seq<byte>
    var cursor: nat
    var position: nat
    var peeked: Option<Peeked>

    function View(): ScannerState
      reads this
    {
      ScannerState(data, cursor, position, peeked)
    }

    /** `new` only records the position: the reader stays wherever the file handle was left. */
    constructor (data: seq<byte>, cursor: nat, offset: nat)
      requires cursor <= |data|
      ensures View() == ScannerState(data, cursor, offset, None) && View().Ok()
    {
      this.data, this.cursor, this.position, this.peeked := data, cursor, offset, None;
    }

    method PeekHeader() returns (r: Result<Option<Peeked>, ScanError>)
      requires View().Ok()
      modifies this
      ensures View().Ok()
      ensures old(View().Boundary()) == |data| ==> r == Success(None) && View() == old(View())
      ensures old(View().Boundary()) < |data| < old(View().Boundary()) + HEADER_LEN ==>
        r == Failure(Truncated(position)) && View() == old(View()).Stopped()
      ensures old(View().Boundary()) + HEADER_LEN <= |data| ==>
        var p := Peeked(HeaderAt(data, old(View().Boundary())), position);
        r == Success(Some(p)) && View() == ScannerState(data, old(View().Boundary()) + HEADER_LEN, old(position), Some(p))
    {
      if peeked.Some? {
        return Success(peeked);
      }
      var start := position;
      if cursor == |data| {
        return Success(None);
      }
      if |data| - cursor < HEADER_LEN {
        cursor := |data|;
        return Failure(Truncated(start));
      }
      var header := HeaderAt(data, cursor);
      cursor := cursor + HEADER_LEN;
      peeked := Some(Peeked(header, start));
      r := Success(peeked);
    }

    /** Skip a payload whose header has been read. */
    method ConsumePayload(len: u32, start: nat) returns (r: Result<(), ScanError>)
      requires cursor <= |data|
      modifies this
      ensures |data| < old(cursor) + len ==>
        r == Failure(Truncated(start)) && View() == ScannerState(data, |data|, old(position), old(peeked))
      ensures old(cursor) + len <= |data| ==>
        r == Success(()) && View() == ScannerState(data, old(cursor) + len, start + HEADER_LEN + len, None)
    {
      var skipped := if |data| - cursor < len then |data| - cursor else len;
      cursor := cursor + skipped;
      if skipped < len {
        return Failure(Truncated(start));
      }
      position := start + HEADER_LEN + len;
      peeked := None;
      r := Success(());
    }

    /** Up to `limit` bytes from the reader, at least one unless it is at the end. */
    method ReadSome(limit: nat) returns (bytes: seq<byte>)
      requires cursor <= |data| && limit > 0
      modifies this`cursor
      ensures old(cursor) <= cursor <= |data| && bytes == data[old(cursor)..cursor] && |bytes| <= limit
      ensures bytes == [] <==> old(cursor) == |data|
    {
      var n: nat :| n <= limit && n <= |data| - cursor && (cursor < |data| ==> n > 0);
      bytes := data[cursor..cursor + n];
      cursor := cursor + n;
    }

    /** Read one frame, hashing its payload in chunks of at most 8 KiB. */
    method Check() returns (r: Result<Option<(EntryId, nat)>, ScanError>)
      requires View().Ok()
      modifies this
      ensures View().Ok() && Did(r, View()) == Checking(old(View()))
    {
      hide HeaderAt;
      ghost var s := View();
      var p := PeekHeader();
      if p.Failure? {
        return Failure(p.error);
      }
      if p.value.None? {
        return Success(None);
      }
      peeked := None;
      var h, start := p.value.value.header, p.value.value.start;
      CheckingWhole(s);
      hide Checking, CheckAt;
      var hashed := ReadPayload(h.len);
      if |hashed| < h.len {
        return Failure(Truncated(start));
      }
      position := start + HEADER_LEN + h.len;
      if CHECKSUM(h.id, hashed) != h.sum {
        return Failure(ChecksumMismatch(start));
      }
      r := Success(Some((h.id, start)));
    }

    /** The hashing loop of `check`: the payload, or all there is of it. */
    method ReadPayload(len: u32) returns (hashed: seq<byte>)
      requires cursor <= |data|
      modifies this`cursor
      ensures cursor == if |data| < old(cursor) + len then |data| else old(cursor) + len
      ensures hashed == data[old(cursor)..cursor]
    {
      var remaining: nat := len;
      hashed := [];
      while remaining > 0
        invariant old(cursor) <= cursor <= |data| && hashed == data[old(cursor)..cursor]
        invariant remaining == old(cursor) + len - cursor
      {
        var chunk := ReadSome(if remaining < 8192 then remaining else 8192);
        if chunk == [] {
          return;
        }
        hashed := hashed + chunk;
        remaining := remaining - |chunk|;
      }
    }

    method SeekToId(target: EntryId) returns (r: Result<(), ScanError>)
      requires View().Ok()
      modifies this
      ensures View().Ok() && Did(r, View()) == Seeking(old(View()), target)
    {
      hide HeaderAt, Seeking;
      ghost var want := Seeking(View(), target);
      while true
        invariant View().Ok() && Seeking(View(), target) == want
        decreases |data| - View().Boundary()
      {
        SeekingUnfolds(View(), target);
        var p := PeekHeader();
        if p.Failure? {
          return Failure(p.error);
        }
        if p.value.None? {
          return Success(());
        }
        var h, start := p.value.value.header, p.value.value.start;
        if h.id >= target {
          return Success(());
        }
        peeked := None;
        var c := ConsumePayload(h.len, start);
        if c.Failure? {
          return Failure(c.error);
        }
      }
    }

    method ScanToAfter(target: EntryId) returns (r: Result<nat, ScanError>)
      requires View().Ok()
      modifies this
      ensures View().Ok() && Did(r, View()) == ScanningAfter(old(View()), target)
    {
      hide HeaderAt, ScanningAfter;
      ghost var want := ScanningAfter(View(), target);
      while true
        invariant View().Ok() && ScanningAfter(View(), target) == want
        decreases |data| - View().Boundary()
      {
        AfterUnfolds(View(), target);
        var p := PeekHeader();
        if p.Failure? {
          return Failure(p.error);
        }
        if p.value.None? {
          return Failure(Truncated(position));
        }
        var h, start := p.value.value.header, p.value.value.start;
        peeked := None;
        var c := ConsumePayload(h.len, start);
        if c.Failure? {
          return Failure(c.error);
        }
        if h.id == target {
          return Success(position);
        }
      }
    }

    /** Check every frame, recording every `stride`-th one as a checkpoint. */
    method ScanAll(stride: nat) returns (s: Summary)
      requires View().Ok() && stride > 0
      modifies this
      ensures s == SummaryOf(Walk(data, old(View().Boundary())), old(position), stride)
    {
      hide Walk, CheckAt, SizeOf, CheckpointsOf;
      ghost var start, base := View().Boundary(), position;
      ghost var fs: seq<Frame> := [];
      var count, lastGood := 0, position;
      var checkpoints: seq<Checkpoint> := [];
      var lastId: Option<EntryId> := None;
      NothingScanned(base, stride);
      assert [] + Walk(data, start).frames == Walk(data, start).frames;
      while true
        invariant View().Ok() && position == lastGood == base + SizeOf(fs)
        invariant count == |fs| && lastId == LastOf(fs)
        invariant checkpoints == CheckpointsOf(fs, base, stride, |fs|)
        invariant Walk(data, start).frames == fs + Walk(data, View().Boundary()).frames
        invariant Walk(data, start).status == Walk(data, View().Boundary()).status
        decreases |data| - View().Boundary()
      {
        ghost var c := View().Boundary();
        WalkUnfolds(data, c);
        var r := Check();
        if r.Failure? {
          assert fs + [] == fs;
          return Summary(count, checkpoints, lastId, lastGood,
                         if r.error.Truncated? then TornTail else ChecksumCorrupt);
        }
        if r.value.None? {
          assert fs + [] == fs;
          return Summary(count, checkpoints, lastId, position, Clean);
        }
        var (id, offset) := r.value.value;
        ghost var f := CheckAt(data, c).frame;
        OneMoreScanned(fs, f, base, stride);
        assert (fs + [f]) + Walk(data, View().Boundary()).frames == fs + ([f] + Walk(data, View().Boundary()).frames);
        if count % stride == 0 {
          checkpoints := checkpoints + [Checkpoint(id, offset)];
        }
        lastId := Some(id);
        count := count + 1;
        lastGood := position;
        fs := fs + [f];
      }
    }

    /** The next frame's header, and a reader for its payload. */
    method Read() returns (r: Result<Option<FrameReader>, ScanError>)
      requires View().Ok()
      modifies this
      ensures cursor <= |data|
      ensures old(View().Boundary()) == |data| ==> r == Success(None) && View() == old(View())
      ensures old(View().Boundary()) < |data| < old(View().Boundary()) + HEADER_LEN ==>
        r == Failure(Truncated(position)) && View() == old(View()).Stopped()
      ensures old(View().Boundary()) + HEADER_LEN <= |data| ==>
        && r.Success? && r.value.Some? && fresh(r.value.value) && r.value.value.scanner == this
        && ReaderFor(r.value.value, HeaderAt(data, old(View().Boundary())), old(position))
        && View() == ScannerState(data, old(View().Boundary()) + HEADER_LEN, old(position), None)
    {
      var p := PeekHeader();
      if p.Failure? {
        return Failure(p.error);
      }
      if p.value.None? {
        return Success(None);
      }
      peeked := None;
      var h := p.value.value.header;
      var f := new FrameReader(this, h.id, h.len, p.value.value.start);
      r := Success(Some(f));
    }
  }

  ghost predicate ReaderFor(f: FrameReader, h: Header, start: nat)
    reads f
  {
    f.id == h.id && f.payloadLen == f.remaining == h.len && f.frameStart == start
  }

  // ── Reading one payload ─────────────────────────────────────────────────────

  datatype ReadError = UnexpectedEof

  class FrameReader {
    const scanner: FrameScanner
    const id: EntryId
    const payloadLen: u32
    const frameStart: nat
    var remaining: nat

    constructor (scanner: FrameScanner, id: EntryId, payloadLen: u32, frameStart: nat)
      ensures this.scanner == scanner && this.id == id && this.payloadLen == payloadLen
      ensures this.frameStart == frameStart && remaining == payloadLen
    {
      this.scanner, this.id, this.payloadLen, this.frameStart := scanner, id, payloadLen, frameStart;
      remaining := payloadLen;
    }

    /** At most `limit` bytes.  The scanner's position moves only when the last byte of the payload is delivered:
        an empty payload never moves it. */
    method Read(limit: nat) returns (r: Result<seq<byte>, ReadError>)
      requires scanner.cursor <= |scanner.data|
      modifies this`remaining, scanner`cursor, scanner`position
      ensures scanner.cursor <= |scanner.data| && remaining <= old(remaining)
      ensures old(remaining) == 0 ==> r == Success([]) && scanner.View() == old(scanner.View()) && remaining == 0
      ensures old(remaining) > 0 && (limit == 0 || old(scanner.cursor) == |scanner.data|) ==>
        r == Failure(UnexpectedEof) && scanner.View() == old(scanner.View()) && remaining == old(remaining)
      ensures old(remaining) > 0 && limit > 0 && old(scanner.cursor) < |scanner.data| ==>
        && r.Success? && 0 < |r.value| <= limit
        && scanner.cursor == old(scanner.cursor) + |r.value| && remaining == old(remaining) - |r.value|
        && r.value == scanner.data[old(scanner.cursor)..scanner.cursor]
        && scanner.position == (if remaining == 0 then frameStart + HEADER_LEN + payloadLen else old(scanner.position))
    {
      if remaining == 0 {
        return Success([]);
      }
      var most := if remaining < limit then remaining else limit;
      if most == 0 {
        return Failure(UnexpectedEof);
      }
      var bytes := scanner.ReadSome(most);
      if bytes == [] {
        return Failure(UnexpectedEof);
      }
      remaining := remaining - |bytes|;
      if remaining == 0 {
        scanner.position := frameStart + HEADER_LEN + payloadLen;
      }
      r := Success(bytes);
    }

    /** Dropping the reader skips what is left and moves the position past the frame, if anything was left. */
    method Drop()
      requires scanner.cursor <= |scanner.data|
      modifies scanner`cursor, scanner`position
      ensures scanner.cursor == Min(|scanner.data|, old(scanner.cursor) + remaining)
      ensures scanner.position == if remaining > 0 then frameStart + HEADER_LEN + payloadLen else old(scanner.position)
    {
      if remaining > 0 {
        scanner.cursor := Min(|scanner.data|, scanner.cursor + remaining);
        scanner.position := frameStart + HEADER_LEN + payloadLen;
      }
    }

    /** A caller reading the whole payload. */
    method ReadToEnd() returns (r: Result<seq<byte>, ReadError>)
      requires scanner.cursor <= |scanner.data| && remaining == payloadLen && scanner.position == frameStart
      modifies this`remaining, scanner`cursor, scanner`position
      ensures old(scanner.cursor) + payloadLen <= |scanner.data| ==>
        && r == Success(scanner.data[old(scanner.cursor)..old(scanner.cursor) + payloadLen])
        && remaining == 0 && scanner.cursor == old(scanner.cursor) + payloadLen
        && scanner.position == (if payloadLen == 0 then frameStart else frameStart + HEADER_LEN + payloadLen)
      ensures old(scanner.cursor) + payloadLen > |scanner.data| ==> r == Failure(UnexpectedEof)
      ensures scanner.cursor <= |scanner.data|
    {
      ghost var first := scanner.cursor;
      var got: seq<byte> := [];
      while remaining > 0
        invariant first <= scanner.cursor <= |scanner.data| && got == scanner.data[first..scanner.cursor]
        invariant remaining == first + payloadLen - scanner.cursor
        invariant scanner.position == if remaining == 0 && payloadLen > 0 then frameStart + HEADER_LEN + payloadLen else frameStart
      {
        var chunk :- Read(remaining);
        got := got + chunk;
      }
      r := Success(got);
    }
  }

  function Min(a: nat, b: nat): nat {
    if a < b then a else b
  }

  // ── One step of each walk ───────────────────────────────────────────────────

  lemma CheckingWhole(s: ScannerState)
    requires s.Ok() && s.Boundary() + HEADER_LEN <= |s.data|
    ensures var h, body := HeaderAt(s.data, s.Boundary()), s.Boundary() + HEADER_LEN;
      Checking(s) ==
        if |s.data| < body + h.len then Did(Failure(Truncated(s.position)), s.Stopped())
        else if CHECKSUM(h.id, s.data[body..body + h.len]) != h.sum then
          Did(Failure(ChecksumMismatch(s.position)), s.MovedTo(body + h.len))
        else Did(Success(Some((h.id, s.position))), s.MovedTo(body + h.len))
  {
  }

  lemma SeekingUnfolds(s: ScannerState, target: EntryId)
    requires s.Ok()
    ensures s.Boundary() == |s.data| ==> Seeking(s, target) == Did(Success(()), s)
    ensures s.Boundary() < |s.data| < s.Boundary() + HEADER_LEN ==>
      Seeking(s, target) == Did(Failure(Truncated(s.position)), s.Stopped())
    ensures s.Boundary() + HEADER_LEN <= |s.data| ==>
      var h, body := HeaderAt(s.data, s.Boundary()), s.Boundary() + HEADER_LEN;
      Seeking(s, target) ==
        if h.id >= target then Did(Success(()), ScannerState(s.data, body, s.position, Some(Peeked(h, s.position))))
        else if |s.data| < body + h.len then Did(Failure(Truncated(s.position)), s.Stopped())
        else Seeking(s.MovedTo(body + h.len), target)
  {
  }

  lemma AfterUnfolds(s: ScannerState, target: EntryId)
    requires s.Ok()
    ensures |s.data| < s.Boundary() + HEADER_LEN ==>
      ScanningAfter(s, target) == Did(Failure(Truncated(s.position)), s.Stopped())
    ensures s.Boundary() + HEADER_LEN <= |s.data| ==>
      var h, body := HeaderAt(s.data, s.Boundary()), s.Boundary() + HEADER_LEN;
      ScanningAfter(s, target) ==
        if |s.data| < body + h.len then Did(Failure(Truncated(s.position)), s.Stopped())
        else if h.id == target then Did(Success(s.MovedTo(body + h.len).position), s.MovedTo(body + h.len))
        else ScanningAfter(s.MovedTo(body + h.len), target)
  {
  }

  lemma WalkUnfolds(data: seq<byte>, c: nat)
    requires c <= |data|
    ensures CheckAt(data, c).AtEnd? ==> Walk(data, c) == Walked([], c, Clean)
    ensures CheckAt(data, c).Torn? ==> Walk(data, c) == Walked([], c, TornTail)
    ensures CheckAt(data, c).Corrupt? ==> Walk(data, c) == Walked([], c, ChecksumCorrupt)
    ensures CheckAt(data, c).Good? ==>
      var g := CheckAt(data, c);
      && c + HEADER_LEN + |g.frame.payload| == g.next <= |data|
      && Walk(data, c) == Walked([g.frame] + Walk(data, g.next).frames, Walk(data, g.next).end, Walk(data, g.next).status)
  {
  }

  lemma NothingScanned(base: nat, stride: nat)
    requires stride > 0
    ensures SizeOf([]) == 0 && CheckpointsOf([], base, stride, 0) == []
  {
  }

  lemma {:induction false} CheckpointsSame(fs: seq<Frame>, f: Frame, base: nat, stride: nat, n: nat)
    requires stride > 0 && n <= |fs|
    ensures CheckpointsOf(fs + [f], base, stride, n) == CheckpointsOf(fs, base, stride, n)
  {
    if n > 0 {
      CheckpointsSame(fs, f, base, stride, n - 1);
      assert (fs + [f])[..n - 1] == fs[..n - 1];
    }
  }

  lemma OneMoreScanned(fs: seq<Frame>, f: Frame, base: nat, stride: nat)
    requires stride > 0
    ensures SizeOf(fs + [f]) == SizeOf(fs) + HEADER_LEN + |f.payload| && LastOf(fs + [f]) == Some(f.id)
    ensures CheckpointsOf(fs + [f], base, stride, |fs| + 1) ==
      CheckpointsOf(fs, base, stride, |fs|) + if |fs| % stride == 0 then [Checkpoint(f.id, base + SizeOf(fs))] else []
  {
    var all := fs + [f];
    assert all[..|fs|] == fs && all[|fs|] == f && all[..|fs| + 1] == all;
    SizeOfStep(all, |fs|);
    CheckpointsSame(fs, f, base, stride, |fs|);
  }
}
