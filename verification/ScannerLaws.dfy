/** What a scanner reports, and how far its positions can be trusted. */
module ScannerLaws {
  import opened Basics
  import opened Frames
  import opened State
  import opened World
  import opened Reading
  import opened Scanner

  // ── Commands and runs ───────────────────────────────────────────────────────

  datatype Command = DoCheck | DoSeek(target: EntryId) | DoScanAfter(target: EntryId)

  /** What a caller sees of one command, offsets included. */
  datatype Report = Ended | Saw(id: EntryId, offset: int) | Sought | After(offset: int) | BadChecksum(offset: int) | Cut(offset: int)

  function Perform(s: ScannerState, c: Command): (r: (Report, ScannerState))
    requires s.Ok()
    ensures r.1.Ok()
  {
    match c
    case DoCheck =>
      var d := Checking(s);
      (match d.answer
       case Success(None) => Ended
       case Success(Some(found)) => Saw(found.0, found.1)
       case Failure(e) => Failed(e), d.after)
    case DoSeek(target) =>
      var d := Seeking(s, target);
      (match d.answer case Success(_) => Sought case Failure(e) => Failed(e), d.after)
    case DoScanAfter(target) =>
      var d := ScanningAfter(s, target);
      (match d.answer case Success(offset) => After(offset) case Failure(e) => Failed(e), d.after)
  }

  function Failed(e: ScanError): Report {
    match e
    case Truncated(offset) => Cut(offset)
    case ChecksumMismatch(offset) => BadChecksum(offset)
  }

  /** The reports of a run, up to and including the first frame cut short. */
  function Reports(s: ScannerState, cs: seq<Command>): seq<Report>
    requires s.Ok()
    decreases |cs|
  {
    if cs == [] then []
    else
      var (report, after) := Perform(s, cs[0]);
      [report] + if report.Cut? then [] else Reports(after, cs[1..])
  }

  function Reached(s: ScannerState, cs: seq<Command>): (r: ScannerState)
    requires s.Ok()
    ensures r.Ok()
    decreases |cs|
  {
    if cs == [] then s
    else
      var (report, after) := Perform(s, cs[0]);
      if report.Cut? then after else Reached(after, cs[1..])
  }

  // ── Drift ───────────────────────────────────────────────────────────────────

  /** How far the position is ahead of the true offset. */
  function Drift(s: ScannerState): int
    requires s.Ok()
  {
    s.position - s.Boundary()
  }

  /** The same reader with its position where its boundary is. */
  function Aligned(s: ScannerState): (r: ScannerState)
    requires s.Ok()
    ensures r.Ok() && r.Boundary() == s.Boundary() && Drift(r) == 0
  {
    var c := s.Boundary();
    if s.peeked.Some? then ScannerState(s.data, s.cursor, c, Some(Peeked(s.peeked.value.header, c)))
    else ScannerState(s.data, s.cursor, c, None)
  }

  function Shifted(r: Report, ahead: int): Report {
    match r
    case Saw(id, offset) => Saw(id, offset + ahead)
    case After(offset) => After(offset + ahead)
    case BadChecksum(offset) => BadChecksum(offset + ahead)
    case Cut(offset) => Cut(offset + ahead)
    case _ => r
  }

  function AllShifted(rs: seq<Report>, ahead: int): seq<Report> {
    if rs == [] then [] else [Shifted(rs[0], ahead)] + AllShifted(rs[1..], ahead)
  }

  lemma AlignedMoved(s: ScannerState, next: nat)
    requires s.Ok() && s.Boundary() <= next <= |s.data|
    ensures var m := s.MovedTo(next);
      m.Ok() && m.Boundary() == next && Drift(m) == Drift(s) && Aligned(m) == Aligned(s).MovedTo(next)
  {
  }

  ghost predicate SameButShifted(s: ScannerState, c: Command)
    requires s.Ok()
  {
    var a := Aligned(s);
    && Perform(s, c).0 == Shifted(Perform(a, c).0, Drift(s))
    && (!Perform(s, c).0.Cut? ==> Drift(Perform(s, c).1) == Drift(s) && Aligned(Perform(s, c).1) == Perform(a, c).1)
  }

  lemma CheckDrift(s: ScannerState)
    requires s.Ok()
    ensures SameButShifted(s, DoCheck)
  {
    hide CheckAt, HeaderAt;
    match CheckAt(s.data, s.Boundary())
    case Corrupt(next) =>
      CheckInside(s.data, s.Boundary());
      AlignedMoved(s, next);
    case Good(_, next) =>
      CheckInside(s.data, s.Boundary());
      AlignedMoved(s, next);
    case _ =>
  }

  lemma CheckInside(data: seq<byte>, c: nat)
    requires c <= |data|
    ensures CheckAt(data, c).Corrupt? ==> c <= CheckAt(data, c).next <= |data|
    ensures CheckAt(data, c).Good? ==> c <= CheckAt(data, c).next <= |data|
  {
  }

  lemma {:induction false} SeekDrift(s: ScannerState, target: EntryId)
    requires s.Ok()
    ensures SameButShifted(s, DoSeek(target))
    decreases |s.data| - s.Boundary()
  {
    hide HeaderAt, Seeking;
    SeekingUnfolds(s, target);
    SeekingUnfolds(Aligned(s), target);
    var c := s.Boundary();
    if c + HEADER_LEN <= |s.data| {
      var h := HeaderAt(s.data, c);
      var next := c + HEADER_LEN + h.len;
      if h.id < target && next <= |s.data| {
        AlignedMoved(s, next);
        SeekDrift(s.MovedTo(next), target);
      }
    }
  }

  lemma {:induction false} AfterDrift(s: ScannerState, target: EntryId)
    requires s.Ok()
    ensures SameButShifted(s, DoScanAfter(target))
    decreases |s.data| - s.Boundary()
  {
    hide HeaderAt, ScanningAfter;
    AfterUnfolds(s, target);
    AfterUnfolds(Aligned(s), target);
    var c := s.Boundary();
    if c + HEADER_LEN <= |s.data| {
      var h := HeaderAt(s.data, c);
      var next := c + HEADER_LEN + h.len;
      if next <= |s.data| {
        AlignedMoved(s, next);
        if h.id != target {
          AfterDrift(s.MovedTo(next), target);
        }
      }
    }
  }

  lemma StepDrift(s: ScannerState, c: Command)
    requires s.Ok()
    ensures SameButShifted(s, c)
  {
    hide Perform;
    match c
    case DoCheck => CheckDrift(s);
    case DoSeek(target) => SeekDrift(s, target);
    case DoScanAfter(target) => AfterDrift(s, target);
  }

  /** Scanner drift.  Any run of `check`, `seek_to_id` and `scan_to_after` visits the frames that its reader's
      boundary determines; every offset it reports is the true one shifted by how far the position was ahead at
      the start, and that difference never changes until a frame cut short ends the run. */
  lemma {:induction false} RunDrift(s: ScannerState, cs: seq<Command>)
    requires s.Ok()
    ensures Reports(s, cs) == AllShifted(Reports(Aligned(s), cs), Drift(s))
    ensures (forall r :: r in Reports(s, cs) ==> !r.Cut?) ==>
      Drift(Reached(s, cs)) == Drift(s) && Aligned(Reached(s, cs)) == Reached(Aligned(s), cs)
    decreases |cs|
  {
    hide Perform, Aligned;
    if cs != [] {
      StepDrift(s, cs[0]);
      var (report, after) := Perform(s, cs[0]);
      var (report', after') := Perform(Aligned(s), cs[0]);
      if report.Cut? {
        assert [report'][1..] == [];
        assert [report'] + [] == [report'] && [report] + [] == [report];
        assert report in Reports(s, cs);
      } else {
        RunDrift(after, cs[1..]);
        var rest := Reports(after', cs[1..]);
        assert ([report'] + rest)[1..] == rest;
        assert Reports(s, cs) == [report] + Reports(after, cs[1..]);
      }
    }
  }

  // ── Agreement with the walks over bytes ─────────────────────────────────────

  /** `scan_to_after` finds the same frame as a walk over the bytes, and reports its end shifted by the drift: the
      offset is true exactly when the scanner started without drift. */
  lemma {:induction false} AfterAgrees(s: ScannerState, target: EntryId)
    requires s.Ok()
    ensures var d, e := ScanningAfter(s, target), AfterFrom(s.data, s.Boundary(), target);
      && (d.answer.Success? <==> e.Some?)
      && (e.Some? ==> d.answer.value == e.value + Drift(s))
      && (e.Some? ==> (d.answer.value == e.value <==> Drift(s) == 0))
    decreases |s.data| - s.Boundary()
  {
    hide HeaderAt, ScanningAfter;
    AfterUnfolds(s, target);
    var c := s.Boundary();
    if c + HEADER_LEN <= |s.data| {
      var h := HeaderAt(s.data, c);
      var next := c + HEADER_LEN + h.len;
      if next <= |s.data| && h.id != target {
        AlignedMoved(s, next);
        AfterAgrees(s.MovedTo(next), target);
      }
    }
  }

  /** `seek_to_id` leaves the reader in front of the frame the byte walk names, whatever the position says. */
  lemma {:induction false} SeekAgrees(s: ScannerState, target: EntryId)
    requires s.Ok()
    ensures var d, e := Seeking(s, target), SeekFrom(s.data, s.Boundary(), target);
      && (d.answer.Success? <==> e.Some?)
      && (e.Some? ==> d.after.Boundary() == e.value && d.after.data == s.data)
    decreases |s.data| - s.Boundary()
  {
    hide HeaderAt, Seeking;
    SeekingUnfolds(s, target);
    var c := s.Boundary();
    if c + HEADER_LEN <= |s.data| {
      var h := HeaderAt(s.data, c);
      var next := c + HEADER_LEN + h.len;
      if next <= |s.data| && h.id < target {
        AlignedMoved(s, next);
        SeekAgrees(s.MovedTo(next), target);
      }
    }
  }

  // ── Reading payloads ────────────────────────────────────────────────────────

  /** The scanner after a frame whose payload was read to its end. */
  function Consumed(s: ScannerState): (r: ScannerState)
    requires s.Ok() && s.Boundary() + HEADER_LEN <= |s.data|
    requires s.Boundary() + HEADER_LEN + HeaderAt(s.data, s.Boundary()).len <= |s.data|
    ensures r.Ok()
  {
    var len := HeaderAt(s.data, s.Boundary()).len;
    ScannerState(s.data, s.Boundary() + HEADER_LEN + len,
                 if len == 0 then s.position else s.position + HEADER_LEN + len, None)
  }

  /** `read` and a reader driven to its end. */
  method ReadWhole(scanner: FrameScanner) returns (payload: seq<byte>)
    requires scanner.View().Ok() && scanner.View().Boundary() + HEADER_LEN <= |scanner.data|
    requires var c := scanner.View().Boundary(); c + HEADER_LEN + HeaderAt(scanner.data, c).len <= |scanner.data|
    modifies scanner
    ensures scanner.View() == Consumed(old(scanner.View()))
    ensures payload == scanner.data[old(scanner.View().Boundary()) + HEADER_LEN..scanner.cursor]
  {
    var r := scanner.Read();
    var f := r.value.value;
    var got := f.ReadToEnd();
    f.Drop();
    payload := got.value;
  }

  /** Reading keeps the position in step with the reader if and only if the payload is not empty: an empty payload
      leaves it a whole header behind. */
  lemma ReadKeepsDriftIff(s: ScannerState)
    requires s.Ok() && s.Boundary() + HEADER_LEN <= |s.data|
    requires s.Boundary() + HEADER_LEN + HeaderAt(s.data, s.Boundary()).len <= |s.data|
    ensures Drift(Consumed(s)) == Drift(s) <==> HeaderAt(s.data, s.Boundary()).len > 0
    ensures HeaderAt(s.data, s.Boundary()).len == 0 ==> Drift(Consumed(s)) == Drift(s) - HEADER_LEN
  {
    hide HeaderAt;
  }
}
