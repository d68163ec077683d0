/** Manifest records as lists of tagged fields, and the container that turns such lists into bytes. */
module Codec {
  import opened Basics
  import opened State

  type Tag = x: int | 0 <= x < 0x1_0000

  datatype Field =
    | U8(tag: Tag, small: byte)
    | U32(tag: Tag, word: u32)
    | U64(tag: Tag, long: u64)
    | Data(tag: Tag, bytes: seq<byte>)
    | Sub(tag: Tag, fields: seq<Field>)

  const TAG_OP_TYPE: Tag := 1
  const TAG_SEGMENT_ID: Tag := 2
  const TAG_FIRST_ENTRY: Tag := 3
  const TAG_LAST_ENTRY: Tag := 4
  const TAG_ENTRY_COUNT: Tag := 5
  const TAG_FINAL_SIZE: Tag := 6
  const TAG_NEW_SEGMENT_ID: Tag := 7
  const TAG_NEW_FIRST_ENTRY: Tag := 8
  const TAG_BYTE_OFFSET: Tag := 9
  const TAG_DROP_ID: Tag := 10
  const TAG_META: Tag := 11
  const TAG_META_KEY: Tag := 1
  const TAG_META_VALUE: Tag := 2

  const OP_CREATE_SEGMENT: byte := 1
  const OP_ROLL_SEGMENT: byte := 2
  const OP_TRUNCATE_START: byte := 3
  const OP_TRUNCATE_END: byte := 4
  const OP_SEGMENT_DELETED: byte := 5
  const OP_RECORD_ORPHAN: byte := 6
  const OP_META: byte := 7

  // ── Encoding ────────────────────────────────────────────────────────────────

  function DropFields(drop: seq<SegmentId>): seq<Field> {
    if drop == [] then [] else [U32(TAG_DROP_ID, drop[0])] + DropFields(drop[1..])
  }

  function MetaField(p: Pair): Field {
    Sub(TAG_META, [U8(TAG_META_KEY, p.0), Data(TAG_META_VALUE, p.1)])
  }

  function MetaFields(meta: seq<Pair>): seq<Field> {
    if meta == [] then [] else [MetaField(meta[0])] + MetaFields(meta[1..])
  }

  /** The scalar fields of an operation, discriminator first; dropped ids and metadata follow them. */
  function Scalars(op: Op): seq<Field> {
    match op
    case CreateSegment(id, first) =>
      [U8(TAG_OP_TYPE, OP_CREATE_SEGMENT), U32(TAG_SEGMENT_ID, id), U64(TAG_FIRST_ENTRY, first)]
    case RollSegment(sealed, first, last, count, size, newId, newFirst) =>
      [U8(TAG_OP_TYPE, OP_ROLL_SEGMENT), U32(TAG_SEGMENT_ID, sealed), U64(TAG_FIRST_ENTRY, first),
       U64(TAG_LAST_ENTRY, last), U32(TAG_ENTRY_COUNT, count), U64(TAG_FINAL_SIZE, size),
       U32(TAG_NEW_SEGMENT_ID, newId), U64(TAG_NEW_FIRST_ENTRY, newFirst)]
    case TruncateStart(first, _) =>
      [U8(TAG_OP_TYPE, OP_TRUNCATE_START), U64(TAG_FIRST_ENTRY, first)]
    case TruncateEnd(target, offset, _) =>
      [U8(TAG_OP_TYPE, OP_TRUNCATE_END), U32(TAG_NEW_SEGMENT_ID, target), U64(TAG_BYTE_OFFSET, offset)]
    case SegmentDeleted(id) => [U8(TAG_OP_TYPE, OP_SEGMENT_DELETED), U32(TAG_SEGMENT_ID, id)]
    case RecordOrphan(id) => [U8(TAG_OP_TYPE, OP_RECORD_ORPHAN), U32(TAG_SEGMENT_ID, id)]
    case Metadata => [U8(TAG_OP_TYPE, OP_META)]
  }

  function Drops(op: Op): seq<SegmentId> {
    if op.TruncateStart? || op.TruncateEnd? then op.drop else []
  }

  function Fields(entry: ManifestOp): seq<Field> {
    Scalars(entry.op) + DropFields(Drops(entry.op)) + MetaFields(entry.meta)
  }

  /** `ManifestOp::encode`: the buffer is filled field by field. */
  method EncodeFields(entry: ManifestOp) returns (buf: seq<Field>)
    ensures buf == Fields(entry)
  {
    buf := Scalars(entry.op);
    var drop := Drops(entry.op);
    var i := 0;
    while i < |drop|
      invariant 0 <= i <= |drop|
      invariant buf + DropFields(drop[i..]) == Scalars(entry.op) + DropFields(drop)
    {
      buf := buf + [U32(TAG_DROP_ID, drop[i])];
      i := i + 1;
    }
    assert buf == Scalars(entry.op) + DropFields(drop);
    i := 0;
    while i < |entry.meta|
      invariant 0 <= i <= |entry.meta|
      invariant buf + MetaFields(entry.meta[i..]) == Fields(entry)
    {
      buf := buf + [MetaField(entry.meta[i])];
      i := i + 1;
    }
  }

  // ── Decoding ────────────────────────────────────────────────────────────────

  datatype DecodeError = UnknownOpType(op: byte) | Format

  function Find(fields: seq<Field>, tag: Tag): Option<Field> {
    if fields == [] then None
    else if fields[0].tag == tag then Some(fields[0])
    else Find(fields[1..], tag)
  }

  function GetU8(fields: seq<Field>, tag: Tag): Result<byte, DecodeError> {
    var f := Find(fields, tag);
    if f.Some? && f.value.U8? then Success(f.value.small) else Failure(Format)
  }

  function GetU32(fields: seq<Field>, tag: Tag): Result<u32, DecodeError> {
    var f := Find(fields, tag);
    if f.Some? && f.value.U32? then Success(f.value.word) else Failure(Format)
  }

  function GetU64(fields: seq<Field>, tag: Tag): Result<u64, DecodeError> {
    var f := Find(fields, tag);
    if f.Some? && f.value.U64? then Success(f.value.long) else Failure(Format)
  }

  function GetData(fields: seq<Field>, tag: Tag): Result<seq<byte>, DecodeError> {
    var f := Find(fields, tag);
    if f.Some? && f.value.Data? then Success(f.value.bytes) else Failure(Format)
  }

  function GetU32s(fields: seq<Field>, tag: Tag): Result<seq<u32>, DecodeError> {
    if fields == [] then Success([])
    else if fields[0].tag != tag then GetU32s(fields[1..], tag)
    else if !fields[0].U32? then Failure(Format)
    else
      var rest :- GetU32s(fields[1..], tag);
      Success([fields[0].word] + rest)
  }

  function GetPair(fields: seq<Field>): Result<Pair, DecodeError> {
    var key :- GetU8(fields, TAG_META_KEY);
    var value :- GetData(fields, TAG_META_VALUE);
    Success((key, value))
  }

  function GetMeta(fields: seq<Field>): Result<seq<Pair>, DecodeError> {
    if fields == [] then Success([])
    else if fields[0].tag != TAG_META then GetMeta(fields[1..])
    else if !fields[0].Sub? then Failure(Format)
    else
      var pair :- GetPair(fields[0].fields);
      var rest :- GetMeta(fields[1..]);
      Success([pair] + rest)
  }

  function DecodeOp(fields: seq<Field>): Result<Op, DecodeError> {
    var kind :- GetU8(fields, TAG_OP_TYPE);
    if kind == OP_CREATE_SEGMENT then
      var id :- GetU32(fields, TAG_SEGMENT_ID);
      var first :- GetU64(fields, TAG_FIRST_ENTRY);
      Success(CreateSegment(id, first))
    else if kind == OP_ROLL_SEGMENT then
      var sealed :- GetU32(fields, TAG_SEGMENT_ID);
      var first :- GetU64(fields, TAG_FIRST_ENTRY);
      var last :- GetU64(fields, TAG_LAST_ENTRY);
      var count :- GetU32(fields, TAG_ENTRY_COUNT);
      var size :- GetU64(fields, TAG_FINAL_SIZE);
      var newId :- GetU32(fields, TAG_NEW_SEGMENT_ID);
      var newFirst :- GetU64(fields, TAG_NEW_FIRST_ENTRY);
      Success(RollSegment(sealed, first, last, count, size, newId, newFirst))
    else if kind == OP_TRUNCATE_START then
      var first :- GetU64(fields, TAG_FIRST_ENTRY);
      var drop :- GetU32s(fields, TAG_DROP_ID);
      Success(TruncateStart(first, drop))
    else if kind == OP_TRUNCATE_END then
      var target :- GetU32(fields, TAG_NEW_SEGMENT_ID);
      var offset :- GetU64(fields, TAG_BYTE_OFFSET);
      var drop :- GetU32s(fields, TAG_DROP_ID);
      Success(TruncateEnd(target, offset, drop))
    else if kind == OP_SEGMENT_DELETED then
      var id :- GetU32(fields, TAG_SEGMENT_ID);
      Success(SegmentDeleted(id))
    else if kind == OP_RECORD_ORPHAN then
      var id :- GetU32(fields, TAG_SEGMENT_ID);
      Success(RecordOrphan(id))
    else if kind == OP_META then Success(Metadata)
    else Failure(UnknownOpType(kind))
  }

  function Decode(fields: seq<Field>): Result<ManifestOp, DecodeError> {
    var op :- DecodeOp(fields);
    var meta :- GetMeta(fields);
    Success(ManifestOp(op, meta))
  }

  // ── Round trip, with unknown fields inserted anywhere ───────────────────────

  /** Drop every field whose tag the reader does not know, inside metadata sub-frames too. */
  function Strip(fields: seq<Field>): seq<Field> {
    if fields == [] then []
    else
      var f := fields[0];
      var rest := Strip(fields[1..]);
      if !(TAG_OP_TYPE <= f.tag <= TAG_META) then rest
      else if f.tag == TAG_META && f.Sub? then [Sub(f.tag, StripPair(f.fields))] + rest
      else [f] + rest
  }

  function StripPair(fields: seq<Field>): seq<Field> {
    if fields == [] then []
    else if fields[0].tag == TAG_META_KEY || fields[0].tag == TAG_META_VALUE then
      [fields[0]] + StripPair(fields[1..])
    else StripPair(fields[1..])
  }

  lemma {:induction false} FindInStripPair(fields: seq<Field>, tag: Tag)
    requires tag == TAG_META_KEY || tag == TAG_META_VALUE
    ensures Find(StripPair(fields), tag) == Find(fields, tag)
  {
    if fields != [] {
      FindInStripPair(fields[1..], tag);
      assert StripPair(fields) == StripPair(fields[1..])
        || StripPair(fields)[1..] == StripPair(fields[1..]);
    }
  }

  lemma {:induction false} FindInStrip(fields: seq<Field>, tag: Tag)
    requires TAG_OP_TYPE <= tag < TAG_META
    ensures Find(Strip(fields), tag) == Find(fields, tag)
  {
    if fields != [] {
      FindInStrip(fields[1..], tag);
      assert Strip(fields) == Strip(fields[1..]) || Strip(fields)[1..] == Strip(fields[1..]);
    }
  }

  lemma {:induction false} DropsInStrip(fields: seq<Field>)
    ensures GetU32s(Strip(fields), TAG_DROP_ID) == GetU32s(fields, TAG_DROP_ID)
  {
    if fields != [] {
      DropsInStrip(fields[1..]);
      assert Strip(fields) == Strip(fields[1..]) || Strip(fields)[1..] == Strip(fields[1..]);
    }
  }

  lemma {:induction false} MetaInStrip(fields: seq<Field>)
    ensures GetMeta(Strip(fields)) == GetMeta(fields)
  {
    if fields != [] {
      MetaInStrip(fields[1..]);
      assert Strip(fields) == Strip(fields[1..]) || Strip(fields)[1..] == Strip(fields[1..]);
      if fields[0].tag == TAG_META && fields[0].Sub? {
        FindInStripPair(fields[0].fields, TAG_META_KEY);
        FindInStripPair(fields[0].fields, TAG_META_VALUE);
        assert GetPair(StripPair(fields[0].fields)) == GetPair(fields[0].fields);
      }
    }
  }

  /** A reader sees the same record whether or not fields with unknown tags are present. */
  lemma DecodeIgnoresUnknown(fields: seq<Field>)
    ensures Decode(Strip(fields)) == Decode(fields)
  {
    hide Strip, Find, GetU32s, GetMeta;
    forall tag: Tag | TAG_OP_TYPE <= tag < TAG_META
      ensures Find(Strip(fields), tag) == Find(fields, tag)
    {
      FindInStrip(fields, tag);
    }
    DropsInStrip(fields);
    MetaInStrip(fields);
  }

  lemma {:induction false} FindSkips(a: seq<Field>, b: seq<Field>, tag: Tag)
    ensures Find(a + b, tag) == if Find(a, tag).Some? then Find(a, tag) else Find(b, tag)
  {
    if a == [] {
      assert a + b == b;
    } else {
      assert (a + b)[1..] == a[1..] + b;
      FindSkips(a[1..], b, tag);
    }
  }

  lemma {:induction false} GetU32sConcat(a: seq<Field>, b: seq<Field>, tag: Tag)
    requires GetU32s(a, tag).Success? && GetU32s(b, tag).Success?
    ensures GetU32s(a + b, tag) == Success(GetU32s(a, tag).value + GetU32s(b, tag).value)
  {
    if a == [] {
      assert a + b == b && [] + GetU32s(b, tag).value == GetU32s(b, tag).value;
    } else {
      assert (a + b)[1..] == a[1..] + b;
      GetU32sConcat(a[1..], b, tag);
      var xs, ys := GetU32s(a[1..], tag).value, GetU32s(b, tag).value;
      if a[0].tag == tag {
        assert ([a[0].word] + xs) + ys == [a[0].word] + (xs + ys);
      }
    }
  }

  lemma {:induction false} GetMetaSkips(a: seq<Field>, b: seq<Field>)
    requires forall f :: f in a ==> f.tag != TAG_META
    ensures GetMeta(a + b) == GetMeta(b)
  {
    if a == [] {
      assert a + b == b;
    } else {
      assert (a + b)[1..] == a[1..] + b;
      GetMetaSkips(a[1..], b);
    }
  }

  lemma {:induction false} DropsDecode(drop: seq<SegmentId>)
    ensures GetU32s(DropFields(drop), TAG_DROP_ID) == Success(drop)
    ensures forall f :: f in DropFields(drop) ==> f.tag == TAG_DROP_ID
  {
    if drop != [] {
      DropsDecode(drop[1..]);
      assert DropFields(drop)[1..] == DropFields(drop[1..]);
      assert [drop[0]] + drop[1..] == drop;
    }
  }

  lemma {:induction false} MetaDecode(meta: seq<Pair>)
    ensures GetMeta(MetaFields(meta)) == Success(meta)
    ensures GetU32s(MetaFields(meta), TAG_DROP_ID) == Success([])
    ensures forall f :: f in MetaFields(meta) ==> f.tag == TAG_META
  {
    if meta != [] {
      MetaDecode(meta[1..]);
      assert MetaFields(meta)[1..] == MetaFields(meta[1..]);
      assert [meta[0]] + meta[1..] == meta;
      var fs := MetaField(meta[0]).fields;
      assert Find(fs, TAG_META_KEY) == Some(fs[0]);
      assert Find(fs, TAG_META_VALUE) == Find(fs[1..], TAG_META_VALUE) == Some(fs[1]);
    }
  }

  lemma FindScalar(op: Op, tag: Tag, rest: seq<Field>, i: nat)
    requires i < |Scalars(op)| && Scalars(op)[i].tag == tag
    ensures Find(Scalars(op) + rest, tag) == Some(Scalars(op)[i])
  {
    ScalarTags(op);
    hide Scalars, Find;
    FindSkips(Scalars(op), rest, tag);
    FindAscending(Scalars(op), i);
  }

  lemma {:induction false} FindAscending(fs: seq<Field>, i: nat)
    requires i < |fs|
    requires forall j :: 0 <= j < |fs| - 1 ==> fs[j].tag < fs[j + 1].tag
    ensures Find(fs, fs[i].tag) == Some(fs[i])
    ensures i > 0 ==> fs[0].tag < fs[i].tag
  {
    if i > 0 {
      FindAscending(fs[1..], i - 1);
      assert fs[0].tag < fs[0 + 1].tag;
    }
  }

  lemma ScalarsFound(op: Op, rest: seq<Field>)
    ensures forall i :: 0 <= i < |Scalars(op)| ==>
      Find(Scalars(op) + rest, Scalars(op)[i].tag) == Some(Scalars(op)[i])
  {
    forall i | 0 <= i < |Scalars(op)|
      ensures Find(Scalars(op) + rest, Scalars(op)[i].tag) == Some(Scalars(op)[i])
    {
      FindScalar(op, Scalars(op)[i].tag, rest, i);
    }
  }

  lemma ScalarTags(op: Op)
    ensures forall f :: f in Scalars(op) ==> f.tag != TAG_DROP_ID && f.tag != TAG_META
    ensures forall j :: 0 <= j < |Scalars(op)| - 1 ==> Scalars(op)[j].tag < Scalars(op)[j + 1].tag
  {
  }

  lemma DropsFound(entry: ManifestOp)
    ensures GetU32s(Fields(entry), TAG_DROP_ID) == Success(Drops(entry.op))
  {
    var s, d, m := Scalars(entry.op), DropFields(Drops(entry.op)), MetaFields(entry.meta);
    DropsDecode(Drops(entry.op));
    MetaDecode(entry.meta);
    ScalarTags(entry.op);
    NoDrops(s);
    hide Scalars, GetU32s;
    GetU32sConcat(s, d, TAG_DROP_ID);
    assert [] + Drops(entry.op) == Drops(entry.op);
    GetU32sConcat(s + d, m, TAG_DROP_ID);
    assert Drops(entry.op) + [] == Drops(entry.op);
  }

  lemma {:induction false} NoDrops(fs: seq<Field>)
    requires forall f :: f in fs ==> f.tag != TAG_DROP_ID
    ensures GetU32s(fs, TAG_DROP_ID) == Success([])
  {
    if fs != [] {
      NoDrops(fs[1..]);
    }
  }

  lemma MetaFound(entry: ManifestOp)
    ensures GetMeta(Fields(entry)) == Success(entry.meta)
  {
    ScalarTags(entry.op);
    hide Scalars, GetMeta;
    var s, d := Scalars(entry.op), DropFields(Drops(entry.op));
    DropsDecode(Drops(entry.op));
    MetaDecode(entry.meta);
    GetMetaSkips(s + d, MetaFields(entry.meta));
  }

  lemma OpDecodes(op: Op, fields: seq<Field>)
    requires forall i :: 0 <= i < |Scalars(op)| ==> Find(fields, Scalars(op)[i].tag) == Some(Scalars(op)[i])
    requires GetU32s(fields, TAG_DROP_ID) == Success(Drops(op))
    ensures DecodeOp(fields) == Success(op)
  {
    hide Find, GetU32s;
    var s := Scalars(op);
    assert Find(fields, s[0].tag) == Some(s[0]);
    match op {
      case CreateSegment(_, _) =>
        assert Find(fields, s[1].tag) == Some(s[1]) && Find(fields, s[2].tag) == Some(s[2]);
      case RollSegment(_, _, _, _, _, _, _) =>
        assert Find(fields, s[1].tag) == Some(s[1]) && Find(fields, s[2].tag) == Some(s[2]);
        assert Find(fields, s[3].tag) == Some(s[3]) && Find(fields, s[4].tag) == Some(s[4]);
        assert Find(fields, s[5].tag) == Some(s[5]) && Find(fields, s[6].tag) == Some(s[6]);
        assert Find(fields, s[7].tag) == Some(s[7]);
      case TruncateStart(_, _) =>
        assert Find(fields, s[1].tag) == Some(s[1]);
      case TruncateEnd(_, _, _) =>
        assert Find(fields, s[1].tag) == Some(s[1]) && Find(fields, s[2].tag) == Some(s[2]);
      case SegmentDeleted(_) =>
        assert Find(fields, s[1].tag) == Some(s[1]);
      case RecordOrphan(_) =>
        assert Find(fields, s[1].tag) == Some(s[1]);
      case Metadata =>
    }
  }

  lemma OpFound(entry: ManifestOp)
    ensures DecodeOp(Fields(entry)) == Success(entry.op)
  {
    var rest := DropFields(Drops(entry.op)) + MetaFields(entry.meta);
    assert Fields(entry) == Scalars(entry.op) + rest;
    hide *;
    ScalarsFound(entry.op, rest);
    DropsFound(entry);
    OpDecodes(entry.op, Fields(entry));
  }

  /** Decoding returns the record that was encoded, drop order and metadata order included, even with fields
      of unknown tags inserted anywhere. */
  lemma DecodeEncoded(entry: ManifestOp, fields: seq<Field>)
    requires Strip(fields) == Strip(Fields(entry))
    ensures Decode(fields) == Success(entry)
  {
    DecodeIgnoresUnknown(fields);
    DecodeIgnoresUnknown(Fields(entry));
    OpFound(entry);
    MetaFound(entry);
  }

  // ── The byte container ──────────────────────────────────────────────────────

  /** A container turns field lists into bytes and back. */
  datatype RawContainer = RawContainer(pack: seq<Field> -> seq<byte>, parse: seq<byte> -> Option<seq<Field>>)

  predicate Numbers(fs: seq<Field>) {
    forall i :: 0 <= i < |fs| ==> fs[i].U8? || fs[i].U32? || fs[i].U64?
  }

  /** All that is used of the container format: parsing undoes packing, nothing packs to an empty payload, and
      a handful of numbers stays below the frame length limit. */
  ghost predicate Lawful(c: RawContainer) {
    && (forall fs :: c.parse(c.pack(fs)) == Some(fs))
    && c.parse([]) == None
    && (forall fs :: |fs| <= 8 && Numbers(fs) ==> |c.pack(fs)| < U32_LIMIT)
  }

  function PackField(f: Field): seq<byte> {
    BigEndian(f.tag, 2) +
    match f
    case U8(_, b) => [0, b]
    case U32(_, w) => [1] + BigEndian(w, 4)
    case U64(_, q) => [2] + BigEndian(q, 8)
    case Data(_, bytes) => [3] + PackBytes(bytes)
    case Sub(_, fields) => [4] + PackFields(fields)
  }

  function PackFields(fs: seq<Field>): (s: seq<byte>) {
    if fs == [] then [0] else [1] + PackField(fs[0]) + PackFields(fs[1..])
  }

  function PackBytes(bytes: seq<byte>): seq<byte> {
    if bytes == [] then [0] else [1, bytes[0]] + PackBytes(bytes[1..])
  }

  function ParseBytes(s: seq<byte>): (r: Option<(seq<byte>, seq<byte>)>)
    ensures r.Some? ==> |r.value.1| < |s|
  {
    if s == [] then None
    else if s[0] == 0 then Some(([], s[1..]))
    else if |s| < 2 then None
    else
      match ParseBytes(s[2..])
      case None => None
      case Some((bytes, rest)) => Some(([s[1]] + bytes, rest))
  }

  function ParseField(s: seq<byte>): (r: Option<(Field, seq<byte>)>)
    ensures r.Some? ==> |r.value.1| < |s|
    decreases |s|
  {
    if |s| < 3 then None
    else
      ValueBound(s[..2]);
      var tag: Tag := Value(s[..2]);
      var body := s[3..];
      if s[2] == 0 && |body| >= 1 then Some((U8(tag, body[0]), body[1..]))
      else if s[2] == 1 && |body| >= 4 then
        ValueBound(body[..4]);
        WidthLimits();
        Some((U32(tag, Value(body[..4])), body[4..]))
      else if s[2] == 2 && |body| >= 8 then
        ValueBound(body[..8]);
        WidthLimits();
        Some((U64(tag, Value(body[..8])), body[8..]))
      else if s[2] == 3 then
        match ParseBytes(body)
        case None => None
        case Some((bytes, rest)) => Some((Data(tag, bytes), rest))
      else if s[2] == 4 then
        match ParseFields(body)
        case None => None
        case Some((fields, rest)) => Some((Sub(tag, fields), rest))
      else None
  }

  function ParseFields(s: seq<byte>): (r: Option<(seq<Field>, seq<byte>)>)
    ensures r.Some? ==> |r.value.1| < |s|
    decreases |s|
  {
    if s == [] then None
    else if s[0] == 0 then Some(([], s[1..]))
    else
      match ParseField(s[1..])
      case None => None
      case Some((f, rest)) =>
        match ParseFields(rest)
        case None => None
        case Some((fs, rest')) => Some(([f] + fs, rest'))
  }

  lemma {:induction false} ParsePackedBytes(bytes: seq<byte>, rest: seq<byte>)
    ensures ParseBytes(PackBytes(bytes) + rest) == Some((bytes, rest))
  {
    var s := PackBytes(bytes) + rest;
    if bytes == [] {
      assert s[1..] == rest;
    } else {
      ParsePackedBytes(bytes[1..], rest);
      assert s[2..] == PackBytes(bytes[1..]) + rest;
      assert bytes == [bytes[0]] + bytes[1..];
    }
  }

  lemma TagFits()
    ensures Pow256(2) == 0x1_0000
  {
    assert Pow256(2) == 256 * (256 * Pow256(0));
  }

  lemma ParseNumber(s: seq<byte>)
    requires |s| >= 3 && Value(s[..2]) < 0x1_0000
    ensures var tag: Tag, body := Value(s[..2]), s[3..];
      && (s[2] == 0 && |body| >= 1 ==> ParseField(s) == Some((U8(tag, body[0]), body[1..])))
      && (s[2] == 1 && |body| >= 4 && Value(body[..4]) < U32_LIMIT ==>
            ParseField(s) == Some((U32(tag, Value(body[..4])), body[4..])))
      && (s[2] == 2 && |body| >= 8 && Value(body[..8]) < U64_LIMIT ==>
            ParseField(s) == Some((U64(tag, Value(body[..8])), body[8..])))
  {
    hide ParseBytes, ParseFields, Value, Pow256;
  }

  lemma ParsePackedNumber(f: Field, rest: seq<byte>)
    requires Numbers([f])
    ensures ParseField(PackField(f) + rest) == Some((f, rest))
  {
    assert [f][0] == f;
    hide ParseBytes, ParseFields, ParseField, BigEndian, Value, Pow256;
    var s := PackField(f) + rest;
    WidthLimits();
    TagFits();
    ValueOfBigEndian(f.tag, 2);
    assert s[..2] == BigEndian(f.tag, 2);
    var body := s[3..];
    ParseNumber(s);
    match f {
      case U8(_, b) =>
        assert body[1..] == rest;
      case U32(_, w) =>
        ValueOfBigEndian(w, 4);
        assert body[..4] == BigEndian(w, 4) && body[4..] == rest;
      case U64(_, q) =>
        ValueOfBigEndian(q, 8);
        assert body[..8] == BigEndian(q, 8) && body[8..] == rest;
    }
  }

  lemma ParseNested(f: Field, body: seq<byte>, rest: seq<byte>)
    requires f.Data? || f.Sub?
    requires f.Data? ==> ParseBytes(body) == Some((f.bytes, rest))
    requires f.Sub? ==> ParseFields(body) == Some((f.fields, rest))
    ensures ParseField(BigEndian(f.tag, 2) + [if f.Data? then 3 else 4] + body) == Some((f, rest))
  {
    hide ParseBytes, ParseFields, BigEndian, Value;
    var s := BigEndian(f.tag, 2) + [if f.Data? then 3 else 4] + body;
    WidthLimits();
    ValueOfBigEndian(f.tag, 2);
    assert s[..2] == BigEndian(f.tag, 2) && s[3..] == body;
  }

  lemma {:induction false} ParsePackedField(f: Field, rest: seq<byte>)
    ensures ParseField(PackField(f) + rest) == Some((f, rest))
    decreases f
  {
    hide ParseField, ParseFields, ParseBytes, PackBytes, PackFields, BigEndian;
    match f {
      case Data(_, bytes) =>
        ParsePackedBytes(bytes, rest);
        ParseNested(f, PackBytes(bytes) + rest, rest);
        assert PackField(f) + rest == BigEndian(f.tag, 2) + [3] + (PackBytes(bytes) + rest);
      case Sub(_, fields) =>
        ParsePackedFields(fields, rest);
        ParseNested(f, PackFields(fields) + rest, rest);
        assert PackField(f) + rest == BigEndian(f.tag, 2) + [4] + (PackFields(fields) + rest);
      case _ =>
        ParsePackedNumber(f, rest);
    }
  }

  lemma {:induction false} ParsePackedFields(fs: seq<Field>, rest: seq<byte>)
    ensures ParseFields(PackFields(fs) + rest) == Some((fs, rest))
    decreases fs
  {
    var s := PackFields(fs) + rest;
    if fs == [] {
      assert s[1..] == rest;
    } else {
      assert s[1..] == PackField(fs[0]) + (PackFields(fs[1..]) + rest);
      ParsePackedField(fs[0], PackFields(fs[1..]) + rest);
      ParsePackedFields(fs[1..], rest);
      assert fs == [fs[0]] + fs[1..];
    }
  }

  lemma {:induction false} NumbersArePackedShort(fs: seq<Field>)
    requires Numbers(fs)
    ensures |PackFields(fs)| <= 1 + 12 * |fs|
  {
    if fs != [] {
      NumbersArePackedShort(fs[1..]);
    }
  }

  /** One lawful container, to show that the law can be met; nothing below depends on its layout. */
  function StandIn(): (c: RawContainer)
    ensures Lawful(c)
  {
    var c := RawContainer(
      fs => PackFields(fs),
      s => match ParseFields(s)
           case None => None
           case Some((fs, rest)) => if rest == [] then Some(fs) else None);
    assert Lawful(c) by {
      forall fs
        ensures c.parse(c.pack(fs)) == Some(fs)
      {
        ParsePackedFields(fs, []);
        assert PackFields(fs) + [] == PackFields(fs);
      }
      forall fs: seq<Field> | |fs| <= 8 && Numbers(fs)
        ensures |c.pack(fs)| < U32_LIMIT
      {
        NumbersArePackedShort(fs);
      }
    }
    c
  }

  type Container = c: RawContainer | Lawful(c) witness StandIn()

  /** The container in use.  Its byte layout is not part of this model: any lawful one will do. */
  const YATLV: Container

  function EncodeOp(entry: ManifestOp): seq<byte> {
    YATLV.pack(Fields(entry))
  }

  function DecodeBytes(payload: seq<byte>): Result<ManifestOp, DecodeError> {
    match YATLV.parse(payload)
    case None => Failure(Format)
    case Some(fields) => Decode(fields)
  }

  /** The record fits a frame's 32-bit length field. */
  predicate Fits(entry: ManifestOp) {
    |EncodeOp(entry)| < U32_LIMIT
  }

  lemma NumbersFit(op: Op)
    requires Drops(op) == []
    ensures Fits(Bare(op))
  {
    assert Fields(Bare(op)) == Scalars(op);
  }

  /** A record written to the manifest is read back unchanged, and its payload is never empty. */
  lemma DecodeOfEncode(entry: ManifestOp)
    ensures DecodeBytes(EncodeOp(entry)) == Success(entry)
    ensures EncodeOp(entry) != []
  {
    DecodeEncoded(entry, Fields(entry));
  }
}
