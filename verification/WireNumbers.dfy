/** The record format by its numbers: which discriminator and which tags a record is written with, and that exactly the
    field lists carrying them are read as that record. */
module WireNumbers {
  import opened Basics
  import opened State
  import opened Codec

  // ── Writing ─────────────────────────────────────────────────────────────────

  /** What comes first in the record of an operation, by number. */
  function NumberedScalars(op: Op): seq<Field> {
    match op
    case CreateSegment(id, first) => [U8(1, 0x01), U32(2, id), U64(3, first)]
    case RollSegment(sealed, first, last, count, size, newId, newFirst) =>
      [U8(1, 0x02), U32(2, sealed), U64(3, first), U64(4, last), U32(5, count), U64(6, size), U32(7, newId), U64(8, newFirst)]
    case TruncateStart(first, _) => [U8(1, 0x03), U64(3, first)]
    case TruncateEnd(target, offset, _) => [U8(1, 0x04), U32(7, target), U64(9, offset)]
    case SegmentDeleted(id) => [U8(1, 0x05), U32(2, id)]
    case RecordOrphan(id) => [U8(1, 0x06), U32(2, id)]
    case Metadata => [U8(1, 0x07)]
  }

  /** One field 10 per dropped id. */
  function NumberedDrops(drop: seq<SegmentId>): seq<Field> {
    seq(|drop|, i requires 0 <= i < |drop| => U32(10, drop[i]))
  }

  /** One field 11 per pair, holding the key in field 1 and the value in field 2. */
  function NumberedMeta(meta: seq<Pair>): seq<Field> {
    seq(|meta|, i requires 0 <= i < |meta| => Sub(11, [U8(1, meta[i].0), Data(2, meta[i].1)]))
  }

  lemma {:induction false} DropsByNumber(drop: seq<SegmentId>)
    ensures DropFields(drop) == NumberedDrops(drop)
  {
    if drop != [] {
      DropsByNumber(drop[1..]);
      assert NumberedDrops(drop) == [U32(10, drop[0])] + NumberedDrops(drop[1..]);
    }
  }

  lemma {:induction false} MetaByNumber(meta: seq<Pair>)
    ensures MetaFields(meta) == NumberedMeta(meta)
  {
    if meta != [] {
      MetaByNumber(meta[1..]);
      assert NumberedMeta(meta) == [MetaField(meta[0])] + NumberedMeta(meta[1..]);
    }
  }

  /** Every record is written with these numbers, and in this order. */
  lemma WrittenByNumber(entry: ManifestOp)
    ensures Fields(entry) ==
      NumberedScalars(entry.op)
      + NumberedDrops(if entry.op.TruncateStart? || entry.op.TruncateEnd? then entry.op.drop else [])
      + NumberedMeta(entry.meta)
  {
    DropsByNumber(Drops(entry.op));
    MetaByNumber(entry.meta);
  }

  // ── Reading ─────────────────────────────────────────────────────────────────

  /** `f` is the first of the fields with its tag. */
  ghost predicate Holds(fields: seq<Field>, f: Field) {
    exists i :: HoldsAt(fields, f, i)
  }

  ghost predicate HoldsAt(fields: seq<Field>, f: Field, i: int) {
    0 <= i < |fields| && fields[i] == f && forall j :: 0 <= j < i ==> fields[j].tag != f.tag
  }

  /** The fields with a tag, in order. */
  function Tagged(fields: seq<Field>, tag: Tag): seq<Field> {
    if fields == [] then []
    else (if fields[0].tag == tag then [fields[0]] else []) + Tagged(fields[1..], tag)
  }

  /** The discriminator and the fields of the operation, by number. */
  ghost predicate CarriesOp(fields: seq<Field>, op: Op) {
    var scalars := NumberedScalars(op);
    && (forall i :: 0 <= i < |scalars| ==> Holds(fields, scalars[i]))
    && (op.TruncateStart? || op.TruncateEnd? ==> Tagged(fields, 10) == NumberedDrops(op.drop))
  }

  ghost predicate CarriesPair(f: Field, p: Pair) {
    f.Sub? && Holds(f.fields, U8(1, p.0)) && Holds(f.fields, Data(2, p.1))
  }

  ghost predicate CarriesMeta(fields: seq<Field>, meta: seq<Pair>) {
    |Tagged(fields, 11)| == |meta| && forall i :: 0 <= i < |meta| ==> CarriesPair(Tagged(fields, 11)[i], meta[i])
  }

  lemma {:induction false} FindIs(fields: seq<Field>, f: Field)
    ensures Find(fields, f.tag) == Some(f) <==> Holds(fields, f)
  {
    if fields != [] {
      if fields[0].tag == f.tag {
        assert fields[0] == f ==> HoldsAt(fields, f, 0);
      } else {
        FindIs(fields[1..], f);
        if Holds(fields[1..], f) {
          var i :| HoldsAt(fields[1..], f, i);
          assert HoldsAt(fields, f, i + 1);
        }
        if Holds(fields, f) {
          var i :| HoldsAt(fields, f, i);
          assert HoldsAt(fields[1..], f, i - 1);
        }
      }
    }
  }

  lemma NumbersRead(fields: seq<Field>, tag: Tag)
    ensures forall x: byte :: GetU8(fields, tag) == Success(x) <==> Holds(fields, U8(tag, x))
    ensures forall x: u32 :: GetU32(fields, tag) == Success(x) <==> Holds(fields, U32(tag, x))
    ensures forall x: u64 :: GetU64(fields, tag) == Success(x) <==> Holds(fields, U64(tag, x))
    ensures forall x: seq<byte> :: GetData(fields, tag) == Success(x) <==> Holds(fields, Data(tag, x))
  {
    hide Find, Holds;
    forall f: Field | f.tag == tag
      ensures Find(fields, tag) == Some(f) <==> Holds(fields, f)
    {
      FindIs(fields, f);
    }
    FoundHasTag(fields, tag);
  }

  lemma {:induction false} FoundHasTag(fields: seq<Field>, tag: Tag)
    ensures Find(fields, tag).Some? ==> Find(fields, tag).value.tag == tag
  {
    if fields != [] {
      FoundHasTag(fields[1..], tag);
    }
  }

  lemma DropsCons(x: SegmentId, xs: seq<SegmentId>)
    ensures NumberedDrops([x] + xs) == [U32(10, x)] + NumberedDrops(xs)
  {
  }

  lemma {:induction false} DropsRead(fields: seq<Field>, drop: seq<SegmentId>)
    ensures GetU32s(fields, TAG_DROP_ID) == Success(drop) <==> Tagged(fields, 10) == NumberedDrops(drop)
  {
    if fields == [] {
    } else if fields[0].tag != 10 {
      DropsRead(fields[1..], drop);
    } else if drop != [] {
      DropsRead(fields[1..], drop[1..]);
      assert drop == [drop[0]] + drop[1..];
      DropsCons(drop[0], drop[1..]);
      hide NumberedDrops;
      var got := Tagged(fields, 10);
      assert got[0] == fields[0] && got[1..] == Tagged(fields[1..], 10);
      var want := NumberedDrops(drop);
      assert want[0] == U32(10, drop[0]) && want[1..] == NumberedDrops(drop[1..]);
      assert got == want <==> got[0] == want[0] && got[1..] == want[1..] by {
        assert got == [got[0]] + got[1..];
        assert want == [want[0]] + want[1..];
      }
      if GetU32s(fields, TAG_DROP_ID) == Success(drop) {
        var rest := GetU32s(fields[1..], TAG_DROP_ID).value;
        assert drop == [fields[0].word] + rest;
        assert drop[1..] == rest;
      }
    }
  }

  lemma PairRead(f: Field, p: Pair)
    requires f.Sub?
    ensures GetPair(f.fields) == Success(p) <==> CarriesPair(f, p)
  {
    NumbersRead(f.fields, 1);
    NumbersRead(f.fields, 2);
    hide GetU8, GetData, Holds;
  }

  lemma {:induction false} MetaRead(fields: seq<Field>, meta: seq<Pair>)
    ensures GetMeta(fields) == Success(meta) <==> CarriesMeta(fields, meta)
  {
    if fields == [] {
    } else if fields[0].tag != 11 {
      MetaRead(fields[1..], meta);
    } else if meta != [] {
      var got := Tagged(fields, 11);
      assert got[0] == fields[0] && got[1..] == Tagged(fields[1..], 11);
      MetaRead(fields[1..], meta[1..]);
      if fields[0].Sub? {
        PairRead(fields[0], meta[0]);
      }
      hide CarriesPair, Tagged, GetPair;
      assert CarriesMeta(fields, meta) <==> CarriesPair(got[0], meta[0]) && CarriesMeta(fields[1..], meta[1..]) by {
        assert forall i :: 0 <= i < |meta| - 1 ==> meta[1..][i] == meta[i + 1];
        assert forall i :: 0 <= i < |got| - 1 ==> got[1..][i] == got[i + 1];
      }
      if GetMeta(fields) == Success(meta) {
        assert meta[1..] == GetMeta(fields[1..]).value;
      }
      assert meta == [meta[0]] + meta[1..];
    }
  }

  /** Field by field, what the getters return. */
  ghost predicate Gets(fields: seq<Field>, f: Field) {
    match f
    case U8(tag, x) => GetU8(fields, tag) == Success(x)
    case U32(tag, x) => GetU32(fields, tag) == Success(x)
    case U64(tag, x) => GetU64(fields, tag) == Success(x)
    case Data(tag, x) => GetData(fields, tag) == Success(x)
    case Sub(_, _) => false
  }

  lemma GetsIff(fields: seq<Field>, f: Field)
    requires !f.Sub?
    ensures Gets(fields, f) <==> Holds(fields, f)
  {
    NumbersRead(fields, f.tag);
    hide GetU8, GetU32, GetU64, GetData, Holds;
  }

  ghost predicate AllGot(fields: seq<Field>, fs: seq<Field>) {
    forall i :: 0 <= i < |fs| ==> Gets(fields, fs[i])
  }

  lemma ShortOpGot(fields: seq<Field>, op: Op)
    requires !op.RollSegment?
    ensures DecodeOp(fields) == Success(op) <==>
      AllGot(fields, NumberedScalars(op)) && (op.TruncateStart? || op.TruncateEnd? ==> GetU32s(fields, 10) == Success(op.drop))
  {
    hide GetU8, GetU32, GetU64, GetU32s;
    var s := NumberedScalars(op);
    assert AllGot(fields, s) <==> Gets(fields, s[0]) && (|s| > 1 ==> Gets(fields, s[1])) && (|s| > 2 ==> Gets(fields, s[2]));
  }

  lemma RollGot(fields: seq<Field>, op: Op)
    requires op.RollSegment?
    ensures DecodeOp(fields) == Success(op) <==> AllGot(fields, NumberedScalars(op))
  {
    hide GetU8, GetU32, GetU64, GetU32s;
    var s := NumberedScalars(op);
    assert AllGot(fields, s) <==>
      && Gets(fields, s[0]) && Gets(fields, s[1]) && Gets(fields, s[2]) && Gets(fields, s[3])
      && Gets(fields, s[4]) && Gets(fields, s[5]) && Gets(fields, s[6]) && Gets(fields, s[7]);
  }

  lemma ScalarsGot(fields: seq<Field>, fs: seq<Field>)
    requires forall i :: 0 <= i < |fs| ==> !fs[i].Sub?
    ensures AllGot(fields, fs) <==> forall i :: 0 <= i < |fs| ==> Holds(fields, fs[i])
  {
    hide Gets, Holds;
    forall i | 0 <= i < |fs|
      ensures Gets(fields, fs[i]) <==> Holds(fields, fs[i])
    {
      GetsIff(fields, fs[i]);
    }
  }

  lemma OpRead(fields: seq<Field>, op: Op)
    ensures DecodeOp(fields) == Success(op) <==> CarriesOp(fields, op)
  {
    var s := NumberedScalars(op);
    ScalarsGot(fields, s);
    if op.RollSegment? {
      RollGot(fields, op);
    } else {
      ShortOpGot(fields, op);
    }
    if op.TruncateStart? || op.TruncateEnd? {
      DropsRead(fields, op.drop);
    }
    hide DecodeOp, GetU32s, Holds, AllGot, Tagged, NumberedDrops;
  }

  /** A field list is read as a record if and only if it carries the record's numbers: the discriminator, each scalar as
      the first field with its tag, the dropped ids and the metadata in order.  Whatever else it holds, and how fields
      of different tags are mixed, does not matter. */
  lemma ReadByNumber(fields: seq<Field>, entry: ManifestOp)
    ensures Decode(fields) == Success(entry) <==> CarriesOp(fields, entry.op) && CarriesMeta(fields, entry.meta)
  {
    OpRead(fields, entry.op);
    MetaRead(fields, entry.meta);
    hide DecodeOp, GetMeta, CarriesOp, CarriesMeta;
  }

  /** An operation is unknown exactly when its discriminator is a number outside 1 to 7. */
  lemma UnknownByNumber(fields: seq<Field>, kind: byte)
    ensures Decode(fields) == Failure(UnknownOpType(kind)) <==> Holds(fields, U8(1, kind)) && !(0x01 <= kind <= 0x07)
  {
    NumbersRead(fields, 1);
    GettersFail(fields);
    MetaFails(fields);
    hide GetU8, GetU32, GetU64, GetU32s, GetMeta, Holds;
  }

  lemma GettersFail(fields: seq<Field>)
    ensures forall tag: Tag :: GetU8(fields, tag).Failure? ==> GetU8(fields, tag).error == Format
    ensures forall tag: Tag :: GetU32(fields, tag).Failure? ==> GetU32(fields, tag).error == Format
    ensures forall tag: Tag :: GetU64(fields, tag).Failure? ==> GetU64(fields, tag).error == Format
    ensures GetU32s(fields, TAG_DROP_ID).Failure? ==> GetU32s(fields, TAG_DROP_ID).error == Format
  {
    DropsFail(fields);
  }

  lemma {:induction false} DropsFail(fields: seq<Field>)
    ensures GetU32s(fields, TAG_DROP_ID).Failure? ==> GetU32s(fields, TAG_DROP_ID).error == Format
  {
    if fields != [] {
      DropsFail(fields[1..]);
    }
  }

  lemma {:induction false} MetaFails(fields: seq<Field>)
    ensures GetMeta(fields).Failure? ==> GetMeta(fields).error == Format
  {
    if fields != [] {
      MetaFails(fields[1..]);
    }
  }
}
