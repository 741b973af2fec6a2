/** The enum of the length-prefix test: little-endian, a `u8` tag, the variant's bytes framed by a
    `u32` byte count. What the wired generator writes for `Bar(7, -1)`, that those bytes read
    back, and that an unknown tag inside a frame is rejected. */
module FramedScenario {
  import opened Io
  import opened ByteOrder
  import opened Attr
  import opened Conversion
  import opened Primitives
  import opened Schema
  import opened Decoder
  import opened Encoder
  import opened RoundTrip
  import opened Scenarios

  const BarFields: seq<Field> := [Field(Int(U16), None, None, None), Field(Int(I64), None, None, None)]
  const BazFields: seq<Field> :=
    [Field(Int(U8), None, None, None), Field(Int(U64), None, None, None), Field(Int(I64), None, None, None)]
  const FramedFoo: Desc :=
    Enum(Some(Little), U8, Some(U32), [Variant(0x01, true, BarFields), Variant(0x3F, false, BazFields)])

  const BarValue: Value := Tagged(0, [IntV(7), IntV(-1)])

  /** `0B 00 00 00` (eleven bytes follow), the tag `01`, `07 00`, then eight `FF`. */
  const FramedBarBytes: seq<Byte> :=
    [11, 0, 0, 0] + ([1] + ([7, 0] + [255, 255, 255, 255, 255, 255, 255, 255]))

  lemma U16LittleSeven()
    ensures WriteInt(U16, Ordered(Little), 7) == [7, 0]
  {
  }

  lemma U32LittleEleven()
    ensures WriteInt(U32, Ordered(Little), 11) == [11, 0, 0, 0]
  {
  }

  /** A single-byte tag is itself. */
  lemma ByteTag(o: Endian, x: int)
    requires 0 <= x < 256
    ensures WriteInt(U8, Ordered(o), x) == [x as Byte]
  {
    assert EncodeInt(U8, o, x) == [x as Byte];
  }

  lemma FramedFooWritable()
    ensures Writable(Legacy, Own, FramedFoo, Plain) && Conforms(FramedFoo, BarValue)
  {
    assert FieldsWritable(Legacy, BarFields, Some(Little)) && FieldsWritable(Legacy, BazFields, Some(Little));
    assert FieldsConform(BarFields, [IntV(7), IntV(-1)]);
  }

  lemma FramedFooReadable()
    ensures Readable(Legacy, Own, FramedFoo, Plain)
  {
    assert FieldsReadable(Legacy, BarFields, Some(Little)) && FieldsReadable(Legacy, BazFields, Some(Little));
  }

  lemma FramedFooInvertible()
    ensures Invertible(Legacy, FramedFoo)
  {
    assert FieldsInvertible(Legacy, BarFields, Some(Little)) && FieldsInvertible(Legacy, BazFields, Some(Little));
  }

  /** A framed enum writes the byte count of its tag and fields, written as if from position 0,
      then those bytes. */
  lemma FramedWrite(g: Generator, en: Option<Endian>, t: IntKind, pk: IntKind, vs: seq<Variant>, v: Value, pos: nat,
                    body: seq<Byte>)
    requires Writable(g, Own, Enum(en, t, Some(pk), vs), Plain) && Conforms(Enum(en, t, Some(pk), vs), v)
    requires WriteTagged(g, en, t, vs, v, 0) == Ok(body) && InRange(pk, |body|)
    ensures Write(g, Own, Enum(en, t, Some(pk), vs), Plain, v, pos) == Ok(WriteInt(pk, TraitUsage(en), |body|) + body)
  {
    var d := Enum(en, t, Some(pk), vs);
    assert Write(g, Own, d, Plain, v, pos) == WriteEnum(g, d, v, pos);
    assert TryFrom(Kind(pk), |body|) == Ok(|body|);
  }

  /** The fields of `Bar(7, -1)`, after the one-byte tag. */
  lemma BarFieldsWrite()
    ensures FieldsOutcome(Legacy, BarFields, Some(Little), [IntV(7), IntV(-1)], 1) ==
      Some(Ok([7, 0] + [255, 255, 255, 255, 255, 255, 255, 255]))
  {
    OrderedIntField(Legacy, U16, Little, 7, 1);
    U16LittleSeven();
    OrderedIntField(Legacy, I64, Little, -1, 3);
    I64LittleMinusOne();
    FieldsOfTwo(Legacy, Some(Little), BarFields[0], BarFields[1], IntV(7), IntV(-1), 1,
                [7, 0], [255, 255, 255, 255, 255, 255, 255, 255]);
  }

  /** The frame's contents: the tag, then the fields, written into a buffer that starts at 0. */
  lemma BarBody()
    ensures WriteTagged(Legacy, Some(Little), U8, FramedFoo.variants, BarValue, 0) ==
      Ok([1] + ([7, 0] + [255, 255, 255, 255, 255, 255, 255, 255]))
  {
    FramedFooWritable();
    BarFieldsWrite();
    ByteTag(Little, 1);
  }

  /** The derived little-endian framed `Foo::Bar(7, -1)` writes the byte count of the frame, then
      the tag and the fields, every integer least significant byte first. */
  lemma FramedBarWrites()
    ensures Writable(Legacy, Own, FramedFoo, Plain) && Conforms(FramedFoo, BarValue)
    ensures Write(Legacy, Own, FramedFoo, Plain, BarValue, 0) == Ok(FramedBarBytes)
  {
    FramedFooWritable();
    BarBody();
    var body: seq<Byte> := [1] + ([7, 0] + [255, 255, 255, 255, 255, 255, 255, 255]);
    assert |body| == 11;
    FramedWrite(Legacy, Some(Little), U8, U32, FramedFoo.variants, BarValue, 0, body);
    U32LittleEleven();
  }

  /** Those bytes read back as `Bar(7, -1)`, with the stream right after the frame. */
  lemma FramedBarReads()
    ensures Read(Legacy, Own, FramedFoo, Plain, Cursor(FramedBarBytes, 0)) == Ok((BarValue, Cursor([], 15)))
  {
    FramedFooReadable();
    FramedFooInvertible();
    FramedBarWrites();
    assert |FramedBarBytes| == 15 && FramedBarBytes + [] == FramedBarBytes;
    ValueRoundTrip(Legacy, Own, FramedFoo, Plain, BarValue, 0, []);
  }

  /** Decoding a framed enum: the byte count, then exactly that many bytes, whose start (as a
      stream of its own) holds the tag and fields. */
  lemma FramedRead(g: Generator, en: Option<Endian>, t: IntKind, pk: IntKind, vs: seq<Variant>, c: Cursor,
                   n: int, after: Cursor, frame: seq<Byte>, rest: Cursor)
    requires Readable(g, Own, Enum(en, t, Some(pk), vs), Plain)
    requires ReadInt(pk, TraitUsage(en), c) == Ok((n, after)) && 0 <= n <= UsizeMax
    requires ReadExact(after, n) == Ok((frame, rest))
    ensures Read(g, Own, Enum(en, t, Some(pk), vs), Plain, c) ==
      (match ReadTagged(g, en, t, vs, Cursor(frame, 0))
       case Err(e) => Err(e)
       case Ok(inner) => Ok((inner.0, rest)))
  {
    var d := Enum(en, t, Some(pk), vs);
    assert Read(g, Own, d, Plain, c) == ReadEnum(g, d, c);
    assert TryFrom(Usize, n) == Ok(n);
  }

  /** The header `01 00 00 00` announces a frame of one byte. */
  lemma OneByteFrame(rest: seq<Byte>)
    ensures ReadInt(U32, Ordered(Little), Cursor([1, 0, 0, 0, 2] + rest, 0)) == Ok((1, Cursor([2] + rest, 4)))
    ensures ReadExact(Cursor([2] + rest, 4), 1) == Ok(([2], Cursor(rest, 5)))
  {
    var c := Cursor([1, 0, 0, 0, 2] + rest, 0);
    assert c.rest[..4] == [1, 0, 0, 0] && c.rest[4..] == [2] + rest;
    assert DecodeInt(U32, Little, [1, 0, 0, 0]) == 1;
    var after := Cursor([2] + rest, 4);
    assert after.rest[..1] == [2] && after.rest[1..] == rest;
  }

  /** Inside the frame, the tag `02` names no variant. */
  lemma UnknownTagInFrame()
    ensures IntCodable(U8, TraitUsage(Some(Little))) && VariantsReadable(Legacy, FramedFoo.variants, Some(Little))
    ensures ReadTagged(Legacy, Some(Little), U8, FramedFoo.variants, Cursor([2], 0)) == Err(InvalidData(2))
  {
    FramedFooReadable();
    var frame := Cursor([2], 0);
    assert frame.rest[..1] == [2];
    assert DecodeInt(U8, Little, [2]) == 2;
    assert FirstVariant(FramedFoo.variants, 2).None?;
  }

  /** A frame of one byte holding the tag `02`, which no variant declares: decoding fails with that
      tag as invalid data. */
  lemma UnknownTagRejected(rest: seq<Byte>)
    ensures Read(Legacy, Own, FramedFoo, Plain, Cursor([1, 0, 0, 0, 2] + rest, 0)) == Err(InvalidData(2))
  {
    FramedFooReadable();
    OneByteFrame(rest);
    FramedRead(Legacy, Some(Little), U8, U32, FramedFoo.variants, Cursor([1, 0, 0, 0, 2] + rest, 0),
               1, Cursor([2] + rest, 4), [2], Cursor(rest, 5));
    UnknownTagInFrame();
  }
}
