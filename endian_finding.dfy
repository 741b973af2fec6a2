/** The field-aware generator reads a field with the field's own byte order (`trait_usage(true)`
    of the field options, io_self_derive/src/read.rs) but writes it with the container's
    (`opts.trait_usage(false)`, io_self_derive/src/write.rs). A big-endian struct with one
    little-endian `u16` field therefore writes `1` as `00 01` and reads those bytes back as 256.
    With the write side honouring the field's order (`Amended`) the same struct reads back what
    it wrote, as the general round trip promises for every invertible layout. */
module EndianFinding {
  import opened Io
  import opened ByteOrder
  import opened Attr
  import opened Primitives
  import opened Schema
  import opened Decoder
  import opened Encoder
  import opened RoundTrip
  import opened Scenarios

  /** `#[io_self(endian = "big")] struct S { #[io_self(endian = "little")] x: u16 }`. */
  const LittleField: Field := Field(Int(U16), Some(Little), None, None)
  const MixedStruct: Desc := Struct(Some(Big), [LittleField])
  const MixedOne: Value := Items([IntV(1)])

  /** A struct of one field writes that field. */
  lemma OneFieldWrite(g: Generator, en: Option<Endian>, f: Field, v: Value, pos: nat, b: seq<Byte>)
    requires FieldWritable(g, f, en) && FieldConforms(f, v) && WriteField(g, f, en, v, pos) == Ok(b)
    requires FieldPlaced(g, f, Borrowed)
    ensures Writable(g, Own, Struct(en, [f]), Plain) && Conforms(Struct(en, [f]), Items([v]))
    ensures Write(g, Own, Struct(en, [f]), Plain, Items([v]), pos) == Ok(b)
  {
    FieldsSingle(g, en, f, v, pos, b);
    assert FieldsPlaced(g, [f], Borrowed);
    StructWrite(g, en, [f], [v], pos, b);
  }

  /** A struct of one field reads that field. */
  lemma OneFieldRead(g: Generator, en: Option<Endian>, f: Field, c: Cursor, v: Value, c2: Cursor)
    requires FieldReadable(g, f, en) && ReadField(g, f, en, c) == Ok((v, c2))
    ensures Readable(g, Own, Struct(en, [f]), Plain)
    ensures Read(g, Own, Struct(en, [f]), Plain, c) == Ok((Items([v]), c2))
  {
    assert [f][1..] == [];
    assert FieldsReadable(g, [f], en);
    assert ReadFields(g, [f], en, c) == Ok(([v] + [], c2));
    assert [v] + [] == [v];
  }

  lemma U16BigOne()
    ensures WriteInt(U16, Ordered(Big), 1) == [0, 1]
  {
  }

  lemma U16LittleOne()
    ensures WriteInt(U16, Ordered(Little), 1) == [1, 0]
  {
  }

  /** As written, the field is written most significant byte first. */
  lemma MixedWritesBig()
    ensures Writable(Current, Own, MixedStruct, Plain) && Conforms(MixedStruct, MixedOne)
    ensures Write(Current, Own, MixedStruct, Plain, MixedOne, 0) == Ok([0, 1])
  {
    assert WriteApproach(Current, LittleField, Some(Big)) == Ordered(Big);
    assert FieldWritable(Current, LittleField, Some(Big)) && FieldConforms(LittleField, IntV(1));
    U16BigOne();
    assert WriteField(Current, LittleField, Some(Big), IntV(1), 0) == Ok([0, 1]);
    OneFieldWrite(Current, Some(Big), LittleField, IntV(1), 0, [0, 1]);
  }

  /** As written, the field is read least significant byte first. */
  lemma MixedReadsLittle()
    ensures Readable(Current, Own, MixedStruct, Plain)
    ensures Read(Current, Own, MixedStruct, Plain, Cursor([0, 1], 0)) == Ok((Items([IntV(256)]), Cursor([], 2)))
  {
    var c := Cursor([0, 1], 0);
    assert ReadApproach(Current, LittleField, Some(Big)) == Ordered(Little);
    assert FieldReadable(Current, LittleField, Some(Big));
    assert c.rest[..2] == [0, 1] && c.rest[2..] == [];
    assert DecodeInt(U16, Little, [0, 1]) == 256;
    assert ReadField(Current, LittleField, Some(Big), c) == Ok((IntV(256), Cursor([], 2)));
    OneFieldRead(Current, Some(Big), LittleField, c, IntV(256), Cursor([], 2));
  }

  /** As written, `S { x: 1 }` does not survive a write and a read: it comes back as `S { x: 256 }`,
      and the layout is not invertible. */
  lemma MixedEndianMisreads()
    ensures Write(Current, Own, MixedStruct, Plain, MixedOne, 0) == Ok([0, 1])
    ensures Read(Current, Own, MixedStruct, Plain, Cursor([0, 1], 0)) == Ok((Items([IntV(256)]), Cursor([], 2)))
    ensures Items([IntV(256)]) != MixedOne
    ensures !Invertible(Current, MixedStruct)
  {
    MixedWritesBig();
    MixedReadsLittle();
    ApproachesAgree(Current, LittleField, Some(Big));
    assert !FieldInvertible(Current, MixedStruct.fields[0], Some(Big));
  }

  /** With the write side amended, the field is written in its own order and reads back as written. */
  lemma MixedEndianAmended()
    ensures Invertible(Amended, MixedStruct)
    ensures Write(Amended, Own, MixedStruct, Plain, MixedOne, 0) == Ok([1, 0])
    ensures Read(Amended, Own, MixedStruct, Plain, Cursor([1, 0], 0)) == Ok((MixedOne, Cursor([], 2)))
  {
    assert WriteApproach(Amended, LittleField, Some(Big)) == Ordered(Little);
    assert ReadApproach(Amended, LittleField, Some(Big)) == Ordered(Little);
    assert FieldWritable(Amended, LittleField, Some(Big)) && FieldConforms(LittleField, IntV(1));
    assert FieldReadable(Amended, LittleField, Some(Big)) && FieldsReadable(Amended, MixedStruct.fields, Some(Big));
    assert FieldInvertible(Amended, MixedStruct.fields[0], Some(Big));
    U16LittleOne();
    assert WriteField(Amended, LittleField, Some(Big), IntV(1), 0) == Ok([1, 0]);
    OneFieldWrite(Amended, Some(Big), LittleField, IntV(1), 0, [1, 0]);
    assert [1, 0] + [] == [1, 0];
    ValueRoundTrip(Amended, Own, MixedStruct, Plain, MixedOne, 0, []);
  }
}
