/** The generated decoder inverts the generated encoder: whatever the encoder writes at a position
    reads back, from that position, as the value written, leaving exactly the bytes that followed.
    One lemma per interpreter function, by the same mutual recursion. */
module RoundTrip {
  import opened Io
  import opened ByteOrder
  import opened Attr
  import opened Conversion
  import opened Primitives
  import opened Grammar
  import opened Schema
  import opened Decoder
  import opened Encoder

  /** Both impls of `d` reached via `via` exist, decoding tells every enum variant apart and both
      sides of every field agree, and `v` is a value of `d`. */
  predicate Codable(g: Generator, via: Via, d: Desc, a: Approach, v: Value) {
    Readable(g, via, d, a) && Writable(g, via, d, a) && Invertible(g, d) && Conforms(d, v)
  }

  /** `Codable` for the components of a tuple and their values. */
  predicate ListCodable(g: Generator, via: Via, ds: seq<Desc>, a: Approach, vs: seq<Value>) {
    ListReadable(g, via, ds, a) && ListWritable(g, via, ds, a) && ListInvertible(g, ds) && ListConforms(ds, vs)
  }

  /** `Codable` for a run of values of one type. */
  predicate RepeatCodable(g: Generator, via: Via, e: Desc, a: Approach, vs: seq<Value>) {
    Readable(g, via, e, a) && Writable(g, via, e, a) && Invertible(g, e) && AllConform(e, vs)
  }

  /** `Codable` for the fields of a struct or a variant and their values. */
  predicate FieldsCodable(g: Generator, fs: seq<Field>, en: Option<Endian>, vs: seq<Value>) {
    FieldsReadable(g, fs, en) && FieldsWritable(g, fs, en) && FieldsInvertible(g, fs, en) && FieldsConform(fs, vs)
  }

  /** `Codable` for one field and its value. */
  predicate FieldCodable(g: Generator, f: Field, en: Option<Endian>, v: Value) {
    FieldReadable(g, f, en) && FieldWritable(g, f, en) && FieldInvertible(g, f, en) && FieldConforms(f, v)
  }

  /** `Codable` for the variants of an unframed enum body, whose tags must also be distinct. */
  predicate VariantsCodable(g: Generator, en: Option<Endian>, t: IntKind, vs: seq<Variant>) {
    IntCodable(t, TraitUsage(en)) && TagsInRange(t, vs) && DistinctTags(vs) &&
    VariantsReadable(g, vs, en) && VariantsWritable(g, vs, en) && VariantsInvertible(g, vs, en)
  }

  /** The encoder succeeded, with fewer bytes than fit a `usize` (any in-memory buffer does). */
  predicate Encodes(w: Result<seq<Byte>>) {
    w.Ok? && |w.value| <= UsizeMax
  }


  /** `Codable` for the elements of a length-prefixed collection and their count. */
  predicate PrefixCodable(g: Generator, e: Desc, p: IntKind, a: Approach, vs: seq<Value>) {
    IntCodable(p, a) && RepeatCodable(g, Trait, e, a, vs) && |vs| <= UsizeMax
  }

  /** `v` is a value of one of the variants `vs`. */
  predicate VariantValue(vs: seq<Variant>, v: Value) {
    v.Tagged? && v.variant < |vs| && FieldsConform(vs[v.variant].fields, v.fields)
  }

  /** A value of any type, reached any way, reads back as written. */
  lemma {:induction false} ValueRoundTrip(g: Generator, via: Via, d: Desc, a: Approach, v: Value, pos: nat, rest: seq<Byte>)
    requires Codable(g, via, d, a, v) && Encodes(Write(g, via, d, a, v, pos))
    ensures var b := Write(g, via, d, a, v, pos).value;
      Read(g, via, d, a, Cursor(b + rest, pos)) == Ok((v, Cursor(rest, pos + |b|)))
    decreases d, 6
  {
    ViaParts(g, via, d, a, v, pos, Cursor(Write(g, via, d, a, v, pos).value + rest, pos));
    match via
    case Gen => GenRoundTrip(g, d, a, v, pos, rest);
    case Trait => TraitRoundTrip(g, d, a, v, pos, rest);
    case Own => OwnRoundTrip(g, d, v, pos, rest);
  }

  /** Reading and writing dispatch on how the type is reached; its own impl ignores the approach. */
  lemma ViaParts(g: Generator, via: Via, d: Desc, a: Approach, v: Value, pos: nat, c: Cursor)
    requires Codable(g, via, d, a, v)
    ensures via.Gen? ==> Write(g, via, d, a, v, pos) == WriteGen(g, d, a, v, pos) && Read(g, via, d, a, c) == ReadGen(g, d, a, c)
    ensures via.Trait? ==> Write(g, via, d, a, v, pos) == WriteTrait(g, d, a, v, pos) && Read(g, via, d, a, c) == ReadTrait(g, d, a, c)
    ensures via.Own? ==> Codable(g, Own, d, Plain, v)
    ensures via.Own? ==> Write(g, via, d, a, v, pos) == WriteOwn(g, d, v, pos) && Read(g, via, d, a, c) == ReadOwn(g, d, c)
  {
  }

  lemma {:induction false} GenRoundTrip(g: Generator, d: Desc, a: Approach, v: Value, pos: nat, rest: seq<Byte>)
    requires Codable(g, Gen, d, a, v) && Encodes(WriteGen(g, d, a, v, pos))
    ensures var b := WriteGen(g, d, a, v, pos).value;
      ReadGen(g, d, a, Cursor(b + rest, pos)) == Ok((v, Cursor(rest, pos + |b|)))
    decreases d, 4
  {
    if d.Array? {
      GenArrayRoundTrip(g, d, a, v, pos, rest);
    } else if d.Tuple? {
      GenTupleRoundTrip(g, d, a, v, pos, rest);
    } else {
      GenLeafParts(g, d, a, v, pos, Cursor(WriteGen(g, d, a, v, pos).value + rest, pos));
      TraitRoundTrip(g, d, a, v, pos, rest);
    }
  }

  /** A type the generator does not unroll is read and written through the approach's trait. */
  lemma GenLeafParts(g: Generator, d: Desc, a: Approach, v: Value, pos: nat, c: Cursor)
    requires !d.Array? && !d.Tuple? && Codable(g, Gen, d, a, v)
    ensures Codable(g, Trait, d, a, v)
    ensures WriteGen(g, d, a, v, pos) == WriteTrait(g, d, a, v, pos)
    ensures ReadGen(g, d, a, c) == ReadTrait(g, d, a, c)
  {
  }

  lemma {:induction false} GenArrayRoundTrip(g: Generator, d: Desc, a: Approach, v: Value, pos: nat, rest: seq<Byte>)
    requires d.Array? && Codable(g, Gen, d, a, v) && Encodes(WriteGen(g, d, a, v, pos))
    ensures var b := WriteGen(g, d, a, v, pos).value;
      ReadGen(g, d, a, Cursor(b + rest, pos)) == Ok((v, Cursor(rest, pos + |b|)))
    decreases d, 3
  {
    var b := WriteGen(g, d, a, v, pos).value;
    GenArrayParts(g, d, a, v, pos, Cursor(b + rest, pos), Cursor(rest, pos + |b|));
    RepeatRoundTrip(g, Gen, d.elem, a, v.items, pos, rest);
  }

  /** An unrolled array is its elements, one after the other. */
  lemma GenArrayParts(g: Generator, d: Desc, a: Approach, v: Value, pos: nat, c: Cursor, c2: Cursor)
    requires d.Array? && Codable(g, Gen, d, a, v)
    ensures RepeatCodable(g, Gen, d.elem, a, v.items) && |v.items| == d.len
    ensures WriteGen(g, d, a, v, pos) == WriteRepeat(g, Gen, d.elem, a, v.items, pos)
    ensures ReadRepeat(g, Gen, d.elem, |v.items|, a, c) == Ok((v.items, c2)) ==> ReadGen(g, d, a, c) == Ok((v, c2))
  {
  }

  lemma {:induction false} GenTupleRoundTrip(g: Generator, d: Desc, a: Approach, v: Value, pos: nat, rest: seq<Byte>)
    requires d.Tuple? && Codable(g, Gen, d, a, v) && Encodes(WriteGen(g, d, a, v, pos))
    ensures var b := WriteGen(g, d, a, v, pos).value;
      ReadGen(g, d, a, Cursor(b + rest, pos)) == Ok((v, Cursor(rest, pos + |b|)))
    decreases d, 3
  {
    var b := WriteGen(g, d, a, v, pos).value;
    GenTupleParts(g, d, a, v, pos, Cursor(b + rest, pos), Cursor(rest, pos + |b|));
    ListRoundTrip(g, Gen, d.elems, a, v.items, pos, rest);
  }

  /** An unrolled tuple is its components, left to right. */
  lemma GenTupleParts(g: Generator, d: Desc, a: Approach, v: Value, pos: nat, c: Cursor, c2: Cursor)
    requires d.Tuple? && Codable(g, Gen, d, a, v)
    ensures ListCodable(g, Gen, d.elems, a, v.items)
    ensures WriteGen(g, d, a, v, pos) == WriteList(g, Gen, d.elems, a, v.items, pos)
    ensures ReadList(g, Gen, d.elems, a, c) == Ok((v.items, c2)) ==> ReadGen(g, d, a, c) == Ok((v, c2))
  {
  }

  lemma {:induction false} TraitRoundTrip(g: Generator, d: Desc, a: Approach, v: Value, pos: nat, rest: seq<Byte>)
    requires Codable(g, Trait, d, a, v) && Encodes(WriteTrait(g, d, a, v, pos))
    ensures var b := WriteTrait(g, d, a, v, pos).value;
      ReadTrait(g, d, a, Cursor(b + rest, pos)) == Ok((v, Cursor(rest, pos + |b|)))
    decreases d, 3, 1
  {
    if d.Int? {
      TraitIntRoundTrip(g, d, a, v, pos, rest);
    } else {
      TraitOwnRoundTrip(g, d, a, v, pos, rest);
    }
  }

  lemma TraitIntRoundTrip(g: Generator, d: Desc, a: Approach, v: Value, pos: nat, rest: seq<Byte>)
    requires d.Int? && Codable(g, Trait, d, a, v) && Encodes(WriteTrait(g, d, a, v, pos))
    ensures var b := WriteTrait(g, d, a, v, pos).value;
      ReadTrait(g, d, a, Cursor(b + rest, pos)) == Ok((v, Cursor(rest, pos + |b|)))
  {
    var c := Cursor(WriteTrait(g, d, a, v, pos).value + rest, pos);
    TraitParts(g, d, a, v, pos, c, Cursor(rest, pos + |WriteTrait(g, d, a, v, pos).value|));
    IntCursorRoundTrip(d.kind, a, v.x, rest, pos);
  }

  lemma {:induction false} TraitOwnRoundTrip(g: Generator, d: Desc, a: Approach, v: Value, pos: nat, rest: seq<Byte>)
    requires !d.Int? && Codable(g, Trait, d, a, v) && Encodes(WriteTrait(g, d, a, v, pos))
    ensures var b := WriteTrait(g, d, a, v, pos).value;
      ReadTrait(g, d, a, Cursor(b + rest, pos)) == Ok((v, Cursor(rest, pos + |b|)))
    decreases d, 3, 0
  {
    var c := Cursor(WriteTrait(g, d, a, v, pos).value + rest, pos);
    TraitParts(g, d, a, v, pos, c, Cursor(rest, pos + |WriteTrait(g, d, a, v, pos).value|));
    OwnRoundTrip(g, d, v, pos, rest);
  }

  /** Through the approach's trait an integer uses the ordered impl and anything else its own. */
  lemma TraitParts(g: Generator, d: Desc, a: Approach, v: Value, pos: nat, c: Cursor, c2: Cursor)
    requires Codable(g, Trait, d, a, v)
    ensures d.Int? ==> IntCodable(d.kind, a) && InRange(d.kind, v.x)
    ensures d.Int? ==> WriteTrait(g, d, a, v, pos) == Ok(WriteInt(d.kind, a, v.x))
    ensures d.Int? ==> (ReadInt(d.kind, a, c) == Ok((v.x, c2)) ==> ReadTrait(g, d, a, c) == Ok((v, c2)))
    ensures !d.Int? ==> Codable(g, Own, d, Plain, v)
    ensures !d.Int? ==> WriteTrait(g, d, a, v, pos) == WriteOwn(g, d, v, pos) && ReadTrait(g, d, a, c) == ReadOwn(g, d, c)
  {
  }

  lemma {:induction false} OwnRoundTrip(g: Generator, d: Desc, v: Value, pos: nat, rest: seq<Byte>)
    requires Codable(g, Own, d, Plain, v) && Encodes(WriteOwn(g, d, v, pos))
    ensures var b := WriteOwn(g, d, v, pos).value;
      ReadOwn(g, d, Cursor(b + rest, pos)) == Ok((v, Cursor(rest, pos + |b|)))
    decreases d, 2
  {
    match d
    case Int(k) =>
      OwnIntParts(g, d, v, pos, Cursor(WriteOwn(g, d, v, pos).value + rest, pos), Cursor(rest, pos + Width(k)));
      IntCursorRoundTrip(k, Plain, v.x, rest, pos);
    case Phantom => MarkerRoundTrip(g, d, v, pos, rest);
    case Padding(_) => MarkerRoundTrip(g, d, v, pos, rest);
    case PadToAlign(_, _) => MarkerRoundTrip(g, d, v, pos, rest);
    case Pointer(_) => OwnPointerRoundTrip(g, d, v, pos, rest);
    case Array(_, _) => OwnArrayRoundTrip(g, d, v, pos, rest);
    case Tuple(_) => OwnTupleRoundTrip(g, d, v, pos, rest);
    case Collection(_) => assert false;
    case Struct(_, _) => OwnStructRoundTrip(g, d, v, pos, rest);
    case Enum(_, _, framing, _) =>
      if framing.None? {
        UnframedRoundTrip(g, d, v, pos, rest);
      } else {
        FramedRoundTrip(g, d, v, pos, rest);
      }
  }

  /** A single-byte integer's own impl. */
  lemma OwnIntParts(g: Generator, d: Desc, v: Value, pos: nat, c: Cursor, c2: Cursor)
    requires d.Int? && Codable(g, Own, d, Plain, v)
    ensures IntCodable(d.kind, Plain) && InRange(d.kind, v.x)
    ensures WriteOwn(g, d, v, pos) == Ok(WriteInt(d.kind, Plain, v.x))
    ensures ReadInt(d.kind, Plain, c) == Ok((v.x, c2)) ==> ReadOwn(g, d, c) == Ok((v, c2))
  {
  }

  /** `()`-like markers and padding: what is written is skipped, whatever its bytes. */
  lemma MarkerRoundTrip(g: Generator, d: Desc, v: Value, pos: nat, rest: seq<Byte>)
    requires d.Phantom? || d.Padding? || d.PadToAlign?
    requires Conforms(d, v)
    ensures var b := WriteOwn(g, d, v, pos).value;
      ReadOwn(g, d, Cursor(b + rest, pos)) == Ok((v, Cursor(rest, pos + |b|)))
  {
    ReadExactOfPrefix(WriteOwn(g, d, v, pos).value, rest, pos);
  }

  lemma {:induction false} OwnPointerRoundTrip(g: Generator, d: Desc, v: Value, pos: nat, rest: seq<Byte>)
    requires d.Pointer? && Codable(g, Own, d, Plain, v) && Encodes(WriteOwn(g, d, v, pos))
    ensures var b := WriteOwn(g, d, v, pos).value;
      ReadOwn(g, d, Cursor(b + rest, pos)) == Ok((v, Cursor(rest, pos + |b|)))
    decreases d, 1
  {
    var b := WriteOwn(g, d, v, pos).value;
    PointerParts(g, d, v, pos, Cursor(b + rest, pos), Cursor(rest, pos + |b|));
    OwnRoundTrip(g, d.inner, v.inner, pos, rest);
  }

  /** Box, Rc and Arc write and read exactly what their contents do. */
  lemma PointerParts(g: Generator, d: Desc, v: Value, pos: nat, c: Cursor, c2: Cursor)
    requires d.Pointer? && Codable(g, Own, d, Plain, v)
    ensures Codable(g, Own, d.inner, Plain, v.inner)
    ensures WriteOwn(g, d, v, pos) == WriteOwn(g, d.inner, v.inner, pos)
    ensures ReadOwn(g, d.inner, c) == Ok((v.inner, c2)) ==> ReadOwn(g, d, c) == Ok((v, c2))
  {
  }

  lemma {:induction false} OwnArrayRoundTrip(g: Generator, d: Desc, v: Value, pos: nat, rest: seq<Byte>)
    requires d.Array? && Codable(g, Own, d, Plain, v) && Encodes(WriteOwn(g, d, v, pos))
    ensures var b := WriteOwn(g, d, v, pos).value;
      ReadOwn(g, d, Cursor(b + rest, pos)) == Ok((v, Cursor(rest, pos + |b|)))
    decreases d, 1
  {
    var b := WriteOwn(g, d, v, pos).value;
    OwnArrayParts(g, d, v, pos, Cursor(b + rest, pos), Cursor(rest, pos + |b|));
    RepeatRoundTrip(g, Own, d.elem, Plain, v.items, pos, rest);
  }

  /** An array's own impl is its elements' own impls, one after the other. */
  lemma OwnArrayParts(g: Generator, d: Desc, v: Value, pos: nat, c: Cursor, c2: Cursor)
    requires d.Array? && Codable(g, Own, d, Plain, v)
    ensures RepeatCodable(g, Own, d.elem, Plain, v.items)
    ensures WriteOwn(g, d, v, pos) == WriteRepeat(g, Own, d.elem, Plain, v.items, pos)
    ensures ReadRepeat(g, Own, d.elem, |v.items|, Plain, c) == Ok((v.items, c2)) ==> ReadOwn(g, d, c) == Ok((v, c2))
  {
  }

  lemma {:induction false} OwnTupleRoundTrip(g: Generator, d: Desc, v: Value, pos: nat, rest: seq<Byte>)
    requires d.Tuple? && Codable(g, Own, d, Plain, v) && Encodes(WriteOwn(g, d, v, pos))
    ensures var b := WriteOwn(g, d, v, pos).value;
      ReadOwn(g, d, Cursor(b + rest, pos)) == Ok((v, Cursor(rest, pos + |b|)))
    decreases d, 1
  {
    var b := WriteOwn(g, d, v, pos).value;
    OwnTupleParts(g, d, v, pos, Cursor(b + rest, pos), Cursor(rest, pos + |b|));
    ListRoundTrip(g, Own, d.elems, Plain, v.items, pos, rest);
  }

  /** A tuple's own impl is its components' own impls, left to right. */
  lemma OwnTupleParts(g: Generator, d: Desc, v: Value, pos: nat, c: Cursor, c2: Cursor)
    requires d.Tuple? && Codable(g, Own, d, Plain, v)
    ensures ListCodable(g, Own, d.elems, Plain, v.items)
    ensures WriteOwn(g, d, v, pos) == WriteList(g, Own, d.elems, Plain, v.items, pos)
    ensures ReadList(g, Own, d.elems, Plain, c) == Ok((v.items, c2)) ==> ReadOwn(g, d, c) == Ok((v, c2))
  {
  }

  lemma {:induction false} OwnStructRoundTrip(g: Generator, d: Desc, v: Value, pos: nat, rest: seq<Byte>)
    requires d.Struct? && Codable(g, Own, d, Plain, v) && Encodes(WriteOwn(g, d, v, pos))
    ensures var b := WriteOwn(g, d, v, pos).value;
      ReadOwn(g, d, Cursor(b + rest, pos)) == Ok((v, Cursor(rest, pos + |b|)))
    decreases d, 1
  {
    var b := WriteOwn(g, d, v, pos).value;
    StructParts(g, d, v, pos, Cursor(b + rest, pos), Cursor(rest, pos + |b|));
    FieldsRoundTrip(g, d.fields, d.endian, v.items, pos, rest);
  }

  /** A derived struct is its fields in declaration order. */
  lemma StructParts(g: Generator, d: Desc, v: Value, pos: nat, c: Cursor, c2: Cursor)
    requires d.Struct? && Codable(g, Own, d, Plain, v)
    ensures FieldsCodable(g, d.fields, d.endian, v.items)
    ensures WriteOwn(g, d, v, pos) == WriteFields(g, d.fields, d.endian, v.items, pos)
    ensures ReadFields(g, d.fields, d.endian, c) == Ok((v.items, c2)) ==> ReadOwn(g, d, c) == Ok((v, c2))
  {
  }

  lemma {:induction false} UnframedRoundTrip(g: Generator, d: Desc, v: Value, pos: nat, rest: seq<Byte>)
    requires d.Enum? && d.framing.None? && Codable(g, Own, d, Plain, v) && Encodes(WriteOwn(g, d, v, pos))
    ensures var b := WriteOwn(g, d, v, pos).value;
      ReadOwn(g, d, Cursor(b + rest, pos)) == Ok((v, Cursor(rest, pos + |b|)))
    decreases d, 1
  {
    UnframedParts(g, d, v, pos, Cursor(WriteOwn(g, d, v, pos).value + rest, pos));
    TaggedRoundTrip(g, d.endian, d.tag, d.variants, v, pos, rest);
  }

  /** An unframed enum is its tagged body, written to and read from the stream itself. */
  lemma UnframedParts(g: Generator, d: Desc, v: Value, pos: nat, c: Cursor)
    requires d.Enum? && d.framing.None? && Codable(g, Own, d, Plain, v)
    ensures VariantsCodable(g, d.endian, d.tag, d.variants) && VariantValue(d.variants, v)
    ensures WriteOwn(g, d, v, pos) == WriteTagged(g, d.endian, d.tag, d.variants, v, pos)
    ensures ReadOwn(g, d, c) == ReadTagged(g, d.endian, d.tag, d.variants, c)
  {
  }

  /** A framed enum: the prefix holds the body's length, and the body read from its own buffer at
      position 0 is the value. */
  lemma {:induction false} FramedRoundTrip(g: Generator, d: Desc, v: Value, pos: nat, rest: seq<Byte>)
    requires d.Enum? && d.framing.Some? && Codable(g, Own, d, Plain, v) && Encodes(WriteOwn(g, d, v, pos))
    ensures var b := WriteOwn(g, d, v, pos).value;
      ReadOwn(g, d, Cursor(b + rest, pos)) == Ok((v, Cursor(rest, pos + |b|)))
    decreases d, 1
  {
    var prefix, body := FramedParts(g, d, v, pos);
    FramedTail(g, d, v, pos, rest, prefix, body);
  }

  lemma {:induction false} FramedTail(g: Generator, d: Desc, v: Value, pos: nat, rest: seq<Byte>, prefix: seq<Byte>, body: seq<Byte>)
    requires d.Enum? && d.framing.Some?
    requires VariantsCodable(g, d.endian, d.tag, d.variants) && VariantValue(d.variants, v)
    requires WriteTagged(g, d.endian, d.tag, d.variants, v, 0) == Ok(body)
    requires Encodes(WriteTagged(g, d.endian, d.tag, d.variants, v, 0))
    requires Readable(g, Own, d, Plain) && InRange(d.framing.value, |body|) && |body| <= UsizeMax
    requires IntCodable(d.framing.value, TraitUsage(d.endian))
    requires prefix == WriteInt(d.framing.value, TraitUsage(d.endian), |body|)
    ensures ReadOwn(g, d, Cursor(prefix + body + rest, pos)) == Ok((v, Cursor(rest, pos + |prefix + body|)))
    decreases d, 0
  {
    TaggedRoundTrip(g, d.endian, d.tag, d.variants, v, 0, []);
    FramedJoin(g, d, v, pos, rest, prefix, body);
  }

  /** What a framed enum writes: the length of its tagged body, written at position 0, then the
      body. */
  lemma FramedParts(g: Generator, d: Desc, v: Value, pos: nat) returns (prefix: seq<Byte>, body: seq<Byte>)
    requires d.Enum? && d.framing.Some? && Codable(g, Own, d, Plain, v) && Encodes(WriteOwn(g, d, v, pos))
    ensures VariantsCodable(g, d.endian, d.tag, d.variants) && VariantValue(d.variants, v)
    ensures WriteTagged(g, d.endian, d.tag, d.variants, v, 0) == Ok(body)
    ensures Encodes(WriteTagged(g, d.endian, d.tag, d.variants, v, 0))
    ensures Readable(g, Own, d, Plain) && InRange(d.framing.value, |body|) && |body| <= UsizeMax
    ensures IntCodable(d.framing.value, TraitUsage(d.endian))
    ensures prefix == WriteInt(d.framing.value, TraitUsage(d.endian), |body|)
    ensures WriteOwn(g, d, v, pos) == Ok(prefix + body)
  {
    assert WriteOwn(g, d, v, pos) == WriteEnum(g, d, v, pos);
    body := WriteTagged(g, d.endian, d.tag, d.variants, v, 0).value;
    prefix := WriteInt(d.framing.value, TraitUsage(d.endian), |body|);
  }

  /** The frame read back holds the body, which reads back from position 0 as the value. */
  lemma FramedJoin(g: Generator, d: Desc, v: Value, pos: nat, rest: seq<Byte>, prefix: seq<Byte>, body: seq<Byte>)
    requires d.Enum? && d.framing.Some? && Readable(g, Own, d, Plain)
    requires InRange(d.framing.value, |body|) && |body| <= UsizeMax && IntCodable(d.framing.value, TraitUsage(d.endian))
    requires prefix == WriteInt(d.framing.value, TraitUsage(d.endian), |body|)
    requires IntCodable(d.tag, TraitUsage(d.endian)) && VariantsReadable(g, d.variants, d.endian)
    requires ReadTagged(g, d.endian, d.tag, d.variants, Cursor(body + [], 0)) == Ok((v, Cursor([], 0 + |body|)))
    ensures ReadOwn(g, d, Cursor(prefix + body + rest, pos)) == Ok((v, Cursor(rest, pos + |prefix + body|)))
  {
    assert body + [] == body;
    FramedDecode(g, d, body, rest, pos);
    assert ReadOwn(g, d, Cursor(prefix + body + rest, pos)) == Read(g, Own, d, Plain, Cursor(prefix + body + rest, pos));
  }

  lemma {:induction false} TaggedRoundTrip(g: Generator, en: Option<Endian>, t: IntKind, vs: seq<Variant>, v: Value,
                                           pos: nat, rest: seq<Byte>)
    requires VariantsCodable(g, en, t, vs) && VariantValue(vs, v) && Encodes(WriteTagged(g, en, t, vs, v, pos))
    ensures var b := WriteTagged(g, en, t, vs, v, pos).value;
      ReadTagged(g, en, t, vs, Cursor(b + rest, pos)) == Ok((v, Cursor(rest, pos + |b|)))
    decreases vs, 1
  {
    var tag, fb := TaggedParts(g, en, t, vs, v, pos);
    TaggedTail(g, en, t, vs, v, pos, rest, tag, fb);
    TaggedClose(g, en, t, vs, v, pos, rest, tag, fb);
  }

  lemma {:induction false} TaggedTail(g: Generator, en: Option<Endian>, t: IntKind, vs: seq<Variant>, v: Value,
                                      pos: nat, rest: seq<Byte>, tag: seq<Byte>, fb: seq<Byte>)
    requires VariantsCodable(g, en, t, vs) && VariantValue(vs, v)
    requires IntCodable(t, TraitUsage(en)) && InRange(t, vs[v.variant].tag)
    requires tag == WriteInt(t, TraitUsage(en), vs[v.variant].tag) && |tag| == Width(t)
    requires FieldsCodable(g, vs[v.variant].fields, en, v.fields)
    requires WriteFields(g, vs[v.variant].fields, en, v.fields, pos + |tag|) == Ok(fb)
    requires Encodes(WriteFields(g, vs[v.variant].fields, en, v.fields, pos + |tag|))
    ensures ReadTagged(g, en, t, vs, Cursor(tag + fb + rest, pos)) == Ok((v, Cursor(rest, pos + |tag| + |fb|)))
    decreases vs, 0
  {
    IntCursorRoundTrip(t, TraitUsage(en), vs[v.variant].tag, fb + rest, pos);
    FieldsRoundTrip(g, vs[v.variant].fields, en, v.fields, pos + |tag|, rest);
    AppendAssoc(tag, fb, rest);
    TaggedJoin(g, en, t, vs, v, Cursor(tag + fb + rest, pos), Cursor(fb + rest, pos + |tag|), Cursor(rest, pos + |tag| + |fb|));
  }

  lemma TaggedClose(g: Generator, en: Option<Endian>, t: IntKind, vs: seq<Variant>, v: Value,
                    pos: nat, rest: seq<Byte>, tag: seq<Byte>, fb: seq<Byte>)
    requires VariantsCodable(g, en, t, vs) && VariantValue(vs, v) && WriteTagged(g, en, t, vs, v, pos) == Ok(tag + fb)
    requires ReadTagged(g, en, t, vs, Cursor(tag + fb + rest, pos)) == Ok((v, Cursor(rest, pos + |tag| + |fb|)))
    ensures var b := WriteTagged(g, en, t, vs, v, pos).value;
      ReadTagged(g, en, t, vs, Cursor(b + rest, pos)) == Ok((v, Cursor(rest, pos + |b|)))
  {
  }

  /** What a tagged body writes: the variant's tag literal, then its fields. */
  lemma TaggedParts(g: Generator, en: Option<Endian>, t: IntKind, vs: seq<Variant>, v: Value, pos: nat)
    returns (tag: seq<Byte>, fb: seq<Byte>)
    requires VariantsCodable(g, en, t, vs) && VariantValue(vs, v) && Encodes(WriteTagged(g, en, t, vs, v, pos))
    ensures IntCodable(t, TraitUsage(en)) && InRange(t, vs[v.variant].tag)
    ensures tag == WriteInt(t, TraitUsage(en), vs[v.variant].tag) && |tag| == Width(t)
    ensures FieldsCodable(g, vs[v.variant].fields, en, v.fields)
    ensures WriteFields(g, vs[v.variant].fields, en, v.fields, pos + |tag|) == Ok(fb)
    ensures Encodes(WriteFields(g, vs[v.variant].fields, en, v.fields, pos + |tag|))
    ensures WriteTagged(g, en, t, vs, v, pos) == Ok(tag + fb)
  {
    tag := WriteInt(t, TraitUsage(en), vs[v.variant].tag);
    fb := WriteFields(g, vs[v.variant].fields, en, v.fields, pos + |tag|).value;
  }

  /** With distinct tags the tag read back selects the variant written. */
  lemma TaggedJoin(g: Generator, en: Option<Endian>, t: IntKind, vs: seq<Variant>, v: Value, c: Cursor, c1: Cursor, c2: Cursor)
    requires VariantsCodable(g, en, t, vs) && VariantValue(vs, v) && FieldsReadable(g, vs[v.variant].fields, en)
    requires ReadInt(t, TraitUsage(en), c) == Ok((vs[v.variant].tag, c1))
    requires ReadFields(g, vs[v.variant].fields, en, c1) == Ok((v.fields, c2))
    ensures ReadTagged(g, en, t, vs, c) == Ok((v, c2))
  {
    FirstVariantOfDistinct(vs, v.variant);
  }

  lemma {:induction false} ListRoundTrip(g: Generator, via: Via, ds: seq<Desc>, a: Approach, vs: seq<Value>,
                                         pos: nat, rest: seq<Byte>)
    requires ListCodable(g, via, ds, a, vs) && Encodes(WriteList(g, via, ds, a, vs, pos))
    ensures var b := WriteList(g, via, ds, a, vs, pos).value;
      ReadList(g, via, ds, a, Cursor(b + rest, pos)) == Ok((vs, Cursor(rest, pos + |b|)))
    decreases ds, 2
  {
    if ds != [] {
      ListCons(g, via, ds, a, vs, pos, rest);
    } else {
      ListNil(g, via, ds, a, vs, pos, rest);
    }
  }

  lemma ListCons(g: Generator, via: Via, ds: seq<Desc>, a: Approach, vs: seq<Value>, pos: nat, rest: seq<Byte>)
    requires ds != [] && ListCodable(g, via, ds, a, vs) && Encodes(WriteList(g, via, ds, a, vs, pos))
    ensures var b := WriteList(g, via, ds, a, vs, pos).value;
      ReadList(g, via, ds, a, Cursor(b + rest, pos)) == Ok((vs, Cursor(rest, pos + |b|)))
    decreases ds, 1
  {
      var b0, bs := ListParts(g, via, ds, a, vs, pos);
      ValueRoundTrip(g, via, ds[0], a, vs[0], pos, bs + rest);
      ListTail(g, via, ds, a, vs, pos, rest, b0, bs);
      ListClose(g, via, ds, a, vs, pos, rest, b0, bs);
  }

  lemma ListClose(g: Generator, via: Via, ds: seq<Desc>, a: Approach, vs: seq<Value>, pos: nat, rest: seq<Byte>, b0: seq<Byte>, bs: seq<Byte>)
    requires ListCodable(g, via, ds, a, vs) && WriteList(g, via, ds, a, vs, pos) == Ok(b0 + bs)
    requires ReadList(g, via, ds, a, Cursor(b0 + bs + rest, pos)) == Ok((vs, Cursor(rest, pos + |b0| + |bs|)))
    ensures var b := WriteList(g, via, ds, a, vs, pos).value;
      ReadList(g, via, ds, a, Cursor(b + rest, pos)) == Ok((vs, Cursor(rest, pos + |b|)))
  {
  }

  lemma ListTail(g: Generator, via: Via, ds: seq<Desc>, a: Approach, vs: seq<Value>, pos: nat, rest: seq<Byte>, b0: seq<Byte>, bs: seq<Byte>)
    requires ds != [] && |vs| == |ds| && ListReadable(g, via, ds, a) && ListCodable(g, via, ds[1..], a, vs[1..])
    requires WriteList(g, via, ds[1..], a, vs[1..], pos + |b0|) == Ok(bs)
    requires Encodes(WriteList(g, via, ds[1..], a, vs[1..], pos + |b0|))
    requires Read(g, via, ds[0], a, Cursor(b0 + (bs + rest), pos)) == Ok((vs[0], Cursor(bs + rest, pos + |b0|)))
    ensures ReadList(g, via, ds, a, Cursor(b0 + bs + rest, pos)) == Ok((vs, Cursor(rest, pos + |b0| + |bs|)))
    decreases ds, 0
  {
      ListRoundTrip(g, via, ds[1..], a, vs[1..], pos + |b0|, rest);
      ListJoin(g, via, ds, a, vs, b0, bs, rest, pos, Cursor(bs + rest, pos + |b0|), Cursor(rest, pos + |b0| + |bs|));
  }

  lemma ListNil(g: Generator, via: Via, ds: seq<Desc>, a: Approach, vs: seq<Value>, pos: nat, rest: seq<Byte>)
    requires ds == [] && ListCodable(g, via, ds, a, vs) && Encodes(WriteList(g, via, ds, a, vs, pos))
    ensures var b := WriteList(g, via, ds, a, vs, pos).value;
      ReadList(g, via, ds, a, Cursor(b + rest, pos)) == Ok((vs, Cursor(rest, pos + |b|)))
  {
      assert [] + rest == rest;
  }

  /** What a tuple writes: its first component, then the others from where that one ended. */
  lemma ListParts(g: Generator, via: Via, ds: seq<Desc>, a: Approach, vs: seq<Value>, pos: nat)
    returns (b0: seq<Byte>, bs: seq<Byte>)
    requires ds != [] && ListCodable(g, via, ds, a, vs) && Encodes(WriteList(g, via, ds, a, vs, pos))
    ensures Codable(g, via, ds[0], a, vs[0]) && ListCodable(g, via, ds[1..], a, vs[1..])
    ensures ListReadable(g, via, ds, a) && |vs| == |ds|
    ensures Write(g, via, ds[0], a, vs[0], pos) == Ok(b0) && Encodes(Write(g, via, ds[0], a, vs[0], pos))
    ensures WriteList(g, via, ds[1..], a, vs[1..], pos + |b0|) == Ok(bs)
    ensures Encodes(WriteList(g, via, ds[1..], a, vs[1..], pos + |b0|))
    ensures WriteList(g, via, ds, a, vs, pos) == Ok(b0 + bs)
  {
    b0 := Write(g, via, ds[0], a, vs[0], pos).value;
    bs := WriteList(g, via, ds[1..], a, vs[1..], pos + |b0|).value;
  }

  lemma ListJoin(g: Generator, via: Via, ds: seq<Desc>, a: Approach, vs: seq<Value>, b0: seq<Byte>, bs: seq<Byte>,
                 rest: seq<Byte>, pos: nat, c1: Cursor, c2: Cursor)
    requires ds != [] && vs != [] && ListReadable(g, via, ds, a)
    requires Read(g, via, ds[0], a, Cursor(b0 + (bs + rest), pos)) == Ok((vs[0], c1))
    requires ReadList(g, via, ds[1..], a, c1) == Ok((vs[1..], c2))
    ensures ReadList(g, via, ds, a, Cursor(b0 + bs + rest, pos)) == Ok((vs, c2))
  {
    AppendAssoc(b0, bs, rest);
    ListStep(g, via, ds, a, vs, Cursor(b0 + (bs + rest), pos), c1, c2);
  }

  lemma ListStep(g: Generator, via: Via, ds: seq<Desc>, a: Approach, vs: seq<Value>, c: Cursor, c1: Cursor, c2: Cursor)
    requires ds != [] && vs != [] && ListReadable(g, via, ds, a)
    requires Read(g, via, ds[0], a, c) == Ok((vs[0], c1))
    requires ReadList(g, via, ds[1..], a, c1) == Ok((vs[1..], c2))
    ensures ReadList(g, via, ds, a, c) == Ok((vs, c2))
  {
    assert [vs[0]] + vs[1..] == vs;
  }

  lemma {:induction false} RepeatRoundTrip(g: Generator, via: Via, e: Desc, a: Approach, vs: seq<Value>,
                                           pos: nat, rest: seq<Byte>)
    requires RepeatCodable(g, via, e, a, vs) && Encodes(WriteRepeat(g, via, e, a, vs, pos))
    ensures var b := WriteRepeat(g, via, e, a, vs, pos).value;
      ReadRepeat(g, via, e, |vs|, a, Cursor(b + rest, pos)) == Ok((vs, Cursor(rest, pos + |b|)))
    decreases e, 7, |vs|, 2
  {
    if vs != [] {
      RepeatCons(g, via, e, a, vs, pos, rest);
    } else {
      RepeatNil(g, via, e, a, vs, pos, rest);
    }
  }

  lemma {:induction false} RepeatCons(g: Generator, via: Via, e: Desc, a: Approach, vs: seq<Value>, pos: nat, rest: seq<Byte>)
    requires vs != [] && RepeatCodable(g, via, e, a, vs) && Encodes(WriteRepeat(g, via, e, a, vs, pos))
    ensures var b := WriteRepeat(g, via, e, a, vs, pos).value;
      ReadRepeat(g, via, e, |vs|, a, Cursor(b + rest, pos)) == Ok((vs, Cursor(rest, pos + |b|)))
    decreases e, 7, |vs|, 1
  {
    RepeatSplit(g, via, e, a, vs);
    var b0, bs := RepeatParts(g, via, e, a, vs, pos);
    ValueRoundTrip(g, via, e, a, vs[0], pos, bs + rest);
    RepeatTail(g, via, e, a, vs, pos, rest, b0, bs);
    RepeatClose(g, via, e, a, vs, pos, rest, b0, bs);
  }

  lemma RepeatClose(g: Generator, via: Via, e: Desc, a: Approach, vs: seq<Value>, pos: nat, rest: seq<Byte>, b0: seq<Byte>, bs: seq<Byte>)
    requires RepeatCodable(g, via, e, a, vs) && WriteRepeat(g, via, e, a, vs, pos) == Ok(b0 + bs)
    requires ReadRepeat(g, via, e, |vs|, a, Cursor(b0 + bs + rest, pos)) == Ok((vs, Cursor(rest, pos + |b0| + |bs|)))
    ensures var b := WriteRepeat(g, via, e, a, vs, pos).value;
      ReadRepeat(g, via, e, |vs|, a, Cursor(b + rest, pos)) == Ok((vs, Cursor(rest, pos + |b|)))
  {
  }

  lemma {:induction false} RepeatTail(g: Generator, via: Via, e: Desc, a: Approach, vs: seq<Value>, pos: nat, rest: seq<Byte>,
                                      b0: seq<Byte>, bs: seq<Byte>)
    requires vs != [] && RepeatCodable(g, via, e, a, vs[1..])
    requires WriteRepeat(g, via, e, a, vs[1..], pos + |b0|) == Ok(bs)
    requires Encodes(WriteRepeat(g, via, e, a, vs[1..], pos + |b0|))
    requires Read(g, via, e, a, Cursor(b0 + (bs + rest), pos)) == Ok((vs[0], Cursor(bs + rest, pos + |b0|)))
    ensures ReadRepeat(g, via, e, |vs|, a, Cursor(b0 + bs + rest, pos)) == Ok((vs, Cursor(rest, pos + |b0| + |bs|)))
    decreases e, 7, |vs|, 0
  {
    RepeatRoundTrip(g, via, e, a, vs[1..], pos + |b0|, rest);
    RepeatTailClose(g, via, e, a, vs, pos, rest, b0, bs);
  }

  lemma RepeatTailClose(g: Generator, via: Via, e: Desc, a: Approach, vs: seq<Value>, pos: nat, rest: seq<Byte>,
                        b0: seq<Byte>, bs: seq<Byte>)
    requires vs != [] && Readable(g, via, e, a)
    requires Read(g, via, e, a, Cursor(b0 + (bs + rest), pos)) == Ok((vs[0], Cursor(bs + rest, pos + |b0|)))
    requires ReadRepeat(g, via, e, |vs[1..]|, a, Cursor(bs + rest, pos + |b0|)) == Ok((vs[1..], Cursor(rest, pos + |b0| + |bs|)))
    ensures ReadRepeat(g, via, e, |vs|, a, Cursor(b0 + bs + rest, pos)) == Ok((vs, Cursor(rest, pos + |b0| + |bs|)))
  {
    AppendAssoc(b0, bs, rest);
    RepeatJoin(g, via, e, a, vs, Cursor(b0 + bs + rest, pos), Cursor(bs + rest, pos + |b0|), Cursor(rest, pos + |b0| + |bs|));
  }

  lemma RepeatNil(g: Generator, via: Via, e: Desc, a: Approach, vs: seq<Value>, pos: nat, rest: seq<Byte>)
    requires vs == [] && RepeatCodable(g, via, e, a, vs) && Encodes(WriteRepeat(g, via, e, a, vs, pos))
    ensures var b := WriteRepeat(g, via, e, a, vs, pos).value;
      ReadRepeat(g, via, e, |vs|, a, Cursor(b + rest, pos)) == Ok((vs, Cursor(rest, pos + |b|)))
  {
    assert [] + rest == rest;
  }

  /** The first of a run of values, and the others. */
  lemma RepeatSplit(g: Generator, via: Via, e: Desc, a: Approach, vs: seq<Value>)
    requires vs != [] && RepeatCodable(g, via, e, a, vs)
    ensures Codable(g, via, e, a, vs[0]) && RepeatCodable(g, via, e, a, vs[1..])
  {
  }

  /** What a run of values writes: the first, then the others from where it ended. */
  lemma RepeatParts(g: Generator, via: Via, e: Desc, a: Approach, vs: seq<Value>, pos: nat)
    returns (b0: seq<Byte>, bs: seq<Byte>)
    requires vs != [] && RepeatCodable(g, via, e, a, vs) && Encodes(WriteRepeat(g, via, e, a, vs, pos))
    ensures Write(g, via, e, a, vs[0], pos) == Ok(b0) && Encodes(Write(g, via, e, a, vs[0], pos))
    ensures WriteRepeat(g, via, e, a, vs[1..], pos + |b0|) == Ok(bs)
    ensures Encodes(WriteRepeat(g, via, e, a, vs[1..], pos + |b0|))
    ensures WriteRepeat(g, via, e, a, vs, pos) == Ok(b0 + bs)
  {
    b0 := Write(g, via, e, a, vs[0], pos).value;
    bs := WriteRepeat(g, via, e, a, vs[1..], pos + |b0|).value;
  }

  lemma RepeatJoin(g: Generator, via: Via, e: Desc, a: Approach, vs: seq<Value>, c: Cursor, c1: Cursor, c2: Cursor)
    requires vs != [] && Readable(g, via, e, a)
    requires Read(g, via, e, a, c) == Ok((vs[0], c1))
    requires ReadRepeat(g, via, e, |vs[1..]|, a, c1) == Ok((vs[1..], c2))
    ensures ReadRepeat(g, via, e, |vs|, a, c) == Ok((vs, c2))
  {
    assert |vs[1..]| == |vs| - 1;
    assert [vs[0]] + vs[1..] == vs;
  }

  lemma {:induction false} FieldsRoundTrip(g: Generator, fs: seq<Field>, en: Option<Endian>, vs: seq<Value>,
                                           pos: nat, rest: seq<Byte>)
    requires FieldsCodable(g, fs, en, vs) && Encodes(WriteFields(g, fs, en, vs, pos))
    ensures var b := WriteFields(g, fs, en, vs, pos).value;
      ReadFields(g, fs, en, Cursor(b + rest, pos)) == Ok((vs, Cursor(rest, pos + |b|)))
    decreases fs, 2
  {
    if fs != [] {
      FieldsCons(g, fs, en, vs, pos, rest);
    } else {
      FieldsNil(g, fs, en, vs, pos, rest);
    }
  }

  lemma {:induction false} FieldsCons(g: Generator, fs: seq<Field>, en: Option<Endian>, vs: seq<Value>, pos: nat, rest: seq<Byte>)
    requires fs != [] && FieldsCodable(g, fs, en, vs) && Encodes(WriteFields(g, fs, en, vs, pos))
    ensures var b := WriteFields(g, fs, en, vs, pos).value;
      ReadFields(g, fs, en, Cursor(b + rest, pos)) == Ok((vs, Cursor(rest, pos + |b|)))
    decreases fs, 1
  {
    var b0, bs := FieldsParts(g, fs, en, vs, pos);
    FieldRoundTrip(g, fs[0], en, vs[0], pos, bs + rest);
    FieldsTail(g, fs, en, vs, pos, rest, b0, bs);
    FieldsClose(g, fs, en, vs, pos, rest, b0, bs);
  }

  lemma FieldsClose(g: Generator, fs: seq<Field>, en: Option<Endian>, vs: seq<Value>, pos: nat, rest: seq<Byte>, b0: seq<Byte>, bs: seq<Byte>)
    requires FieldsCodable(g, fs, en, vs) && WriteFields(g, fs, en, vs, pos) == Ok(b0 + bs)
    requires ReadFields(g, fs, en, Cursor(b0 + bs + rest, pos)) == Ok((vs, Cursor(rest, pos + |b0| + |bs|)))
    ensures var b := WriteFields(g, fs, en, vs, pos).value;
      ReadFields(g, fs, en, Cursor(b + rest, pos)) == Ok((vs, Cursor(rest, pos + |b|)))
  {
  }

  lemma {:induction false} FieldsTail(g: Generator, fs: seq<Field>, en: Option<Endian>, vs: seq<Value>, pos: nat, rest: seq<Byte>,
                                      b0: seq<Byte>, bs: seq<Byte>)
    requires fs != [] && |vs| == |fs| && FieldsReadable(g, fs, en) && FieldsCodable(g, fs[1..], en, vs[1..])
    requires WriteFields(g, fs[1..], en, vs[1..], pos + |b0|) == Ok(bs)
    requires Encodes(WriteFields(g, fs[1..], en, vs[1..], pos + |b0|))
    requires ReadField(g, fs[0], en, Cursor(b0 + (bs + rest), pos)) == Ok((vs[0], Cursor(bs + rest, pos + |b0|)))
    ensures ReadFields(g, fs, en, Cursor(b0 + bs + rest, pos)) == Ok((vs, Cursor(rest, pos + |b0| + |bs|)))
    decreases fs, 0
  {
    FieldsRoundTrip(g, fs[1..], en, vs[1..], pos + |b0|, rest);
    AppendAssoc(b0, bs, rest);
    FieldsJoin(g, fs, en, vs, Cursor(b0 + bs + rest, pos), Cursor(bs + rest, pos + |b0|), Cursor(rest, pos + |b0| + |bs|));
  }

  lemma FieldsNil(g: Generator, fs: seq<Field>, en: Option<Endian>, vs: seq<Value>, pos: nat, rest: seq<Byte>)
    requires fs == [] && FieldsCodable(g, fs, en, vs) && Encodes(WriteFields(g, fs, en, vs, pos))
    ensures var b := WriteFields(g, fs, en, vs, pos).value;
      ReadFields(g, fs, en, Cursor(b + rest, pos)) == Ok((vs, Cursor(rest, pos + |b|)))
  {
    assert [] + rest == rest;
  }

  /** What a run of fields writes: the first, then the others from where it ended. */
  lemma FieldsParts(g: Generator, fs: seq<Field>, en: Option<Endian>, vs: seq<Value>, pos: nat)
    returns (b0: seq<Byte>, bs: seq<Byte>)
    requires fs != [] && FieldsCodable(g, fs, en, vs) && Encodes(WriteFields(g, fs, en, vs, pos))
    ensures FieldCodable(g, fs[0], en, vs[0]) && FieldsCodable(g, fs[1..], en, vs[1..])
    ensures FieldsReadable(g, fs, en) && |vs| == |fs|
    ensures WriteField(g, fs[0], en, vs[0], pos) == Ok(b0) && Encodes(WriteField(g, fs[0], en, vs[0], pos))
    ensures WriteFields(g, fs[1..], en, vs[1..], pos + |b0|) == Ok(bs)
    ensures Encodes(WriteFields(g, fs[1..], en, vs[1..], pos + |b0|))
    ensures WriteFields(g, fs, en, vs, pos) == Ok(b0 + bs)
  {
    b0 := WriteField(g, fs[0], en, vs[0], pos).value;
    bs := WriteFields(g, fs[1..], en, vs[1..], pos + |b0|).value;
  }

  lemma FieldsJoin(g: Generator, fs: seq<Field>, en: Option<Endian>, vs: seq<Value>, c: Cursor, c1: Cursor, c2: Cursor)
    requires fs != [] && vs != [] && FieldsReadable(g, fs, en)
    requires ReadField(g, fs[0], en, c) == Ok((vs[0], c1))
    requires ReadFields(g, fs[1..], en, c1) == Ok((vs[1..], c2))
    ensures ReadFields(g, fs, en, c) == Ok((vs, c2))
  {
    assert [vs[0]] + vs[1..] == vs;
  }

  lemma {:induction false} FieldRoundTrip(g: Generator, f: Field, en: Option<Endian>, v: Value, pos: nat, rest: seq<Byte>)
    requires FieldCodable(g, f, en, v) && Encodes(WriteField(g, f, en, v, pos))
    ensures var b := WriteField(g, f, en, v, pos).value;
      ReadField(g, f, en, Cursor(b + rest, pos)) == Ok((v, Cursor(rest, pos + |b|)))
    decreases f, 2
  {
    if !g.Legacy? && f.lengthPrefix.Some? {
      FieldPrefixRoundTrip(g, f, en, v, pos, rest);
    } else {
      FieldGenRoundTrip(g, f, en, v, pos, rest);
    }
  }

  lemma {:induction false} FieldPrefixRoundTrip(g: Generator, f: Field, en: Option<Endian>, v: Value, pos: nat, rest: seq<Byte>)
    requires !g.Legacy? && f.lengthPrefix.Some?
    requires FieldCodable(g, f, en, v) && Encodes(WriteField(g, f, en, v, pos))
    ensures var b := WriteField(g, f, en, v, pos).value;
      ReadField(g, f, en, Cursor(b + rest, pos)) == Ok((v, Cursor(rest, pos + |b|)))
    decreases f, 1
  {
    var b := WriteField(g, f, en, v, pos).value;
    FieldParts(g, f, en, v, pos, Cursor(b + rest, pos));
    PrefixRoundTrip(g, f.ty.elem, f.lengthPrefix.value, WriteApproach(g, f, en), v.items, pos, rest);
    FieldClose(g, f, en, v, pos, rest, b);
  }

  lemma FieldClose(g: Generator, f: Field, en: Option<Endian>, v: Value, pos: nat, rest: seq<Byte>, b: seq<Byte>)
    requires FieldCodable(g, f, en, v) && WriteField(g, f, en, v, pos) == Ok(b)
    requires ReadField(g, f, en, Cursor(b + rest, pos)) == Ok((v, Cursor(rest, pos + |b|)))
    ensures var b := WriteField(g, f, en, v, pos).value;
      ReadField(g, f, en, Cursor(b + rest, pos)) == Ok((v, Cursor(rest, pos + |b|)))
  {
  }

  lemma {:induction false} FieldGenRoundTrip(g: Generator, f: Field, en: Option<Endian>, v: Value, pos: nat, rest: seq<Byte>)
    requires !(!g.Legacy? && f.lengthPrefix.Some?)
    requires FieldCodable(g, f, en, v) && Encodes(WriteField(g, f, en, v, pos))
    ensures var b := WriteField(g, f, en, v, pos).value;
      ReadField(g, f, en, Cursor(b + rest, pos)) == Ok((v, Cursor(rest, pos + |b|)))
    decreases f, 1
  {
    var b := WriteField(g, f, en, v, pos).value;
    FieldParts(g, f, en, v, pos, Cursor(b + rest, pos));
    GenRoundTrip(g, f.ty, WriteApproach(g, f, en), v, pos, rest);
    FieldClose(g, f, en, v, pos, rest, b);
  }

  /** A field without a hook is read and written with one approach: as a length-prefixed
      collection when it has a prefix under the field-aware generator, and otherwise as its type. */
  lemma FieldParts(g: Generator, f: Field, en: Option<Endian>, v: Value, pos: nat, c: Cursor)
    requires FieldCodable(g, f, en, v)
    ensures var a := WriteApproach(g, f, en);
      !g.Legacy? && f.lengthPrefix.Some? ==>
        f.ty.Collection? && v.Items? && v == Items(v.items) && PrefixCodable(g, f.ty.elem, f.lengthPrefix.value, a, v.items) &&
        WriteField(g, f, en, v, pos) == WritePrefixed(g, f.ty.elem, f.lengthPrefix.value, a, v.items, pos) &&
        ReadField(g, f, en, c) == ReadPrefixed(g, f.ty.elem, f.lengthPrefix.value, a, c)
    ensures var a := WriteApproach(g, f, en);
      !(!g.Legacy? && f.lengthPrefix.Some?) ==>
        Codable(g, Gen, f.ty, a, v) &&
        WriteField(g, f, en, v, pos) == WriteGen(g, f.ty, a, v, pos) && ReadField(g, f, en, c) == ReadGen(g, f.ty, a, c)
  {
    assert Invertible(g, f.ty) && Conforms(f.ty, v);
  }

  /** The count written before a collection reads back, and so do exactly that many elements. */
  lemma {:induction false} PrefixRoundTrip(g: Generator, e: Desc, p: IntKind, a: Approach, vs: seq<Value>,
                                           pos: nat, rest: seq<Byte>)
    requires PrefixCodable(g, e, p, a, vs) && Encodes(WritePrefixed(g, e, p, a, vs, pos))
    ensures var b := WritePrefixed(g, e, p, a, vs, pos).value;
      ReadPrefixed(g, e, p, a, Cursor(b + rest, pos)) == Ok((Items(vs), Cursor(rest, pos + |b|)))
    decreases e, 8
  {
    var prefix, body := PrefixParts(g, e, p, a, vs, pos);
    IntCursorRoundTrip(p, a, |vs|, body + rest, pos);
    RepeatRoundTrip(g, Trait, e, a, vs, pos + Width(p), rest);
    AppendAssoc(prefix, body, rest);
    PrefixJoin(g, e, p, a, vs, Cursor(prefix + body + rest, pos), Cursor(body + rest, pos + Width(p)),
               Cursor(rest, pos + Width(p) + |body|));
  }

  /** What a length-prefixed collection writes: its count, then its elements. */
  lemma PrefixParts(g: Generator, e: Desc, p: IntKind, a: Approach, vs: seq<Value>, pos: nat)
    returns (prefix: seq<Byte>, body: seq<Byte>)
    requires PrefixCodable(g, e, p, a, vs) && Encodes(WritePrefixed(g, e, p, a, vs, pos))
    ensures IntCodable(p, a) && InRange(p, |vs|)
    ensures prefix == WriteInt(p, a, |vs|) && |prefix| == Width(p)
    ensures RepeatCodable(g, Trait, e, a, vs)
    ensures WriteRepeat(g, Trait, e, a, vs, pos + Width(p)) == Ok(body)
    ensures Encodes(WriteRepeat(g, Trait, e, a, vs, pos + Width(p)))
    ensures WritePrefixed(g, e, p, a, vs, pos) == Ok(prefix + body)
  {
    prefix := WriteInt(p, a, |vs|);
    body := WriteRepeat(g, Trait, e, a, vs, pos + Width(p)).value;
  }

  lemma PrefixJoin(g: Generator, e: Desc, p: IntKind, a: Approach, vs: seq<Value>, c: Cursor, c1: Cursor, c2: Cursor)
    requires IntCodable(p, a) && Readable(g, Trait, e, a) && |vs| <= UsizeMax
    requires ReadInt(p, a, c) == Ok((|vs|, c1))
    requires ReadRepeat(g, Trait, e, |vs|, a, c1) == Ok((vs, c2))
    ensures ReadPrefixed(g, e, p, a, c) == Ok((Items(vs), c2))
  {
  }


  /** `from_bytes` of what `write_to` wrote at position 0 is the value written, whatever follows. */
  lemma FromBytesRoundTrip(g: Generator, d: Desc, v: Value, rest: seq<Byte>)
    requires Codable(g, Own, d, Plain, v) && Encodes(Write(g, Own, d, Plain, v, 0))
    ensures FromBytes(g, d, Write(g, Own, d, Plain, v, 0).value + rest) == Ok(v)
  {
    ValueRoundTrip(g, Own, d, Plain, v, 0, rest);
  }
}
