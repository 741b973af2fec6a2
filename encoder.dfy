/** What the generated `write_to` emits: an interpreter over the type layout that produces the
    bytes written at a stream position. The generator unrolls arrays and tuples
    (`write_for_type`), writes each field with its approach, its hook or its length prefix
    (`derive_write_fields`), and writes an enum's tag and the fields of the value's variant,
    optionally behind a byte-length frame built in a separate buffer (`build_write`). */
module Encoder {
  import opened Io
  import opened ByteOrder
  import opened Attr
  import opened Conversion
  import opened Primitives
  import opened Grammar
  import opened Schema

  /** Writes `v`, a value of `d` reached via `via` under approach `a`, at stream position `pos`.
      On success the bytes are what the sink receives. */
  function Write(g: Generator, via: Via, d: Desc, a: Approach, v: Value, pos: nat): (r: Result<seq<Byte>>)
    requires Writable(g, via, d, a) && Conforms(d, v)
    decreases d, 6, 0
  {
    match via
    case Gen => WriteGen(g, d, a, v, pos)
    case Trait => WriteTrait(g, d, a, v, pos)
    case Own => WriteOwn(g, d, v, pos)
  }

  /** `write_for_type`: arrays and tuples are unrolled with the same approach; anything else is
      written through the approach's trait. */
  function WriteGen(g: Generator, d: Desc, a: Approach, v: Value, pos: nat): (r: Result<seq<Byte>>)
    requires Writable(g, Gen, d, a) && Conforms(d, v)
    decreases d, 4, 0
  {
    match d
    case Array(e, _) => WriteRepeat(g, Gen, e, a, v.items, pos)
    case Tuple(es) => WriteList(g, Gen, es, a, v.items, pos)
    case _ => WriteTrait(g, d, a, v, pos)
  }

  /** `<T as approach>::write_to`: the ordered integer impls, or the type's own `WriteSelf`
      through the blanket impl. */
  function WriteTrait(g: Generator, d: Desc, a: Approach, v: Value, pos: nat): (r: Result<seq<Byte>>)
    requires Writable(g, Trait, d, a) && Conforms(d, v)
    decreases d, 3, 0
  {
    if d.Int? then Ok(WriteInt(d.kind, a, v.x)) else WriteOwn(g, d, v, pos)
  }

  /** `<T as WriteSelf>::write_to`: the runtime crate's impls and the derived impls. */
  function WriteOwn(g: Generator, d: Desc, v: Value, pos: nat): (r: Result<seq<Byte>>)
    requires Writable(g, Own, d, Plain) && Conforms(d, v)
    decreases d, 2, 0
  {
    match d
    case Int(k) => Ok(WriteInt(k, Plain, v.x))
    case Phantom => Ok([])
    case Pointer(e) => WriteOwn(g, e, v.inner, pos)
    case Array(e, _) => WriteRepeat(g, Own, e, Plain, v.items, pos)
    case Tuple(es) => WriteList(g, Own, es, Plain, v.items, pos)
    case Padding(n) => Ok(Fill(0, n))
    case PadToAlign(al, fill) => Ok(Fill(fill, PaddingFor(al, pos)))
    case Collection(_) => assert false; Err(Other)
    case Struct(en, fs) => WriteFields(g, fs, en, v.items, pos)
    case Enum(_, _, _, _) => WriteEnum(g, d, v, pos)
  }

  /** A derived enum. Framed, the tag and fields are first written to a fresh in-memory buffer
      (whose positions start at 0); its length is converted to the prefix type, which fails with
      `Other` when it does not fit, and the prefix is written before the buffer's bytes. */
  function WriteEnum(g: Generator, d: Desc, v: Value, pos: nat): (r: Result<seq<Byte>>)
    requires d.Enum? && Writable(g, Own, d, Plain) && Conforms(d, v)
    decreases d, 1, 1
  {
    var Enum(en, t, fr, vs) := d;
    match fr
    case None => WriteTagged(g, en, t, vs, v, pos)
    case Some(pk) =>
      var body :- WriteTagged(g, en, t, vs, v, 0);
      var n :- TryFrom(Kind(pk), |body|);
      Ok(WriteInt(pk, TraitUsage(en), n) + body)
  }

  /** Writes the components of a tuple left to right, each at the position the previous left. */
  function WriteList(g: Generator, via: Via, ds: seq<Desc>, a: Approach, vs: seq<Value>, pos: nat): (r: Result<seq<Byte>>)
    requires ListWritable(g, via, ds, a) && ListConforms(ds, vs)
    decreases ds, 0
  {
    if ds == [] then Ok([])
    else
      var b :- Write(g, via, ds[0], a, vs[0], pos);
      var bs :- WriteList(g, via, ds[1..], a, vs[1..], pos + |b|);
      Ok(b + bs)
  }

  /** Writes values of `e` one after the other, stopping at the first error. */
  function WriteRepeat(g: Generator, via: Via, e: Desc, a: Approach, vs: seq<Value>, pos: nat): (r: Result<seq<Byte>>)
    requires Writable(g, via, e, a) && AllConform(e, vs)
    decreases e, 7, |vs|
  {
    if vs == [] then Ok([])
    else
      var b :- Write(g, via, e, a, vs[0], pos);
      var bs :- WriteRepeat(g, via, e, a, vs[1..], pos + |b|);
      Ok(b + bs)
  }

  /** Writes the fields of a struct or a variant in declaration order. */
  function WriteFields(g: Generator, fs: seq<Field>, en: Option<Endian>, vs: seq<Value>, pos: nat): (r: Result<seq<Byte>>)
    requires FieldsWritable(g, fs, en) && FieldsConform(fs, vs)
    decreases fs, 0
  {
    if fs == [] then Ok([])
    else
      var b :- WriteField(g, fs[0], en, vs[0], pos);
      var bs :- WriteFields(g, fs[1..], en, vs[1..], pos + |b|);
      Ok(b + bs)
  }

  /** Writes one field. The field-aware generator calls a `write_fn` hook when there is one, and
      otherwise writes a length prefix (`write_with_prefix`: the element count converted to the
      prefix type, then every element) when the field has one; the wired generator ignores both. */
  function WriteField(g: Generator, f: Field, en: Option<Endian>, v: Value, pos: nat): (r: Result<seq<Byte>>)
    requires FieldWritable(g, f, en) && FieldConforms(f, v)
    decreases f, 0
  {
    var a := WriteApproach(g, f, en);
    if g.Legacy? then WriteGen(g, f.ty, a, v, pos)
    else if f.writeFn.Some? then f.writeFn.value(v, pos)
    else if f.lengthPrefix.Some? then
      assert Conforms(f.ty, v);
      WritePrefixed(g, f.ty.elem, f.lengthPrefix.value, a, v.items, pos)
    else
      WriteGen(g, f.ty, a, v, pos)
  }

  /** `write_with_prefix`: the element count converted to the prefix type (`Other`, with nothing
      written, when it does not fit), written with the field's approach, then every element
      through the approach's trait, stopping at the first error. */
  function WritePrefixed(g: Generator, e: Desc, p: IntKind, a: Approach, vs: seq<Value>, pos: nat): (r: Result<seq<Byte>>)
    requires IntCodable(p, a) && Writable(g, Trait, e, a) && AllConform(e, vs)
    decreases e, 8
  {
    var n :- TryFrom(Kind(p), |vs|);
    var body :- WriteRepeat(g, Trait, e, a, vs, pos + Width(p));
    Ok(WriteInt(p, a, n) + body)
  }

  /** Writes the tag literal of the value's variant with the container's approach, then that
      variant's fields. */
  function WriteTagged(g: Generator, en: Option<Endian>, t: IntKind, vs: seq<Variant>, v: Value, pos: nat)
    : (r: Result<seq<Byte>>)
    requires IntCodable(t, TraitUsage(en)) && TagsInRange(t, vs) && VariantsWritable(g, vs, en)
    requires v.Tagged? && v.variant < |vs| && FieldsConform(vs[v.variant].fields, v.fields)
    decreases vs, 0
  {
    var tag := WriteInt(t, TraitUsage(en), vs[v.variant].tag);
    var bs :- WriteFields(g, vs[v.variant].fields, en, v.fields, pos + |tag|);
    Ok(tag + bs)
  }
}
