/** What the generated `read_from` does: an interpreter over the type layout that consumes a
    position-aware stream. The generator unrolls arrays and tuples (`read_for_type`), reads each
    field with its approach (`derive_read_fields`), and reads an enum's tag, then the fields of
    the first variant whose literal matches, optionally inside a byte-length frame
    (`read_self_body`). Leaves go through the impls of the runtime crate. */
module Decoder {
  import opened Io
  import opened ByteOrder
  import opened Attr
  import opened Conversion
  import opened Primitives
  import opened Grammar
  import opened Schema

  /** Reads a value of `d`, reached via `via` under approach `a`. What it returns is a value of
      `d` (`ReadConforms` in the Decoded module). */
  function Read(g: Generator, via: Via, d: Desc, a: Approach, c: Cursor): (r: Result<(Value, Cursor)>)
    requires Readable(g, via, d, a)
    decreases d, 6, 0
  {
    match via
    case Gen => ReadGen(g, d, a, c)
    case Trait => ReadTrait(g, d, a, c)
    case Own => ReadOwn(g, d, c)
  }

  /** `read_for_type`: arrays and tuples are unrolled with the same approach; anything else is
      read through the approach's trait. */
  function ReadGen(g: Generator, d: Desc, a: Approach, c: Cursor): (r: Result<(Value, Cursor)>)
    requires Readable(g, Gen, d, a)
    decreases d, 4, 0
  {
    match d
    case Array(e, n) =>
      var p :- ReadRepeat(g, Gen, e, n, a, c);
      Ok((Items(p.0), p.1))
    case Tuple(es) =>
      var p :- ReadList(g, Gen, es, a, c);
      Ok((Items(p.0), p.1))
    case _ => ReadTrait(g, d, a, c)
  }

  /** `<T as approach>::read_from`: the multi-byte integers have ordered impls of their own;
      every other type reaches its `ReadSelf` impl through the blanket impl, which ignores the
      byte order. */
  function ReadTrait(g: Generator, d: Desc, a: Approach, c: Cursor): (r: Result<(Value, Cursor)>)
    requires Readable(g, Trait, d, a)
    decreases d, 3, 0
  {
    if d.Int? then
      var p :- ReadInt(d.kind, a, c);
      Ok((IntV(p.0), p.1))
    else
      ReadOwn(g, d, c)
  }

  /** `<T as ReadSelf>::read_from`: the runtime crate's impls, and the derived impls of structs
      and enums, which use their own container options. */
  function ReadOwn(g: Generator, d: Desc, c: Cursor): (r: Result<(Value, Cursor)>)
    requires Readable(g, Own, d, Plain)
    decreases d, 2, 0
  {
    match d
    case Int(k) =>
      var p :- ReadInt(k, Plain, c);
      Ok((IntV(p.0), p.1))
    case Phantom => Ok((Unit, c))
    case Pointer(e) =>
      var p :- ReadOwn(g, e, c);
      Ok((Boxed(p.0), p.1))
    case Array(e, n) =>
      var p :- ReadRepeat(g, Own, e, n, Plain, c);
      Ok((Items(p.0), p.1))
    case Tuple(es) =>
      var p :- ReadList(g, Own, es, Plain, c);
      Ok((Items(p.0), p.1))
    case Padding(n) =>
      var c1 :- Skip(c, n);
      Ok((Unit, c1))
    case PadToAlign(al, _) =>
      var c1 :- Skip(c, PaddingFor(al, c.pos));
      Ok((Unit, c1))
    case Collection(_) => assert false; Err(Other)
    case Struct(en, fs) =>
      var p :- ReadFields(g, fs, en, c);
      Ok((Items(p.0), p.1))
    case Enum(_, _, _, _) => ReadEnum(g, d, c)
  }

  /** A derived enum: unframed, the tagged body is read from the stream; framed, a byte count is
      read with the container's approach and converted to `usize`, exactly that many bytes are
      taken, and the tagged body is read from them alone, starting at position 0. */
  function ReadEnum(g: Generator, d: Desc, c: Cursor): (r: Result<(Value, Cursor)>)
    requires d.Enum? && Readable(g, Own, d, Plain)
    decreases d, 1, 1
  {
    var Enum(en, t, fr, vs) := d;
    match fr
    case None => ReadTagged(g, en, t, vs, c)
    case Some(pk) =>
      var raw :- ReadInt(pk, TraitUsage(en), c);
      var len :- TryFrom(Usize, raw.0);
      var frame :- ReadExact(raw.1, len);
      var inner :- ReadTagged(g, en, t, vs, Cursor(frame.0, 0));
      Ok((inner.0, frame.1))
  }

  /** Reads the components of a tuple left to right. */
  function ReadList(g: Generator, via: Via, ds: seq<Desc>, a: Approach, c: Cursor): (r: Result<(seq<Value>, Cursor)>)
    requires ListReadable(g, via, ds, a)
    decreases ds, 0
  {
    if ds == [] then Ok(([], c))
    else
      var p :- Read(g, via, ds[0], a, c);
      var q :- ReadList(g, via, ds[1..], a, p.1);
      Ok(([p.0] + q.0, q.1))
  }

  /** Reads `n` values of `e` one after the other, stopping at the first error. */
  function ReadRepeat(g: Generator, via: Via, e: Desc, n: nat, a: Approach, c: Cursor): (r: Result<(seq<Value>, Cursor)>)
    requires Readable(g, via, e, a)
    decreases e, 7, n
  {
    if n == 0 then Ok(([], c))
    else
      var p :- Read(g, via, e, a, c);
      var q :- ReadRepeat(g, via, e, n - 1, a, p.1);
      Ok(([p.0] + q.0, q.1))
  }

  /** Reads the fields of a struct or a variant in declaration order. */
  function ReadFields(g: Generator, fs: seq<Field>, en: Option<Endian>, c: Cursor): (r: Result<(seq<Value>, Cursor)>)
    requires FieldsReadable(g, fs, en)
    decreases fs, 0
  {
    if fs == [] then Ok(([], c))
    else
      var p :- ReadField(g, fs[0], en, c);
      var q :- ReadFields(g, fs[1..], en, p.1);
      Ok(([p.0] + q.0, q.1))
  }

  /** Reads one field. With a length prefix (field-aware generator only) the prefix is read and
      converted to `usize`, then exactly that many elements are read; this takes priority over
      the field's shape. */
  function ReadField(g: Generator, f: Field, en: Option<Endian>, c: Cursor): (r: Result<(Value, Cursor)>)
    requires FieldReadable(g, f, en)
    decreases f, 0
  {
    var a := ReadApproach(g, f, en);
    if !g.Legacy? && f.lengthPrefix.Some? then ReadPrefixed(g, f.ty.elem, f.lengthPrefix.value, a, c)
    else ReadGen(g, f.ty, a, c)
  }

  /** A length-prefixed collection: the count is read with the field's approach and converted to
      `usize` (`Other` when it does not fit), then `read_with_length` reads exactly that many
      elements through the approach's trait and collects them. */
  function ReadPrefixed(g: Generator, e: Desc, p: IntKind, a: Approach, c: Cursor): (r: Result<(Value, Cursor)>)
    requires IntCodable(p, a) && Readable(g, Trait, e, a)
    decreases e, 8
  {
    var raw :- ReadInt(p, a, c);
    var n :- TryFrom(Usize, raw.0);
    var q :- ReadRepeat(g, Trait, e, n, a, raw.1);
    Ok((Items(q.0), q.1))
  }

  /** Reads an enum's tag with the container's approach, then the fields of the first variant
      whose literal equals it; a tag that matches none is `InvalidData` carrying the tag. */
  function ReadTagged(g: Generator, en: Option<Endian>, t: IntKind, vs: seq<Variant>, c: Cursor)
    : (r: Result<(Value, Cursor)>)
    requires IntCodable(t, TraitUsage(en)) && VariantsReadable(g, vs, en)
    decreases vs, 0
  {
    var tag :- ReadInt(t, TraitUsage(en), c);
    match FirstVariant(vs, tag.0)
    case None => Err(InvalidData(tag.0))
    case Some(i) =>
      var p :- ReadFields(g, vs[i].fields, en, tag.1);
      Ok((Tagged(i, p.0), p.1))
  }

  /** `ReadSelf::from_bytes`: reads one value from the start of `bytes`; whatever follows it is
      not inspected. */
  function FromBytes(g: Generator, d: Desc, bytes: seq<Byte>): (r: Result<Value>)
    requires Readable(g, Own, d, Plain)
  {
    var p :- Read(g, Own, d, Plain, Cursor(bytes, 0));
    Ok(p.0)
  }

  /** `ReadSelf::read_exact_from`: `count` values of `d`, read as an array of that length is. */
  function ReadExactFrom(g: Generator, d: Desc, count: nat, c: Cursor): (r: Result<(seq<Value>, Cursor)>)
    requires Readable(g, Own, d, Plain)
  {
    ReadRepeat(g, Own, d, count, Plain, c)
  }

  /** Box, Rc and Arc are transparent: they read exactly what the inner type reads. */
  lemma PointerTransparent(g: Generator, e: Desc, c: Cursor)
    requires Readable(g, Own, e, Plain)
    ensures Readable(g, Own, Pointer(e), Plain)
    ensures Read(g, Own, Pointer(e), Plain, c) ==
      match Read(g, Own, e, Plain, c)
      case Err(err) => Err(err)
      case Ok(p) => Ok((Boxed(p.0), p.1))
  {
  }

  /** `()` and `PhantomData` read nothing. */
  lemma MarkersReadNothing(g: Generator, c: Cursor)
    ensures Read(g, Own, Phantom, Plain, c) == Ok((Unit, c))
    ensures Read(g, Own, Tuple([]), Plain, c) == Ok((Items([]), c))
  {
  }

  /** `Padding<N>` consumes `N` bytes without looking at them; `PadToAlign<N, P>` consumes the
      padding up to the next multiple of `N` from the current position, whatever its bytes. */
  lemma PaddingSkipsBytes(g: Generator, n: nat, align: nat, fill: Byte, c: Cursor)
    ensures Read(g, Own, Padding(n), Plain, c).Ok? <==> n <= |c.rest|
    ensures n <= |c.rest| ==> Read(g, Own, Padding(n), Plain, c) == Ok((Unit, Cursor(c.rest[n..], c.pos + n)))
    ensures Read(g, Own, PadToAlign(align, fill), Plain, c).Ok? <==> PaddingFor(align, c.pos) <= |c.rest|
    ensures Read(g, Own, PadToAlign(align, fill), Plain, c).Err? ==>
      Read(g, Own, PadToAlign(align, fill), Plain, c).error == UnexpectedEof
    ensures PaddingFor(align, c.pos) <= |c.rest| ==>
      Read(g, Own, PadToAlign(align, fill), Plain, c) ==
        Ok((Unit, Cursor(c.rest[PaddingFor(align, c.pos)..], c.pos + PaddingFor(align, c.pos))))
  {
  }

  /** An unframed enum whose tag matches no variant is rejected with that tag. */
  lemma UnknownTagRejected(g: Generator, d: Desc, c: Cursor)
    requires d.Enum? && Readable(g, Own, d, Plain)
    requires ReadInt(d.tag, TraitUsage(d.endian), c).Ok?
    requires forall j :: 0 <= j < |d.variants| ==> d.variants[j].tag != ReadInt(d.tag, TraitUsage(d.endian), c).value.0
    ensures d.framing.None? ==> Read(g, Own, d, Plain, c) == Err(InvalidData(ReadInt(d.tag, TraitUsage(d.endian), c).value.0))
  {
    if d.framing.None? {
      var tag := ReadInt(d.tag, TraitUsage(d.endian), c).value.0;
      assert FirstVariant(d.variants, tag).None?;
      assert ReadEnum(g, d, c) == ReadTagged(g, d.endian, d.tag, d.variants, c);
      assert Read(g, Own, d, Plain, c) == ReadEnum(g, d, c);
    }
  }

  /** A framed enum whose frame holds a tag that matches no variant is rejected with that tag:
      the count is read and converted, the frame is taken, and the tag is read from the frame. */
  lemma FramedUnknownTagRejected(g: Generator, d: Desc, c: Cursor, n: int, c1: Cursor, frame: seq<Byte>, c2: Cursor)
    requires d.Enum? && d.framing.Some? && Readable(g, Own, d, Plain)
    requires ReadInt(d.framing.value, TraitUsage(d.endian), c) == Ok((n, c1))
    requires TryFrom(Usize, n).Ok?
    requires ReadExact(c1, n) == Ok((frame, c2))
    requires ReadInt(d.tag, TraitUsage(d.endian), Cursor(frame, 0)).Ok?
    requires forall j :: 0 <= j < |d.variants| ==>
      d.variants[j].tag != ReadInt(d.tag, TraitUsage(d.endian), Cursor(frame, 0)).value.0
    ensures Read(g, Own, d, Plain, c) == Err(InvalidData(ReadInt(d.tag, TraitUsage(d.endian), Cursor(frame, 0)).value.0))
  {
    var tag := ReadInt(d.tag, TraitUsage(d.endian), Cursor(frame, 0)).value.0;
    assert FirstVariant(d.variants, tag).None?;
    FramedReadSteps(g, d, c, n, c1, frame, c2);
  }

  /** A framed enum reads a byte count, takes exactly that many bytes, and decodes the tag and the
      fields from those bytes alone at position 0: running short inside the frame is an error
      even when the stream holds more, bytes of the frame left over are not checked, and the
      stream continues right after the frame. */
  lemma FramedDecode(g: Generator, d: Desc, frame: seq<Byte>, rest: seq<Byte>, pos: nat)
    requires d.Enum? && d.framing.Some? && Readable(g, Own, d, Plain)
    requires InRange(d.framing.value, |frame|) && |frame| <= UsizeMax
    ensures
      var prefix := WriteInt(d.framing.value, TraitUsage(d.endian), |frame|);
      Read(g, Own, d, Plain, Cursor(prefix + frame + rest, pos)) ==
        match ReadTagged(g, d.endian, d.tag, d.variants, Cursor(frame, 0))
        case Err(err) => Err(err)
        case Ok(p) => Ok((p.0, Cursor(rest, pos + |prefix| + |frame|)))
  {
    var prefix := WriteInt(d.framing.value, TraitUsage(d.endian), |frame|);
    FrameReadsBack(d.framing.value, TraitUsage(d.endian), frame, rest, pos);
    FramedReadSteps(g, d, Cursor(prefix + frame + rest, pos), |frame|, Cursor(frame + rest, pos + |prefix|),
                    frame, Cursor(rest, pos + |prefix| + |frame|));
  }

  /** A frame behind its length reads back: first the length, then exactly the frame. */
  lemma FrameReadsBack(pk: IntKind, a: Approach, frame: seq<Byte>, rest: seq<Byte>, pos: nat)
    requires IntCodable(pk, a) && InRange(pk, |frame|)
    ensures var prefix := WriteInt(pk, a, |frame|);
      ReadInt(pk, a, Cursor(prefix + frame + rest, pos)) == Ok((|frame|, Cursor(frame + rest, pos + |prefix|))) &&
      ReadExact(Cursor(frame + rest, pos + |prefix|), |frame|) == Ok((frame, Cursor(rest, pos + |prefix| + |frame|)))
  {
    var prefix := WriteInt(pk, a, |frame|);
    AppendAssoc(prefix, frame, rest);
    IntCursorRoundTrip(pk, a, |frame|, frame + rest, pos);
    ReadExactOfPrefix(frame, rest, pos + |prefix|);
  }

  /** The steps of a framed read: the count, the frame, and the body decoded from the frame. */
  lemma FramedReadSteps(g: Generator, d: Desc, c: Cursor, n: int, c1: Cursor, frame: seq<Byte>, c2: Cursor)
    requires d.Enum? && d.framing.Some? && Readable(g, Own, d, Plain) && 0 <= n <= UsizeMax
    requires ReadInt(d.framing.value, TraitUsage(d.endian), c) == Ok((n, c1))
    requires ReadExact(c1, n) == Ok((frame, c2))
    ensures Read(g, Own, d, Plain, c) ==
      match ReadTagged(g, d.endian, d.tag, d.variants, Cursor(frame, 0))
      case Err(err) => Err(err)
      case Ok(p) => Ok((p.0, c2))
  {
    assert Read(g, Own, d, Plain, c) == ReadEnum(g, d, c);
  }

  /** A framed enum whose frame is too short to hold a tag fails with `UnexpectedEof`, however
      many bytes follow the frame. */
  lemma FramedEofInsideFrame(g: Generator, d: Desc, frame: seq<Byte>, rest: seq<Byte>, pos: nat)
    requires d.Enum? && d.framing.Some? && Readable(g, Own, d, Plain)
    requires InRange(d.framing.value, |frame|) && |frame| < Width(d.tag)
    ensures
      var prefix := WriteInt(d.framing.value, TraitUsage(d.endian), |frame|);
      Read(g, Own, d, Plain, Cursor(prefix + frame + rest, pos)) == Err(UnexpectedEof)
  {
    ShortTagIsEof(g, d.endian, d.tag, d.variants, Cursor(frame, 0));
    FramedDecode(g, d, frame, rest, pos);
  }

  /** Too few bytes for a tag: the tagged body fails with `UnexpectedEof` before choosing a variant. */
  lemma ShortTagIsEof(g: Generator, en: Option<Endian>, t: IntKind, vs: seq<Variant>, c: Cursor)
    requires IntCodable(t, TraitUsage(en)) && VariantsReadable(g, vs, en) && |c.rest| < Width(t)
    ensures ReadTagged(g, en, t, vs, c) == Err(UnexpectedEof)
  {
  }
}
