/** Whatever the generated decoder returns is a value of the type it decoded: integers in range,
    arrays of their length, collections within `usize`, enum values naming one of their variants.
    One lemma per decoder function, by the same mutual recursion. */
module Decoded {
  import opened Io
  import opened ByteOrder
  import opened Attr
  import opened Conversion
  import opened Primitives
  import opened Grammar
  import opened Schema
  import opened Decoder

  lemma {:induction false} ReadConforms(g: Generator, via: Via, d: Desc, a: Approach, c: Cursor)
    requires Readable(g, via, d, a)
    ensures Read(g, via, d, a, c).Ok? ==> Conforms(d, Read(g, via, d, a, c).value.0)
    decreases d, 6, 0
  {
    match via
    case Gen => ReadGenConforms(g, d, a, c);
    case Trait => ReadTraitConforms(g, d, a, c);
    case Own => ReadOwnConforms(g, d, c);
  }

  lemma {:induction false} ReadGenConforms(g: Generator, d: Desc, a: Approach, c: Cursor)
    requires Readable(g, Gen, d, a)
    ensures ReadGen(g, d, a, c).Ok? ==> Conforms(d, ReadGen(g, d, a, c).value.0)
    decreases d, 4, 0
  {
    match d
    case Array(e, n) => ReadRepeatConforms(g, Gen, e, n, a, c);
    case Tuple(es) => ReadListConforms(g, Gen, es, a, c);
    case _ => ReadTraitConforms(g, d, a, c);
  }

  lemma {:induction false} ReadTraitConforms(g: Generator, d: Desc, a: Approach, c: Cursor)
    requires Readable(g, Trait, d, a)
    ensures ReadTrait(g, d, a, c).Ok? ==> Conforms(d, ReadTrait(g, d, a, c).value.0)
    decreases d, 3, 0
  {
    if !d.Int? {
      ReadOwnConforms(g, d, c);
    }
  }

  lemma {:induction false} ReadOwnConforms(g: Generator, d: Desc, c: Cursor)
    requires Readable(g, Own, d, Plain)
    ensures ReadOwn(g, d, c).Ok? ==> Conforms(d, ReadOwn(g, d, c).value.0)
    decreases d, 2, 0
  {
    match d
    case Int(_) =>
    case Phantom =>
    case Pointer(e) => ReadOwnConforms(g, e, c);
    case Array(e, n) => ReadRepeatConforms(g, Own, e, n, Plain, c);
    case Tuple(es) => ReadListConforms(g, Own, es, Plain, c);
    case Padding(_) =>
    case PadToAlign(_, _) =>
    case Collection(_) => assert false;
    case Struct(en, fs) => ReadFieldsConforms(g, fs, en, c);
    case Enum(_, _, _, _) => ReadEnumConforms(g, d, c);
  }

  lemma {:induction false} ReadEnumConforms(g: Generator, d: Desc, c: Cursor)
    requires d.Enum? && Readable(g, Own, d, Plain)
    ensures ReadEnum(g, d, c).Ok? ==> Conforms(d, ReadEnum(g, d, c).value.0)
    decreases d, 1, 1
  {
    var Enum(en, t, fr, vs) := d;
    match fr
    case None => ReadTaggedConforms(g, en, t, vs, c);
    case Some(pk) =>
      var raw := ReadInt(pk, TraitUsage(en), c);
      if raw.Ok? && TryFrom(Usize, raw.value.0).Ok? {
        var frame := ReadExact(raw.value.1, TryFrom(Usize, raw.value.0).value);
        if frame.Ok? {
          ReadTaggedConforms(g, en, t, vs, Cursor(frame.value.0, 0));
        }
      }
  }

  lemma {:induction false} ReadListConforms(g: Generator, via: Via, ds: seq<Desc>, a: Approach, c: Cursor)
    requires ListReadable(g, via, ds, a)
    ensures ReadList(g, via, ds, a, c).Ok? ==> ListConforms(ds, ReadList(g, via, ds, a, c).value.0)
    decreases ds, 0
  {
    if ds != [] {
      var p := Read(g, via, ds[0], a, c);
      ReadConforms(g, via, ds[0], a, c);
      if p.Ok? {
        var q := ReadList(g, via, ds[1..], a, p.value.1);
        ReadListConforms(g, via, ds[1..], a, p.value.1);
        if q.Ok? {
          ListConformsCons(ds, p.value.0, q.value.0);
        }
      }
    }
  }

  lemma {:induction false} ReadRepeatConforms(g: Generator, via: Via, e: Desc, n: nat, a: Approach, c: Cursor)
    requires Readable(g, via, e, a)
    ensures ReadRepeat(g, via, e, n, a, c).Ok? ==>
      |ReadRepeat(g, via, e, n, a, c).value.0| == n && AllConform(e, ReadRepeat(g, via, e, n, a, c).value.0)
    decreases e, 7, n
  {
    if n != 0 {
      var p := Read(g, via, e, a, c);
      ReadConforms(g, via, e, a, c);
      if p.Ok? {
        var q := ReadRepeat(g, via, e, n - 1, a, p.value.1);
        ReadRepeatConforms(g, via, e, n - 1, a, p.value.1);
        if q.Ok? {
          AllConformCons(e, p.value.0, q.value.0);
        }
      }
    }
  }

  lemma {:induction false} ReadFieldsConforms(g: Generator, fs: seq<Field>, en: Option<Endian>, c: Cursor)
    requires FieldsReadable(g, fs, en)
    ensures ReadFields(g, fs, en, c).Ok? ==> FieldsConform(fs, ReadFields(g, fs, en, c).value.0)
    decreases fs, 0
  {
    if fs != [] {
      var p := ReadField(g, fs[0], en, c);
      ReadFieldConforms(g, fs[0], en, c);
      if p.Ok? {
        var q := ReadFields(g, fs[1..], en, p.value.1);
        ReadFieldsConforms(g, fs[1..], en, p.value.1);
        if q.Ok? {
          FieldsConformCons(fs, p.value.0, q.value.0);
        }
      }
    }
  }

  lemma {:induction false} ReadFieldConforms(g: Generator, f: Field, en: Option<Endian>, c: Cursor)
    requires FieldReadable(g, f, en)
    ensures ReadField(g, f, en, c).Ok? ==> FieldConforms(f, ReadField(g, f, en, c).value.0)
    decreases f, 0
  {
    var a := ReadApproach(g, f, en);
    if !g.Legacy? && f.lengthPrefix.Some? {
      ReadPrefixedConforms(g, f.ty.elem, f.lengthPrefix.value, a, c);
    } else {
      ReadGenConforms(g, f.ty, a, c);
    }
  }

  lemma {:induction false} ReadPrefixedConforms(g: Generator, e: Desc, p: IntKind, a: Approach, c: Cursor)
    requires IntCodable(p, a) && Readable(g, Trait, e, a)
    ensures ReadPrefixed(g, e, p, a, c).Ok? ==> Conforms(Collection(e), ReadPrefixed(g, e, p, a, c).value.0)
    decreases e, 8
  {
    var raw := ReadInt(p, a, c);
    if raw.Ok? && TryFrom(Usize, raw.value.0).Ok? {
      ReadRepeatConforms(g, Trait, e, TryFrom(Usize, raw.value.0).value, a, raw.value.1);
    }
  }

  lemma {:induction false} ReadTaggedConforms(g: Generator, en: Option<Endian>, t: IntKind, vs: seq<Variant>, c: Cursor)
    requires IntCodable(t, TraitUsage(en)) && VariantsReadable(g, vs, en)
    ensures var r := ReadTagged(g, en, t, vs, c);
      r.Ok? ==> r.value.0.Tagged? && r.value.0.variant < |vs| && FieldsConform(vs[r.value.0.variant].fields, r.value.0.fields)
    decreases vs, 0
  {
    var tag := ReadInt(t, TraitUsage(en), c);
    if tag.Ok? && FirstVariant(vs, tag.value.0).Some? {
      var i := FirstVariant(vs, tag.value.0).value;
      ReadFieldsConforms(g, vs[i].fields, en, tag.value.1);
    }
  }

  /** `from_bytes` returns a value of the type. */
  lemma FromBytesConforms(g: Generator, d: Desc, bytes: seq<Byte>)
    requires Readable(g, Own, d, Plain)
    ensures FromBytes(g, d, bytes).Ok? ==> Conforms(d, FromBytes(g, d, bytes).value)
  {
    ReadConforms(g, Own, d, Plain, Cursor(bytes, 0));
  }

  /** `read_exact_from` returns exactly `count` values of the type. */
  lemma ReadExactFromConforms(g: Generator, d: Desc, count: nat, c: Cursor)
    requires Readable(g, Own, d, Plain)
    ensures var r := ReadExactFrom(g, d, count, c);
      r.Ok? ==> |r.value.0| == count && AllConform(d, r.value.0)
  {
    ReadRepeatConforms(g, Own, d, count, Plain, c);
  }

  lemma ListConformsCons(ds: seq<Desc>, x: Value, xs: seq<Value>)
    requires ds != [] && Conforms(ds[0], x) && ListConforms(ds[1..], xs)
    ensures ListConforms(ds, [x] + xs)
  {
    forall i | 0 <= i < |ds|
      ensures Conforms(ds[i], ([x] + xs)[i])
    {
      if i > 0 {
        assert ds[1..][i - 1] == ds[i];
        assert xs[i - 1] == ([x] + xs)[i];
      }
    }
  }

  lemma AllConformCons(e: Desc, x: Value, xs: seq<Value>)
    requires Conforms(e, x) && AllConform(e, xs)
    ensures AllConform(e, [x] + xs)
  {
    forall i | 0 <= i < |[x] + xs|
      ensures Conforms(e, ([x] + xs)[i])
    {
      if i > 0 {
        assert xs[i - 1] == ([x] + xs)[i];
      }
    }
  }

  lemma FieldsConformCons(fs: seq<Field>, x: Value, xs: seq<Value>)
    requires fs != [] && FieldConforms(fs[0], x) && FieldsConform(fs[1..], xs)
    ensures FieldsConform(fs, [x] + xs)
  {
    forall i | 0 <= i < |fs|
      ensures FieldConforms(fs[i], ([x] + xs)[i])
    {
      if i > 0 {
        assert fs[1..][i - 1] == fs[i];
        assert xs[i - 1] == ([x] + xs)[i];
      }
    }
  }
}
