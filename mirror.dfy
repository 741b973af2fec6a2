/** The byte order of a derived type does not change its layout: deriving the same struct or enum
    with `endian = "little"` and with `endian = "big"` gives code that accepts the same values and
    writes the same number of bytes for each of them, or fails in the same way. Integers are
    reordered one by one (`EndianMirror` in the ByteOrder module); every other piece is written
    the same way under both. */
module Mirror {
  import opened Io
  import opened ByteOrder
  import opened Attr
  import opened Conversion
  import opened Primitives
  import opened Grammar
  import opened Schema
  import opened Encoder
  import opened Runtime
  import opened Dispatch

  /** What a write outcome says about the layout: how many bytes were written, or which error
      stopped it. Two outcomes of the same shape succeed with as many bytes or fail alike. */
  function Shape(r: Result<seq<Byte>>): (s: Result<nat>)
    ensures s.Ok? <==> r.Ok?
    ensures r.Ok? ==> s.value == |r.value|
    ensures r.Err? ==> s.error == r.error
  {
    match r
    case Ok(b) => Ok(|b|)
    case Err(e) => Err(e)
  }

  /** The struct or enum `d` derived with `endian` set to `o`. */
  function WithOrder(d: Desc, o: Endian): (r: Desc)
    requires d.Struct? || d.Enum?
    ensures r.Struct? == d.Struct? && r.Enum? == d.Enum? && r.endian == Some(o)
  {
    if d.Struct? then Struct(Some(o), d.fields) else Enum(Some(o), d.tag, d.framing, d.variants)
  }

  /** Equally long heads in front of tails of the same shape. */
  lemma PrependShape(b1: seq<Byte>, b2: seq<Byte>, t1: Result<seq<Byte>>, t2: Result<seq<Byte>>)
    requires |b1| == |b2| && Shape(t1) == Shape(t2)
    ensures Shape(PrependBytes(b1, t1)) == Shape(PrependBytes(b2, t2))
  {
  }

  /** A type reached through the generator or a byte-order trait has a write impl under one byte
      order exactly when it has one under the other. */
  lemma {:induction false} WritableMirror(g: Generator, via: Via, d: Desc, o1: Endian, o2: Endian)
    requires !via.Own?
    ensures Writable(g, via, d, Ordered(o1)) <==> Writable(g, via, d, Ordered(o2))
    decreases d, ViaRank(via)
  {
    if via.Gen? {
      match d
      case Array(e, _) => WritableMirror(g, Gen, e, o1, o2);
      case Tuple(es) => ListWritableMirror(g, es, o1, o2);
      case _ => WritableMirror(g, Trait, d, o1, o2);
    }
  }

  lemma {:induction false} ListWritableMirror(g: Generator, ds: seq<Desc>, o1: Endian, o2: Endian)
    ensures ListWritable(g, Gen, ds, Ordered(o1)) <==> ListWritable(g, Gen, ds, Ordered(o2))
    decreases ds, 0
  {
    forall i | 0 <= i < |ds|
      ensures Writable(g, Gen, ds[i], Ordered(o1)) <==> Writable(g, Gen, ds[i], Ordered(o2))
    {
      WritableMirror(g, Gen, ds[i], o1, o2);
    }
  }

  /** A field of a container with a byte order writes with that order, unless the amended write
      side takes the field's own. */
  lemma OrderedField(g: Generator, f: Field, o: Endian)
    ensures g.Amended? && f.endian.Some? ==> WriteApproach(g, f, Some(o)) == TraitUsage(f.endian)
    ensures !(g.Amended? && f.endian.Some?) ==> WriteApproach(g, f, Some(o)) == Ordered(o)
  {
  }

  lemma FieldWritableMirror(g: Generator, f: Field, o1: Endian, o2: Endian)
    ensures FieldWritable(g, f, Some(o1)) <==> FieldWritable(g, f, Some(o2))
  {
    OrderedField(g, f, o1);
    OrderedField(g, f, o2);
    if !(g.Amended? && f.endian.Some?) {
      WritableMirror(g, Gen, f.ty, o1, o2);
      if f.ty.Collection? {
        WritableMirror(g, Trait, f.ty.elem, o1, o2);
      }
    }
  }

  lemma FieldsWritableMirror(g: Generator, fs: seq<Field>, o1: Endian, o2: Endian)
    ensures FieldsWritable(g, fs, Some(o1)) <==> FieldsWritable(g, fs, Some(o2))
  {
    forall i | 0 <= i < |fs|
      ensures FieldWritable(g, fs[i], Some(o1)) <==> FieldWritable(g, fs[i], Some(o2))
    {
      FieldWritableMirror(g, fs[i], o1, o2);
    }
  }

  lemma VariantsWritableMirror(g: Generator, vs: seq<Variant>, o1: Endian, o2: Endian)
    ensures VariantsWritable(g, vs, Some(o1)) <==> VariantsWritable(g, vs, Some(o2))
  {
    forall j | 0 <= j < |vs|
      ensures FieldsWritable(g, vs[j].fields, Some(o1)) <==> FieldsWritable(g, vs[j].fields, Some(o2))
    {
      FieldsWritableMirror(g, vs[j].fields, o1, o2);
    }
  }

  /** A struct or an enum derives a write impl under one byte order exactly when it derives one
      under the other. */
  lemma DeriveWritableMirror(g: Generator, d: Desc, o1: Endian, o2: Endian)
    requires d.Struct? || d.Enum?
    ensures Writable(g, Own, WithOrder(d, o1), Plain) <==> Writable(g, Own, WithOrder(d, o2), Plain)
  {
    if d.Struct? {
      FieldsWritableMirror(g, d.fields, o1, o2);
    } else {
      VariantsWritableMirror(g, d.variants, o1, o2);
    }
  }

  /** Under either byte order, a value reached through the generator or a byte-order trait writes
      the same number of bytes, or fails with the same error. */
  lemma {:induction false} WriteMirror(g: Generator, via: Via, d: Desc, o1: Endian, o2: Endian, v: Value, pos: nat)
    requires !via.Own? && Writable(g, via, d, Ordered(o1)) && Conforms(d, v)
    ensures Writable(g, via, d, Ordered(o2))
    ensures Shape(Write(g, via, d, Ordered(o1), v, pos)) == Shape(Write(g, via, d, Ordered(o2), v, pos))
    decreases d, ViaRank(via)
  {
    WritableMirror(g, via, d, o1, o2);
    if via.Gen? {
      if d.Array? {
        RepeatMirror(g, Gen, d.elem, o1, o2, v.items, pos);
      } else if d.Tuple? {
        ListMirror(g, d.elems, o1, o2, v.items, pos);
      } else {
        WriteMirror(g, Trait, d, o1, o2, v, pos);
      }
    }
  }

  lemma {:induction false} RepeatMirror(g: Generator, via: Via, e: Desc, o1: Endian, o2: Endian, vs: seq<Value>, pos: nat)
    requires !via.Own? && Writable(g, via, e, Ordered(o1)) && Writable(g, via, e, Ordered(o2)) && AllConform(e, vs)
    ensures Shape(WriteRepeat(g, via, e, Ordered(o1), vs, pos)) == Shape(WriteRepeat(g, via, e, Ordered(o2), vs, pos))
    decreases e, 5, |vs|, 2
  {
    if vs != [] {
      RepeatConsMirror(g, via, e, o1, o2, vs, pos);
    }
  }

  lemma {:induction false} RepeatConsMirror(g: Generator, via: Via, e: Desc, o1: Endian, o2: Endian, vs: seq<Value>, pos: nat)
    requires vs != [] && !via.Own? && Writable(g, via, e, Ordered(o1)) && Writable(g, via, e, Ordered(o2))
    requires AllConform(e, vs)
    ensures Shape(WriteRepeat(g, via, e, Ordered(o1), vs, pos)) == Shape(WriteRepeat(g, via, e, Ordered(o2), vs, pos))
    decreases e, 5, |vs|, 1
  {
    AllConformTail(e, vs);
    WriteMirror(g, via, e, o1, o2, vs[0], pos);
    var h1 := Write(g, via, e, Ordered(o1), vs[0], pos);
    var h2 := Write(g, via, e, Ordered(o2), vs[0], pos);
    var t1, t2 := RepeatTailMirror(g, via, e, o1, o2, vs, pos, h1, h2);
    RepeatStepAt(g, via, e, Ordered(o1), vs, pos, h1, t1);
    RepeatStepAt(g, via, e, Ordered(o2), vs, pos, h2, t2);
    GlueShape(h1, h2, t1, t2);
  }

  /** After heads of the same shape, the tails (if written at all) have the same shape. */
  lemma {:induction false} RepeatTailMirror(g: Generator, via: Via, e: Desc, o1: Endian, o2: Endian, vs: seq<Value>, pos: nat,
                                            h1: Result<seq<Byte>>, h2: Result<seq<Byte>>)
    returns (t1: Result<seq<Byte>>, t2: Result<seq<Byte>>)
    requires vs != [] && !via.Own? && Writable(g, via, e, Ordered(o1)) && Writable(g, via, e, Ordered(o2))
    requires AllConform(e, vs[1..]) && Shape(h1) == Shape(h2)
    ensures h1.Ok? ==> t1 == WriteRepeat(g, via, e, Ordered(o1), vs[1..], pos + |h1.value|)
    ensures h1.Ok? ==> t2 == WriteRepeat(g, via, e, Ordered(o2), vs[1..], pos + |h2.value|)
    ensures h1.Ok? ==> Shape(t1) == Shape(t2)
    decreases e, 5, |vs|, 0
  {
    t1, t2 := Ok([]), Ok([]);
    if h1.Ok? {
      t1 := WriteRepeat(g, via, e, Ordered(o1), vs[1..], pos + |h1.value|);
      t2 := WriteRepeat(g, via, e, Ordered(o2), vs[1..], pos + |h2.value|);
      RepeatMirror(g, via, e, o1, o2, vs[1..], pos + |h1.value|);
    }
  }

  /** The outcome of writing a head and then, if it succeeded, a tail. */
  function Glue(h: Result<seq<Byte>>, t: Result<seq<Byte>>): Result<seq<Byte>> {
    if h.Err? then Err(h.error) else PrependBytes(h.value, t)
  }

  /** Heads of the same shape, and after a successful head tails of the same shape, glue to
      outcomes of the same shape. */
  lemma GlueShape(h1: Result<seq<Byte>>, h2: Result<seq<Byte>>, t1: Result<seq<Byte>>, t2: Result<seq<Byte>>)
    requires Shape(h1) == Shape(h2) && (h1.Ok? ==> Shape(t1) == Shape(t2))
    ensures Shape(Glue(h1, t1)) == Shape(Glue(h2, t2))
  {
  }

  /** A run of values is its first value glued to the others. */
  lemma RepeatStepAt(g: Generator, via: Via, e: Desc, a: Approach, vs: seq<Value>, pos: nat,
                     h: Result<seq<Byte>>, t: Result<seq<Byte>>)
    requires vs != [] && Writable(g, via, e, a) && AllConform(e, vs)
    requires Conforms(e, vs[0]) && AllConform(e, vs[1..])
    requires h == Write(g, via, e, a, vs[0], pos)
    requires h.Ok? ==> t == WriteRepeat(g, via, e, a, vs[1..], pos + |h.value|)
    ensures WriteRepeat(g, via, e, a, vs, pos) == Glue(h, t)
  {
    WriteRepeatStep(g, via, e, a, vs, pos);
  }

  lemma {:induction false} ListMirror(g: Generator, ds: seq<Desc>, o1: Endian, o2: Endian, vs: seq<Value>, pos: nat)
    requires ListWritable(g, Gen, ds, Ordered(o1)) && ListWritable(g, Gen, ds, Ordered(o2)) && ListConforms(ds, vs)
    ensures Shape(WriteList(g, Gen, ds, Ordered(o1), vs, pos)) == Shape(WriteList(g, Gen, ds, Ordered(o2), vs, pos))
    decreases ds, 0
  {
    if ds != [] {
      assert Writable(g, Gen, ds[0], Ordered(o1)) && Conforms(ds[0], vs[0]);
      WriteMirror(g, Gen, ds[0], o1, o2, vs[0], pos);
      var r1 := Write(g, Gen, ds[0], Ordered(o1), vs[0], pos);
      if r1.Ok? {
        assert ListWritable(g, Gen, ds[1..], Ordered(o1)) && ListWritable(g, Gen, ds[1..], Ordered(o2)) by {
          forall i | 0 <= i < |ds[1..]|
            ensures Writable(g, Gen, ds[1..][i], Ordered(o1)) && Writable(g, Gen, ds[1..][i], Ordered(o2))
          {
            assert ds[1..][i] == ds[i + 1];
          }
        }
        assert ListConforms(ds[1..], vs[1..]) by {
          forall i | 0 <= i < |ds[1..]| ensures Conforms(ds[1..][i], vs[1..][i]) {
            assert ds[1..][i] == ds[i + 1] && vs[1..][i] == vs[i + 1];
          }
        }
        ListMirror(g, ds[1..], o1, o2, vs[1..], pos + |r1.value|);
      }
    }
  }

  /** A length-prefixed collection: the count's conversion does not depend on the order, the
      prefix has the width of its type, and the elements mirror one by one. */
  lemma PrefixedMirror(g: Generator, e: Desc, p: IntKind, o1: Endian, o2: Endian, vs: seq<Value>, pos: nat)
    requires Writable(g, Trait, e, Ordered(o1)) && Writable(g, Trait, e, Ordered(o2)) && AllConform(e, vs)
    ensures Shape(WritePrefixed(g, e, p, Ordered(o1), vs, pos)) == Shape(WritePrefixed(g, e, p, Ordered(o2), vs, pos))
  {
    WritePrefixedStep(g, e, p, Ordered(o1), vs, pos);
    WritePrefixedStep(g, e, p, Ordered(o2), vs, pos);
    RepeatMirror(g, Trait, e, o1, o2, vs, pos + Width(p));
    if InRange(p, |vs|) {
      PrependShape(WriteInt(p, Ordered(o1), |vs|), WriteInt(p, Ordered(o2), |vs|),
                   WriteRepeat(g, Trait, e, Ordered(o1), vs, pos + Width(p)),
                   WriteRepeat(g, Trait, e, Ordered(o2), vs, pos + Width(p)));
    }
  }

  /** One field of a container with a byte order, derived under either order. */
  lemma FieldMirror(g: Generator, f: Field, o1: Endian, o2: Endian, v: Value, pos: nat)
    requires FieldWritable(g, f, Some(o1)) && FieldConforms(f, v)
    ensures FieldWritable(g, f, Some(o2))
    ensures Shape(WriteField(g, f, Some(o1), v, pos)) == Shape(WriteField(g, f, Some(o2), v, pos))
  {
    FieldWritableMirror(g, f, o1, o2);
    OrderedField(g, f, o1);
    OrderedField(g, f, o2);
    if g.Amended? && f.endian.Some? {
      assert WriteField(g, f, Some(o1), v, pos) == WriteField(g, f, Some(o2), v, pos);
    } else if g.Legacy? || (f.writeFn.None? && f.lengthPrefix.None?) {
      WriteMirror(g, Gen, f.ty, o1, o2, v, pos);
    } else if f.writeFn.None? {
      PrefixedMirror(g, f.ty.elem, f.lengthPrefix.value, o1, o2, v.items, pos);
    }
  }

  lemma {:induction false} FieldsMirror(g: Generator, fs: seq<Field>, o1: Endian, o2: Endian, vs: seq<Value>, pos: nat)
    requires FieldsWritable(g, fs, Some(o1)) && FieldsConform(fs, vs)
    ensures FieldsWritable(g, fs, Some(o2))
    ensures Shape(WriteFields(g, fs, Some(o1), vs, pos)) == Shape(WriteFields(g, fs, Some(o2), vs, pos))
    decreases |fs|
  {
    FieldsWritableMirror(g, fs, o1, o2);
    if fs != [] {
      assert FieldWritable(g, fs[0], Some(o1)) && FieldConforms(fs[0], vs[0]);
      FieldMirror(g, fs[0], o1, o2, vs[0], pos);
      var r1 := WriteField(g, fs[0], Some(o1), vs[0], pos);
      if r1.Ok? {
        assert FieldsWritable(g, fs[1..], Some(o1)) by {
          forall i | 0 <= i < |fs[1..]| ensures FieldWritable(g, fs[1..][i], Some(o1)) {
            assert fs[1..][i] == fs[i + 1];
          }
        }
        assert FieldsConform(fs[1..], vs[1..]) by {
          forall i | 0 <= i < |fs[1..]| ensures FieldConforms(fs[1..][i], vs[1..][i]) {
            assert fs[1..][i] == fs[i + 1] && vs[1..][i] == vs[i + 1];
          }
        }
        FieldsMirror(g, fs[1..], o1, o2, vs[1..], pos + |r1.value|);
      }
    }
  }

  /** An enum's tag and variant, derived under either order. */
  lemma TaggedMirror(g: Generator, t: IntKind, vs: seq<Variant>, o1: Endian, o2: Endian, v: Value, pos: nat)
    requires TagsInRange(t, vs) && VariantsWritable(g, vs, Some(o1)) && VariantsWritable(g, vs, Some(o2))
    requires v.Tagged? && v.variant < |vs| && FieldsConform(vs[v.variant].fields, v.fields)
    ensures Shape(WriteTagged(g, Some(o1), t, vs, v, pos)) == Shape(WriteTagged(g, Some(o2), t, vs, v, pos))
  {
    var fs := vs[v.variant].fields;
    assert FieldsWritable(g, fs, Some(o1)) && FieldsWritable(g, fs, Some(o2));
    TaggedStep(g, Some(o1), t, vs, v, pos);
    TaggedStep(g, Some(o2), t, vs, v, pos);
    FieldsMirror(g, fs, o1, o2, v.fields, pos + Width(t));
    PrependShape(WriteInt(t, Ordered(o1), vs[v.variant].tag), WriteInt(t, Ordered(o2), vs[v.variant].tag),
                 WriteFields(g, fs, Some(o1), v.fields, pos + Width(t)),
                 WriteFields(g, fs, Some(o2), v.fields, pos + Width(t)));
  }

  /** The tag, then the variant's fields. */
  lemma TaggedStep(g: Generator, en: Option<Endian>, t: IntKind, vs: seq<Variant>, v: Value, pos: nat)
    requires IntCodable(t, TraitUsage(en)) && TagsInRange(t, vs) && VariantsWritable(g, vs, en)
    requires v.Tagged? && v.variant < |vs| && FieldsConform(vs[v.variant].fields, v.fields)
    ensures FieldsWritable(g, vs[v.variant].fields, en)
    ensures WriteTagged(g, en, t, vs, v, pos) ==
      PrependBytes(WriteInt(t, TraitUsage(en), vs[v.variant].tag),
                   WriteFields(g, vs[v.variant].fields, en, v.fields, pos + Width(t)))
  {
  }

  /** A body behind its byte count: the body's error, `Other` when the count does not fit the
      prefix type, or the count and then the body. */
  function Framed(pk: IntKind, a: Approach, body: Result<seq<Byte>>): Result<seq<Byte>>
    requires IntCodable(pk, a)
  {
    match body
    case Err(x) => Err(x)
    case Ok(b) => if InRange(pk, |b|) then Ok(WriteInt(pk, a, |b|) + b) else Err(Other)
  }

  /** Bodies of the same shape framed under either order have the same shape. */
  lemma FramedShape(pk: IntKind, o1: Endian, o2: Endian, b1: Result<seq<Byte>>, b2: Result<seq<Byte>>)
    requires Shape(b1) == Shape(b2)
    ensures Shape(Framed(pk, Ordered(o1), b1)) == Shape(Framed(pk, Ordered(o2), b2))
  {
  }

  /** A derived enum writes its tagged body, framed or not. */
  lemma EnumStep(g: Generator, en: Option<Endian>, t: IntKind, fr: Option<IntKind>, vs: seq<Variant>, v: Value, pos: nat)
    requires Writable(g, Own, Enum(en, t, fr, vs), Plain) && Conforms(Enum(en, t, fr, vs), v)
    ensures fr.None? ==> WriteEnum(g, Enum(en, t, fr, vs), v, pos) == WriteTagged(g, en, t, vs, v, pos)
    ensures fr.Some? ==> WriteEnum(g, Enum(en, t, fr, vs), v, pos) == Framed(fr.value, TraitUsage(en), WriteTagged(g, en, t, vs, v, 0))
  {
  }

  /** An enum's frame, if any, has the width of its prefix type and the body's byte count, so
      both orders frame alike. */
  lemma EnumMirror(g: Generator, t: IntKind, fr: Option<IntKind>, vs: seq<Variant>, o1: Endian, o2: Endian, v: Value, pos: nat)
    requires Writable(g, Own, Enum(Some(o1), t, fr, vs), Plain) && Writable(g, Own, Enum(Some(o2), t, fr, vs), Plain)
    requires Conforms(Enum(Some(o1), t, fr, vs), v)
    ensures Conforms(Enum(Some(o2), t, fr, vs), v)
    ensures Shape(WriteEnum(g, Enum(Some(o1), t, fr, vs), v, pos)) == Shape(WriteEnum(g, Enum(Some(o2), t, fr, vs), v, pos))
  {
    EnumStep(g, Some(o1), t, fr, vs, v, pos);
    EnumStep(g, Some(o2), t, fr, vs, v, pos);
    if fr.None? {
      TaggedMirror(g, t, vs, o1, o2, v, pos);
    } else {
      TaggedMirror(g, t, vs, o1, o2, v, 0);
      FramedShape(fr.value, o1, o2, WriteTagged(g, Some(o1), t, vs, v, 0), WriteTagged(g, Some(o2), t, vs, v, 0));
    }
  }

  /** Deriving a struct or an enum with the other byte order: a value is written under one order
      exactly when it is written under the other, with as many bytes, and a failure is the same
      failure. */
  lemma DeriveMirror(g: Generator, d: Desc, o1: Endian, o2: Endian, v: Value, pos: nat)
    requires (d.Struct? || d.Enum?) && Writable(g, Own, WithOrder(d, o1), Plain) && Conforms(d, v)
    ensures Writable(g, Own, WithOrder(d, o2), Plain)
    ensures Conforms(WithOrder(d, o1), v) && Conforms(WithOrder(d, o2), v)
    ensures Shape(Write(g, Own, WithOrder(d, o1), Plain, v, pos)) == Shape(Write(g, Own, WithOrder(d, o2), Plain, v, pos))
  {
    DeriveWritableMirror(g, d, o1, o2);
    if d.Struct? {
      FieldsMirror(g, d.fields, o1, o2, v.items, pos);
    } else {
      assert WithOrder(d, o1) == Enum(Some(o1), d.tag, d.framing, d.variants);
      assert WithOrder(d, o2) == Enum(Some(o2), d.tag, d.framing, d.variants);
      EnumMirror(g, d.tag, d.framing, d.variants, o1, o2, v, pos);
    }
  }
}
