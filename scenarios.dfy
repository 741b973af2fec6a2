/** Concrete layouts from the derive macros' own test programs and what the model makes of them:
    the exact bytes written, the value read back, and the inputs on which the two generators
    behave differently. */
module Scenarios {
  import opened Io
  import opened ByteOrder
  import opened Attr
  import opened Primitives
  import opened Schema
  import opened Decoder
  import opened Encoder
  import opened Runtime
  import opened Dispatch
  import opened RoundTrip

  lemma U32BigOne()
    ensures WriteInt(U32, Ordered(Big), 1) == [0, 0, 0, 1]
  {
  }

  lemma U16BigTwo()
    ensures WriteInt(U16, Ordered(Big), 2) == [0, 2]
  {
  }

  lemma I64BigZero()
    ensures WriteInt(I64, Ordered(Big), 0) == [0, 0, 0, 0, 0, 0, 0, 0]
  {
  }

  lemma I64LittleMinusOne()
    ensures WriteInt(I64, Ordered(Little), -1) == [255, 255, 255, 255, 255, 255, 255, 255]
  {
  }

  /** What writing `v` as the field `f` at `pos` yields, or `None` when the field is not writable
      or `v` is not one of its values. */
  function FieldOutcome(g: Generator, f: Field, en: Option<Endian>, v: Value, pos: nat): Option<Result<seq<Byte>>> {
    if FieldWritable(g, f, en) && FieldConforms(f, v) then Some(WriteField(g, f, en, v, pos)) else None
  }

  /** What writing `vs` as the fields `fs` from `pos` on yields, or `None` when they are not all
      writable or `vs` are not values of theirs. */
  function FieldsOutcome(g: Generator, fs: seq<Field>, en: Option<Endian>, vs: seq<Value>, pos: nat)
    : Option<Result<seq<Byte>>>
  {
    if FieldsWritable(g, fs, en) && FieldsConform(fs, vs) then Some(WriteFields(g, fs, en, vs, pos)) else None
  }

  /** A writable field of the value's type before writable fields of theirs. */
  lemma FieldsConsTyped(g: Generator, en: Option<Endian>, f: Field, fs: seq<Field>, v: Value, vs: seq<Value>)
    requires FieldWritable(g, f, en) && FieldsWritable(g, fs, en) && FieldConforms(f, v) && FieldsConform(fs, vs)
    ensures FieldsWritable(g, [f] + fs, en) && FieldsConform([f] + fs, [v] + vs)
    ensures ([f] + fs)[0] == f && ([f] + fs)[1..] == fs && ([v] + vs)[0] == v && ([v] + vs)[1..] == vs
  {
    var gs := [f] + fs;
    var ws := [v] + vs;
    assert gs[1..] == fs && ws[1..] == vs;
    forall i | 0 <= i < |gs|
      ensures FieldWritable(g, gs[i], en) && FieldConforms(gs[i], ws[i])
    {
      if i > 0 {
        assert gs[i] == fs[i - 1] && ws[i] == vs[i - 1];
      }
    }
  }

  /** Writing a field list is its first field's bytes, then the rest's from where they end. */
  lemma FieldsCons(g: Generator, en: Option<Endian>, f: Field, fs: seq<Field>, v: Value, vs: seq<Value>, pos: nat,
                   b: seq<Byte>, bs: seq<Byte>)
    requires FieldOutcome(g, f, en, v, pos) == Some(Ok(b)) && FieldsOutcome(g, fs, en, vs, pos + |b|) == Some(Ok(bs))
    ensures FieldsOutcome(g, [f] + fs, en, [v] + vs, pos) == Some(Ok(b + bs))
  {
    FieldsConsTyped(g, en, f, fs, v, vs);
    FieldsStep(g, en, [f] + fs, [v] + vs, pos);
  }

  /** Writing a single field list is that field's bytes. */
  lemma FieldsSingle(g: Generator, en: Option<Endian>, f: Field, v: Value, pos: nat, b: seq<Byte>)
    requires FieldOutcome(g, f, en, v, pos) == Some(Ok(b))
    ensures FieldsOutcome(g, [f], en, [v], pos) == Some(Ok(b))
  {
    assert [f][1..] == [] && [v][1..] == [];
    assert FieldsWritable(g, [f], en) && FieldsConform([f], [v]);
    FieldsStep(g, en, [f], [v], pos);
    assert b + [] == b;
  }

  /** One field, then the rest. */
  lemma FieldsStep(g: Generator, en: Option<Endian>, fs: seq<Field>, vs: seq<Value>, pos: nat)
    requires FieldsWritable(g, fs, en) && FieldsConform(fs, vs) && fs != []
    requires FieldWritable(g, fs[0], en) && FieldConforms(fs[0], vs[0])
    requires FieldsWritable(g, fs[1..], en) && FieldsConform(fs[1..], vs[1..])
    ensures WriteFields(g, fs, en, vs, pos) ==
      (match WriteField(g, fs[0], en, vs[0], pos)
       case Err(x) => Err(x)
       case Ok(b) => PrependBytes(b, WriteFields(g, fs[1..], en, vs[1..], pos + |b|)))
  {
  }

  /** Two fields are written one after the other. */
  lemma FieldsOfTwo(g: Generator, en: Option<Endian>, f1: Field, f2: Field, v1: Value, v2: Value,
                    pos: nat, b1: seq<Byte>, b2: seq<Byte>)
    requires FieldOutcome(g, f1, en, v1, pos) == Some(Ok(b1)) && FieldOutcome(g, f2, en, v2, pos + |b1|) == Some(Ok(b2))
    ensures FieldsOutcome(g, [f1, f2], en, [v1, v2], pos) == Some(Ok(b1 + b2))
  {
    FieldsSingle(g, en, f2, v2, pos + |b1|, b2);
    FieldsCons(g, en, f1, [f2], v1, [v2], pos, b1, b2);
    PairLiteral(f1, f2);
    PairLiteral(v1, v2);
  }

  /** Two one-element sequences concatenate to the two-element literal. */
  lemma PairLiteral<T>(x: T, y: T)
    ensures [x] + [y] == [x, y]
  {
  }

  /** A one-element sequence before a two-element one is the three-element literal. */
  lemma TripleLiteral<T>(x: T, y: T, z: T)
    ensures [x] + [y, z] == [x, y, z]
  {
  }

  /** Three fields are written one after the other. */
  lemma FieldsOfThree(g: Generator, en: Option<Endian>, f1: Field, f2: Field, f3: Field, v1: Value, v2: Value, v3: Value,
                      pos: nat, b1: seq<Byte>, b2: seq<Byte>, b3: seq<Byte>)
    requires FieldOutcome(g, f1, en, v1, pos) == Some(Ok(b1)) && FieldOutcome(g, f2, en, v2, pos + |b1|) == Some(Ok(b2))
    requires FieldOutcome(g, f3, en, v3, pos + |b1| + |b2|) == Some(Ok(b3))
    ensures FieldsOutcome(g, [f1, f2, f3], en, [v1, v2, v3], pos) == Some(Ok(b1 + (b2 + b3)))
  {
    FieldsOfTwo(g, en, f2, f3, v2, v3, pos + |b1|, b2, b3);
    FieldsCons(g, en, f1, [f2, f3], v1, [v2, v3], pos, b1, b2 + b3);
    TripleLiteral(f1, f2, f3);
    TripleLiteral(v1, v2, v3);
  }

  /** A derived struct writes its fields under its own endian. */
  lemma StructWrite(g: Generator, en: Option<Endian>, fs: seq<Field>, vs: seq<Value>, pos: nat, bs: seq<Byte>)
    requires FieldsOutcome(g, fs, en, vs, pos) == Some(Ok(bs)) && FieldsPlaced(g, fs, Borrowed)
    ensures Writable(g, Own, Struct(en, fs), Plain) && Conforms(Struct(en, fs), Items(vs))
    ensures Write(g, Own, Struct(en, fs), Plain, Items(vs), pos) == Ok(bs)
  {
  }

  /** `Foo` of the prefixed-vector test: big-endian, a `u32`, a `Vec<u8>` behind a `u16` length
      prefix, and an `i64`. */
  const FooA: Field := Field(Int(U32), None, None, None)
  const FooB: Field := Field(Collection(Int(U8)), None, Some(U16), None)
  const FooC: Field := Field(Int(I64), None, None, None)
  const PrefixedFoo: Desc := Struct(Some(Big), [FooA, FooB, FooC])

  const PrefixedFooValue: Value := Items([IntV(1), Items([IntV(9), IntV(9)]), IntV(0)])

  /** `00 00 00 01`, `00 02 09 09`, then eight `00`. */
  const PrefixedFooBytes: seq<Byte> := [0, 0, 0, 1] + ([0, 2, 9, 9] + [0, 0, 0, 0, 0, 0, 0, 0])

  lemma PrefixedFooFields()
    ensures FieldWritable(Current, FooA, Some(Big)) && FieldReadable(Current, FooA, Some(Big))
    ensures FieldWritable(Current, FooB, Some(Big)) && FieldReadable(Current, FooB, Some(Big))
    ensures FieldWritable(Current, FooC, Some(Big)) && FieldReadable(Current, FooC, Some(Big))
  {
  }

  lemma PrefixedFooTyped()
    ensures Writable(Current, Own, PrefixedFoo, Plain) && Readable(Current, Own, PrefixedFoo, Plain)
    ensures Conforms(PrefixedFoo, PrefixedFooValue)
  {
    PrefixedFooFields();
    var fs := PrefixedFoo.fields;
    assert FieldsWritable(Current, fs, Some(Big)) && FieldsReadable(Current, fs, Some(Big));
    var vs := PrefixedFooValue.items;
    assert AllConform(Int(U8), vs[1].items);
    assert FieldsConform(fs, vs);
  }

  /** Under either generator a plain integer field of an ordered container is the integer in the
      container's order. */
  lemma OrderedIntField(g: Generator, k: IntKind, o: Endian, x: int, pos: nat)
    requires InRange(k, x)
    ensures FieldWritable(g, Field(Int(k), None, None, None), Some(o))
    ensures WriteField(g, Field(Int(k), None, None, None), Some(o), IntV(x), pos) == Ok(WriteInt(k, Ordered(o), x))
  {
  }

  /** A byte at any position under any order is itself. */
  lemma ByteElement(g: Generator, o: Endian, x: int, pos: nat)
    requires 0 <= x < 256
    ensures Write(g, Trait, Int(U8), Ordered(o), IntV(x), pos) == Ok([x as Byte])
  {
    assert EncodeInt(U8, o, x) == [x as Byte];
  }

  /** Writing a single value repeatedly is that value's bytes. */
  lemma RepeatSingle(g: Generator, via: Via, e: Desc, a: Approach, v: Value, pos: nat, b: seq<Byte>)
    requires Writable(g, via, e, a) && Conforms(e, v)
    requires Write(g, via, e, a, v, pos) == Ok(b)
    ensures AllConform(e, [v]) && WriteRepeat(g, via, e, a, [v], pos) == Ok(b)
  {
    assert [v][1..] == [];
    assert b + [] == b;
  }

  /** Writing values repeatedly is the first value's bytes, then the rest's from where they end. */
  lemma RepeatCons(g: Generator, via: Via, e: Desc, a: Approach, v: Value, vs: seq<Value>, pos: nat,
                   b: seq<Byte>, bs: seq<Byte>)
    requires Writable(g, via, e, a) && Conforms(e, v) && AllConform(e, vs)
    requires Write(g, via, e, a, v, pos) == Ok(b)
    requires WriteRepeat(g, via, e, a, vs, pos + |b|) == Ok(bs)
    ensures AllConform(e, [v] + vs) && WriteRepeat(g, via, e, a, [v] + vs, pos) == Ok(b + bs)
  {
    var ws := [v] + vs;
    assert ws[0] == v && ws[1..] == vs;
    forall i | 0 <= i < |ws|
      ensures Conforms(e, ws[i])
    {
      if i > 0 {
        assert ws[i] == vs[i - 1];
      }
    }
    WriteRepeatStep(g, via, e, a, ws, pos);
  }

  /** Writing two values repeatedly is the first's bytes, then the second's. */
  lemma RepeatTwo(g: Generator, via: Via, e: Desc, a: Approach, v1: Value, v2: Value, pos: nat,
                  b1: seq<Byte>, b2: seq<Byte>)
    requires Writable(g, via, e, a) && Conforms(e, v1) && Conforms(e, v2)
    requires Write(g, via, e, a, v1, pos) == Ok(b1) && Write(g, via, e, a, v2, pos + |b1|) == Ok(b2)
    ensures AllConform(e, [v1, v2]) && WriteRepeat(g, via, e, a, [v1, v2], pos) == Ok(b1 + b2)
  {
    RepeatSingle(g, via, e, a, v2, pos + |b1|, b2);
    RepeatCons(g, via, e, a, v1, [v2], pos, b1, b2);
    assert [v1] + [v2] == [v1, v2];
  }

  /** The two bytes of the vector, one after the other. */
  lemma PrefixedFooItems()
    ensures AllConform(Int(U8), [IntV(9), IntV(9)])
    ensures WriteRepeat(Current, Trait, Int(U8), Ordered(Big), [IntV(9), IntV(9)], 6) == Ok([9, 9])
  {
    ByteElement(Current, Big, 9, 6);
    ByteElement(Current, Big, 9, 7);
    RepeatTwo(Current, Trait, Int(U8), Ordered(Big), IntV(9), IntV(9), 6, [9], [9]);
    var nine: seq<Byte> := [9];
    assert nine + nine == [9, 9];
  }

  /** Under the field-aware generator a field with a length prefix and no hook is written with
      `write_with_prefix`. */
  lemma PrefixedFieldWrite(g: Generator, f: Field, en: Option<Endian>, v: Value, pos: nat)
    requires !g.Legacy? && f.writeFn.None? && f.lengthPrefix.Some?
    requires FieldWritable(g, f, en) && FieldConforms(f, v)
    ensures f.ty.Collection? && v.Items?
    ensures IntCodable(f.lengthPrefix.value, WriteApproach(g, f, en))
    ensures Writable(g, Trait, f.ty.elem, WriteApproach(g, f, en)) && AllConform(f.ty.elem, v.items)
    ensures WriteField(g, f, en, v, pos) ==
      WritePrefixed(g, f.ty.elem, f.lengthPrefix.value, WriteApproach(g, f, en), v.items, pos)
  {
  }

  /** The `u16` count 2, then the two bytes. */
  lemma PrefixedFooVector()
    ensures FieldWritable(Current, FooB, Some(Big)) && FieldConforms(FooB, Items([IntV(9), IntV(9)]))
    ensures WriteField(Current, FooB, Some(Big), Items([IntV(9), IntV(9)]), 4) == Ok([0, 2, 9, 9])
  {
    var vs := [IntV(9), IntV(9)];
    PrefixedFooFields();
    PrefixedFooItems();
    assert WriteApproach(Current, FooB, Some(Big)) == Ordered(Big);
    PrefixedFieldWrite(Current, FooB, Some(Big), Items(vs), 4);
    WritePrefixedStep(Current, Int(U8), U16, Ordered(Big), vs, 4);
    U16BigTwo();
    assert |vs| == 2 && InRange(U16, 2);
    var count: seq<Byte> := [0, 2];
    assert count + [9, 9] == [0, 2, 9, 9];
  }

  lemma PrefixedFooInts()
    ensures FieldWritable(Current, FooA, Some(Big)) && FieldConforms(FooA, IntV(1))
    ensures FieldWritable(Current, FooC, Some(Big)) && FieldConforms(FooC, IntV(0))
    ensures WriteField(Current, FooA, Some(Big), IntV(1), 0) == Ok([0, 0, 0, 1])
    ensures WriteField(Current, FooC, Some(Big), IntV(0), 8) == Ok([0, 0, 0, 0, 0, 0, 0, 0])
  {
    OrderedIntField(Current, U32, Big, 1, 0);
    U32BigOne();
    OrderedIntField(Current, I64, Big, 0, 8);
    I64BigZero();
  }

  /** The derived big-endian `Foo { a: 1, b: vec![9, 9], c: 0 }` writes the `u32`, the count
      and the bytes of the vector, then the `i64`, all most significant byte first. */
  lemma PrefixedFooWrites()
    ensures Writable(Current, Own, PrefixedFoo, Plain) && Conforms(PrefixedFoo, PrefixedFooValue)
    ensures Write(Current, Own, PrefixedFoo, Plain, PrefixedFooValue, 0) == Ok(PrefixedFooBytes)
  {
    PrefixedFooInts();
    PrefixedFooVector();
    FieldsOfThree(Current, Some(Big), FooA, FooB, FooC, IntV(1), Items([IntV(9), IntV(9)]), IntV(0),
                  0, [0, 0, 0, 1], [0, 2, 9, 9], [0, 0, 0, 0, 0, 0, 0, 0]);
    PrefixedFooPlaced();
    StructWrite(Current, Some(Big), [FooA, FooB, FooC], [IntV(1), Items([IntV(9), IntV(9)]), IntV(0)], 0,
                PrefixedFooBytes);
  }

  /** Every field of `Foo` is handed to `write_to` by reference. */
  lemma PrefixedFooPlaced()
    ensures FieldsPlaced(Current, [FooA, FooB, FooC], Borrowed)
  {
    assert FieldPlaced(Current, FooA, Borrowed) && FieldPlaced(Current, FooB, Borrowed);
    assert FieldPlaced(Current, FooC, Borrowed);
  }

  lemma PrefixedFooInvertible()
    ensures Invertible(Current, PrefixedFoo)
  {
    assert FieldInvertible(Current, FooA, Some(Big)) && FieldInvertible(Current, FooB, Some(Big));
    assert FieldInvertible(Current, FooC, Some(Big));
  }

  /** Those bytes read back as the same `Foo`, with the stream right after them. */
  lemma PrefixedFooReads()
    ensures Read(Current, Own, PrefixedFoo, Plain, Cursor(PrefixedFooBytes, 0)) == Ok((PrefixedFooValue, Cursor([], 16)))
  {
    PrefixedFooTyped();
    PrefixedFooInvertible();
    PrefixedFooWrites();
    assert |PrefixedFooBytes| == 16 && PrefixedFooBytes + [] == PrefixedFooBytes;
    ValueRoundTrip(Current, Own, PrefixedFoo, Plain, PrefixedFooValue, 0, []);
  }

  /** A pair of bytes as a field, with no options. */
  const BytePair: Field := Field(Tuple([Int(U8), Int(U8)]), None, None, None)

  /** `struct S { t: (u8, u8) }` derives: each component is written from `&self.t.0` and
      `&self.t.1`, which are references. */
  lemma TupleFieldWritable(g: Generator)
    ensures Writable(g, Own, Struct(None, [BytePair]), Plain)
  {
    assert FieldWritable(g, BytePair, None);
  }

  /** `enum E { X((u8, u8)) }` does not derive `WriteSelf`: the placeholder `a` is a `&(u8, u8)`,
      so the generated `write_to(a.0, buffer)` is handed a `u8` where a reference is needed.
      The read side derives. */
  lemma TupleInVariantRejected(g: Generator)
    ensures !Writable(g, Own, Enum(None, U8, None, [Variant(0, true, [BytePair])]), Plain)
    ensures Readable(g, Own, Enum(None, U8, None, [Variant(0, true, [BytePair])]), Plain)
  {
    var vs := [Variant(0, true, [BytePair])];
    PairNotPlaced();
    assert !FieldPlaced(g, BytePair, Binding);
    assert !FieldsPlaced(g, vs[0].fields, Binding) by {
      assert !FieldPlaced(g, vs[0].fields[0], Binding);
    }
    assert !VariantsPlaced(g, vs);
    assert FieldReadable(g, BytePair, None);
  }

  /** A pair reached through a reference binding projects to bytes, not references. */
  lemma PairNotPlaced()
    ensures !Placed(Tuple([Int(U8), Int(U8)]), Binding)
  {
    assert !Placed([Int(U8), Int(U8)][0], Projected);
  }

  /** `struct S { arr: [(u8, u8); 2] }` does not derive `WriteSelf`: the loop's `item` is a
      `&(u8, u8)`, so `item.0` is a `u8`. */
  lemma ArrayOfTuplesRejected(g: Generator)
    ensures !Writable(g, Own, Struct(None, [Field(Array(Tuple([Int(U8), Int(U8)]), 2), None, None, None)]), Plain)
  {
    var fs := [Field(Array(Tuple([Int(U8), Int(U8)]), 2), None, None, None)];
    PairNotPlaced();
    assert !FieldPlaced(g, fs[0], Borrowed);
    assert !FieldsPlaced(g, fs, Borrowed);
  }
}
