/** The type layouts the derive macros accept, the values of those types, and the conditions under
    which the generated code compiles (a type whose impl would not exist, or a generated statement
    that would not type-check, is a derive-time failure, so the codec functions require these
    conditions rather than report an error). */
module Schema {
  import opened Io
  import opened ByteOrder
  import opened Attr
  import opened Conversion
  import opened Primitives

  /** A user-supplied `write_fn`: it writes a field's value at a stream position, or fails. */
  type WriteHook = (Value, nat) -> Result<seq<Byte>>

  /** A field type as the generator sees it. `Array` and `Tuple` are syntactic shapes that the
      generator unrolls; every other type is a leaf reached through a trait impl. */
  datatype Desc =
    | Int(kind: IntKind)                 // u8, i8, u16 … i128
    | Phantom                            // PhantomData<T>
    | Pointer(inner: Desc)               // Box<T>, Rc<T>, Arc<T>
    | Array(elem: Desc, len: nat)        // [T; N]
    | Tuple(elems: seq<Desc>)            // (), (A, B), …
    | Padding(size: nat)                 // Padding<N>
    | PadToAlign(align: nat, fill: Byte) // PadToAlign<N, P>
    | Collection(elem: Desc)             // Vec<T> and other FromIterator collections
    | Struct(endian: Option<Endian>, fields: seq<Field>)
    | Enum(endian: Option<Endian>, tag: IntKind, framing: Option<IntKind>, variants: seq<Variant>)

  /** A field with its resolved options (`FieldOpts`). */
  datatype Field = Field(ty: Desc, endian: Option<Endian>, lengthPrefix: Option<IntKind>, writeFn: Option<WriteHook>)

  /** An enum variant: its tag literal, whether its fields are unnamed, and its fields. */
  datatype Variant = Variant(tag: int, positional: bool, fields: seq<Field>)

  /** A value of a described type. Markers (`PhantomData`, padding) carry nothing; arrays, tuples,
      collections and structs carry their components in order; an enum value names its variant
      by index. */
  datatype Value =
    | IntV(x: int)
    | Unit
    | Items(items: seq<Value>)
    | Boxed(inner: Value)
    | Tagged(variant: nat, fields: seq<Value>)

  /** Which generator emitted the code: the one wired into the derive macros (container byte order
      only), the field-aware one as written, or the field-aware one whose write side honours a
      field's own byte order. */
  datatype Generator = Legacy | Current | Amended

  /** How a type is reached: unrolled by the generator (`read_for_type`), through the approach's
      trait (`<T as approach>::read_from`), or through the type's own `ReadSelf`/`WriteSelf`. */
  datatype Via = Gen | Trait | Own

  function ViaRank(via: Via): nat {
    match via
    case Own => 2
    case Trait => 3
    case Gen => 4
  }

  /** The tuple arities with a `ReadSelf`/`WriteSelf` impl: the unit type and 2 to 14. */
  predicate TupleArity(n: nat) {
    n == 0 || 2 <= n <= 14
  }

  /** The number of unnamed fields a variant may have for the write side's placeholder names. */
  const PlaceholderCount: nat := 26

  /** The approach a field is read with: the container's under the wired generator, the field's
      own byte-order option (else the container's) under the field-aware one. */
  function ReadApproach(g: Generator, f: Field, container: Option<Endian>): Approach {
    if g.Legacy? then TraitUsage(container) else TraitUsage(InheritEndian(f.endian, container))
  }

  /** The approach a field is written with: the field-aware generator as written still uses the
      container's (`opts.trait_usage(false)`). */
  function WriteApproach(g: Generator, f: Field, container: Option<Endian>): Approach {
    if g.Amended? then TraitUsage(InheritEndian(f.endian, container)) else TraitUsage(container)
  }

  /** The read impls exist for `d` reached via `via` under approach `a`. */
  predicate Readable(g: Generator, via: Via, d: Desc, a: Approach)
    decreases d, ViaRank(via)
  {
    match via
    case Gen =>
      (match d
       case Array(e, _) => Readable(g, Gen, e, a)
       case Tuple(es) => ListReadable(g, Gen, es, a)
       case _ => Readable(g, Trait, d, a))
    case Trait =>
      if d.Int? then IntCodable(d.kind, a) else Readable(g, Own, d, Plain)
    case Own =>
      match d
      case Int(k) => Width(k) == 1
      case Phantom => true
      case Pointer(e) => Readable(g, Own, e, Plain)
      case Array(e, _) => Readable(g, Own, e, Plain)
      case Tuple(es) => TupleArity(|es|) && ListReadable(g, Own, es, Plain)
      case Padding(_) => true
      case PadToAlign(_, _) => true
      case Collection(_) => false
      case Struct(en, fs) => FieldsReadable(g, fs, en)
      case Enum(en, t, fr, vs) =>
        IntCodable(t, TraitUsage(en)) && (fr.Some? ==> IntCodable(fr.value, TraitUsage(en))) &&
        TagsInRange(t, vs) && VariantsReadable(g, vs, en)
  }

  predicate ListReadable(g: Generator, via: Via, ds: seq<Desc>, a: Approach)
    decreases ds, 0
  {
    forall i {:trigger Readable(g, via, ds[i], a)} :: 0 <= i < |ds| ==> Readable(g, via, ds[i], a)
  }

  predicate FieldsReadable(g: Generator, fs: seq<Field>, container: Option<Endian>)
    decreases fs, 0
  {
    forall i {:trigger FieldReadable(g, fs[i], container)} :: 0 <= i < |fs| ==> FieldReadable(g, fs[i], container)
  }

  predicate VariantsReadable(g: Generator, vs: seq<Variant>, container: Option<Endian>)
    decreases vs, 0
  {
    forall j :: 0 <= j < |vs| ==> FieldsReadable(g, vs[j].fields, container)
  }

  predicate FieldReadable(g: Generator, f: Field, container: Option<Endian>)
    decreases f, 0
  {
    var a := ReadApproach(g, f, container);
    if !g.Legacy? && f.lengthPrefix.Some? then
      f.ty.Collection? && IntCodable(f.lengthPrefix.value, a) && Readable(g, Trait, f.ty.elem, a)
    else
      Readable(g, Gen, f.ty, a)
  }

  /** Every variant's tag literal is a value of the tag type. */
  predicate TagsInRange(t: IntKind, vs: seq<Variant>) {
    forall j :: 0 <= j < |vs| ==> InRange(t, vs[j].tag)
  }

  /** Every variant with unnamed fields has a placeholder name for each of them. */
  predicate PlaceholdersSuffice(vs: seq<Variant>) {
    forall j :: 0 <= j < |vs| && vs[j].positional ==> |vs[j].fields| <= PlaceholderCount
  }

  /** The write impls exist for `d` reached via `via` under approach `a`. */
  predicate Writable(g: Generator, via: Via, d: Desc, a: Approach)
    decreases d, ViaRank(via)
  {
    match via
    case Gen =>
      (match d
       case Array(e, _) => Writable(g, Gen, e, a)
       case Tuple(es) => ListWritable(g, Gen, es, a)
       case _ => Writable(g, Trait, d, a))
    case Trait =>
      if d.Int? then IntCodable(d.kind, a) else Writable(g, Own, d, Plain)
    case Own =>
      match d
      case Int(k) => Width(k) == 1
      case Phantom => true
      case Pointer(e) => Writable(g, Own, e, Plain)
      case Array(e, _) => Writable(g, Own, e, Plain)
      case Tuple(es) => TupleArity(|es|) && ListWritable(g, Own, es, Plain)
      case Padding(_) => true
      case PadToAlign(_, _) => true
      case Collection(_) => false
      case Struct(en, fs) => FieldsWritable(g, fs, en) && FieldsPlaced(g, fs, Borrowed)
      case Enum(en, t, fr, vs) =>
        IntCodable(t, TraitUsage(en)) && (fr.Some? ==> IntCodable(fr.value, TraitUsage(en))) &&
        TagsInRange(t, vs) && PlaceholdersSuffice(vs) && VariantsWritable(g, vs, en) && VariantsPlaced(g, vs)
  }

  predicate ListWritable(g: Generator, via: Via, ds: seq<Desc>, a: Approach)
    decreases ds, 0
  {
    forall i {:trigger Writable(g, via, ds[i], a)} :: 0 <= i < |ds| ==> Writable(g, via, ds[i], a)
  }

  predicate FieldsWritable(g: Generator, fs: seq<Field>, container: Option<Endian>)
    decreases fs, 0
  {
    forall i {:trigger FieldWritable(g, fs[i], container)} :: 0 <= i < |fs| ==> FieldWritable(g, fs[i], container)
  }

  predicate VariantsWritable(g: Generator, vs: seq<Variant>, container: Option<Endian>)
    decreases vs, 0
  {
    forall j :: 0 <= j < |vs| ==> FieldsWritable(g, vs[j].fields, container)
  }

  predicate FieldWritable(g: Generator, f: Field, container: Option<Endian>)
    decreases f, 0
  {
    var a := WriteApproach(g, f, container);
    if g.Legacy? then Writable(g, Gen, f.ty, a)
    else if f.writeFn.Some? then true
    else if f.lengthPrefix.Some? then
      f.ty.Collection? && IntCodable(f.lengthPrefix.value, a) && Writable(g, Trait, f.ty.elem, a)
    else
      Writable(g, Gen, f.ty, a)
  }

  /** The kind of expression the generated write code names a part of a field by: a borrow of a
      place of `self` (`&self.f`, and `&self.f.0` for its tuple components), a reference binding
      (a variant's placeholder `a`, or the `item` of a loop over a borrowed array), or a component
      reached through such a binding (`a.0`), which is a value and not a reference. */
  datatype Path = Borrowed | Binding | Projected

  /** The unrolled write statements of `d` at a path of kind `p` type-check: every
      `write_to(path, buffer)` call is handed a reference. A tuple component of a borrow is again
      a borrow, a tuple component of a binding is a projected value, and a loop over an array
      yields references unless the array itself is a projected value. */
  predicate Placed(d: Desc, p: Path)
    decreases d, 1
  {
    match d
    case Array(e, _) => Placed(e, if p.Projected? then Projected else Binding)
    case Tuple(es) => ListPlaced(es, if p.Borrowed? then Borrowed else Projected)
    case _ => !p.Projected?
  }

  predicate ListPlaced(ds: seq<Desc>, p: Path)
    decreases ds, 0
  {
    forall i {:trigger Placed(ds[i], p)} :: 0 <= i < |ds| ==> Placed(ds[i], p)
  }

  /** The statements written for field `f` at a path of kind `p` type-check: a hook or
      `write_with_prefix` of the field-aware generator takes the path as it is, every other field
      is unrolled. */
  predicate FieldPlaced(g: Generator, f: Field, p: Path) {
    (!g.Legacy? && (f.writeFn.Some? || f.lengthPrefix.Some?)) || Placed(f.ty, p)
  }

  /** A struct names its fields through `&self`; a variant through its placeholders. */
  predicate FieldsPlaced(g: Generator, fs: seq<Field>, p: Path) {
    forall i {:trigger FieldPlaced(g, fs[i], p)} :: 0 <= i < |fs| ==> FieldPlaced(g, fs[i], p)
  }

  predicate VariantsPlaced(g: Generator, vs: seq<Variant>) {
    forall j :: 0 <= j < |vs| ==> FieldsPlaced(g, vs[j].fields, Binding)
  }

  /** `v` is a value of type `d`. A collection holds at most `usize::MAX` elements. */
  predicate Conforms(d: Desc, v: Value)
    decreases d, 1
  {
    match d
    case Int(k) => v.IntV? && InRange(k, v.x)
    case Phantom => v.Unit?
    case Pointer(e) => v.Boxed? && Conforms(e, v.inner)
    case Array(e, n) => v.Items? && |v.items| == n && AllConform(e, v.items)
    case Tuple(es) => v.Items? && ListConforms(es, v.items)
    case Padding(_) => v.Unit?
    case PadToAlign(_, _) => v.Unit?
    case Collection(e) => v.Items? && |v.items| <= UsizeMax && AllConform(e, v.items)
    case Struct(_, fs) => v.Items? && FieldsConform(fs, v.items)
    case Enum(_, _, _, vs) =>
      v.Tagged? && v.variant < |vs| && FieldsConform(vs[v.variant].fields, v.fields)
  }

  /** Every one of `vals` is a value of `e`. */
  predicate AllConform(e: Desc, vals: seq<Value>)
    decreases e, 2
  {
    forall i {:trigger Conforms(e, vals[i])} :: 0 <= i < |vals| ==> Conforms(e, vals[i])
  }

  /** `vals` are values of the types `ds`, one each. */
  predicate ListConforms(ds: seq<Desc>, vals: seq<Value>)
    decreases ds, 0
  {
    |vals| == |ds| && forall i {:trigger Conforms(ds[i], vals[i])} :: 0 <= i < |ds| ==> Conforms(ds[i], vals[i])
  }

  /** `vals` are values of the fields `fs`, one each. */
  predicate FieldsConform(fs: seq<Field>, vals: seq<Value>)
    decreases fs, 0
  {
    |vals| == |fs| && forall i {:trigger FieldConforms(fs[i], vals[i])} :: 0 <= i < |fs| ==> FieldConforms(fs[i], vals[i])
  }

  predicate FieldConforms(f: Field, v: Value)
    decreases f, 0
  {
    Conforms(f.ty, v)
  }

  /** No two variants share a tag literal. */
  predicate DistinctTags(vs: seq<Variant>) {
    forall j, k :: 0 <= j < k < |vs| ==> vs[j].tag != vs[k].tag
  }

  /** The conditions under which decoding an encoding gives the value back: distinct tags in every
      enum, and in every field of the field-aware generator no write hook (the read side has
      none) and the same approach on both sides. */
  predicate Invertible(g: Generator, d: Desc)
    decreases d, 1
  {
    match d
    case Pointer(e) => Invertible(g, e)
    case Array(e, _) => Invertible(g, e)
    case Collection(e) => Invertible(g, e)
    case Tuple(es) => ListInvertible(g, es)
    case Struct(en, fs) => FieldsInvertible(g, fs, en)
    case Enum(en, _, _, vs) => DistinctTags(vs) && VariantsInvertible(g, vs, en)
    case _ => true
  }

  predicate ListInvertible(g: Generator, ds: seq<Desc>)
    decreases ds, 0
  {
    forall i {:trigger Invertible(g, ds[i])} :: 0 <= i < |ds| ==> Invertible(g, ds[i])
  }

  predicate FieldsInvertible(g: Generator, fs: seq<Field>, container: Option<Endian>)
    decreases fs, 0
  {
    forall i {:trigger FieldInvertible(g, fs[i], container)} :: 0 <= i < |fs| ==> FieldInvertible(g, fs[i], container)
  }

  predicate VariantsInvertible(g: Generator, vs: seq<Variant>, container: Option<Endian>)
    decreases vs, 0
  {
    forall j :: 0 <= j < |vs| ==> FieldsInvertible(g, vs[j].fields, container)
  }

  predicate FieldInvertible(g: Generator, f: Field, container: Option<Endian>)
    decreases f, 0
  {
    (g.Legacy? || f.writeFn.None?) &&
    ReadApproach(g, f, container) == WriteApproach(g, f, container) &&
    Invertible(g, f.ty)
  }

  /** Under the field-aware generator as written the two sides agree on a field exactly when the
      field has no byte order of its own or the container's; with the write side amended, or under
      the wired generator, they always agree. */
  lemma ApproachesAgree(g: Generator, f: Field, container: Option<Endian>)
    ensures g.Current? ==>
      (ReadApproach(g, f, container) == WriteApproach(g, f, container) <==>
       f.endian.None? || f.endian == container)
    ensures !g.Current? ==> ReadApproach(g, f, container) == WriteApproach(g, f, container)
  {
    if g.Current? && f.endian.Some? && TraitUsage(f.endian) == TraitUsage(container) {
      assert container.Some?;
    }
  }

  /** The variant an unframed or framed decode picks for `tag`: the first whose literal matches. */
  function FirstVariant(vs: seq<Variant>, tag: int): (r: Option<nat>)
    ensures r.Some? ==> r.value < |vs| && vs[r.value].tag == tag
    ensures r.Some? ==> forall j :: 0 <= j < r.value ==> vs[j].tag != tag
    ensures r.None? <==> forall j :: 0 <= j < |vs| ==> vs[j].tag != tag
  {
    if vs == [] then None
    else if vs[0].tag == tag then Some(0)
    else
      match FirstVariant(vs[1..], tag)
      case None => None
      case Some(j) => Some(j + 1)
  }

  /** With distinct tags, a variant's own tag selects that variant. */
  lemma FirstVariantOfDistinct(vs: seq<Variant>, i: nat)
    requires DistinctTags(vs) && i < |vs|
    ensures FirstVariant(vs, vs[i].tag) == Some(i)
  {
  }
}
