/** Option resolution of the derive macros: `#[io_self(...)]` on a container (`Opts`) and on a
    field (`FieldOpts`), the byte-order names, inheritance of the container's byte order, and the
    choice of codec trait that a generated call goes through. */
module Attr {
  import opened Io
  import opened ByteOrder

  /** The trait a generated call dispatches to (`trait_usage`): the plain `ReadSelf`/`WriteSelf`,
      or `ReadSelfEndian<O>`/`WriteSelfEndian<O>` for a byte order `O`. Whether the read or the
      write trait is meant follows from the side of the codec that uses it. */
  datatype Approach = Plain | Ordered(order: Endian)

  /** What a derive macro does with an option: accept it with a value, or panic at derive time. */
  datatype Derived<+T> = Accepted(value: T) | Panic

  /** Container options as written (`Opts`). */
  datatype Opts = Opts(endian: Option<string>, tag: Option<string>, lengthPrefix: Option<string>)

  /** Container options after resolution. */
  datatype ContainerOpts = ContainerOpts(endian: Option<Endian>, tag: Option<IntKind>, lengthPrefix: Option<IntKind>)

  const LittleNames: set<string> := {"little", "le", "l"}
  const BigNames: set<string> := {"big", "be", "b"}

  function LowerChar(c: char): (r: char)
    ensures 'A' <= c <= 'Z' ==> r as int == c as int + 32
    ensures !('A' <= c <= 'Z') ==> r == c
  {
    if 'A' <= c <= 'Z' then (c as int + 32) as char else c
  }

  /** `str::to_ascii_lowercase`. */
  function ToAsciiLower(s: string): (r: string)
    ensures |r| == |s|
    ensures forall i :: 0 <= i < |s| ==> r[i] == LowerChar(s[i])
  {
    if s == [] then [] else [LowerChar(s[0])] + ToAsciiLower(s[1..])
  }

  lemma LowerIdempotent(s: string)
    ensures ToAsciiLower(ToAsciiLower(s)) == ToAsciiLower(s)
  {
    var once := ToAsciiLower(s);
    var twice := ToAsciiLower(once);
    assert forall i :: 0 <= i < |s| ==> twice[i] == once[i];
  }

  /** `endianness()`: absent is `None`; the names are matched without regard to ASCII case;
      any other name makes the derive panic. */
  function Endianness(attr: Option<string>): (r: Derived<Option<Endian>>)
    ensures attr.None? ==> r == Accepted(None)
    ensures attr.Some? ==> (r == Accepted(Some(Little)) <==> ToAsciiLower(attr.value) in LittleNames)
    ensures attr.Some? ==> (r == Accepted(Some(Big)) <==> ToAsciiLower(attr.value) in BigNames)
    ensures attr.Some? ==> (r == Panic <==> ToAsciiLower(attr.value) !in LittleNames + BigNames)
    ensures r != Accepted(None) ==> attr.Some?
  {
    match attr
    case None => Accepted(None)
    case Some(s) =>
      var lower := ToAsciiLower(s);
      if lower in LittleNames then Accepted(Some(Little))
      else if lower in BigNames then Accepted(Some(Big))
      else Panic
  }

  /** Upper-case letters in a byte-order name do not change its meaning. */
  lemma EndiannessIgnoresCase(s: string)
    ensures Endianness(Some(s)) == Endianness(Some(ToAsciiLower(s)))
  {
    LowerIdempotent(s);
  }

  /** `trait_usage`: no byte order selects the plain trait, a byte order the ordered one. */
  function TraitUsage(e: Option<Endian>): (a: Approach)
    ensures a.Plain? <==> e.None?
    ensures e.Some? ==> a == Ordered(e.value)
  {
    match e
    case None => Plain
    case Some(o) => Ordered(o)
  }

  /** The rule of `with_endian`: a field keeps its own byte order when it has one, else takes its
      container's. */
  function InheritEndian<T>(own: Option<T>, container: Option<T>): (r: Option<T>)
    ensures own.Some? ==> r == own
    ensures own.None? ==> r == container
  {
    if own.None? then container else own
  }

  /** Applying `with_endian` twice is the same as applying it once. */
  lemma InheritIdempotent<T>(own: Option<T>, container: Option<T>)
    ensures InheritEndian(InheritEndian(own, container), container) == InheritEndian(own, container)
  {
  }

  /** Copying the container's name and then parsing it gives the byte order that inheriting the
      parsed orders gives, so a model may inherit resolved orders instead of names. */
  lemma ParseCommutesWithInherit(own: Option<string>, container: Option<string>,
                                 e1: Option<Endian>, e2: Option<Endian>)
    requires Endianness(own) == Accepted(e1) && Endianness(container) == Accepted(e2)
    ensures Endianness(InheritEndian(own, container)) == Accepted(InheritEndian(e1, e2))
  {
    if own.None? {
      assert e1 == None;
    }
  }

  /** The integer type named by an option such as `tag = "u8"`. */
  function IntTypeNamed(s: string): (r: Option<IntKind>)
    ensures r.Some? ==> s == TypeName(r.value)
  {
    if s == "u8" then Some(U8) else if s == "i8" then Some(I8)
    else if s == "u16" then Some(U16) else if s == "i16" then Some(I16)
    else if s == "u32" then Some(U32) else if s == "i32" then Some(I32)
    else if s == "u64" then Some(U64) else if s == "i64" then Some(I64)
    else if s == "u128" then Some(U128) else if s == "i128" then Some(I128)
    else None
  }

  function TypeName(k: IntKind): string {
    match k
    case U8 => "u8"
    case I8 => "i8"
    case U16 => "u16"
    case I16 => "i16"
    case U32 => "u32"
    case I32 => "i32"
    case U64 => "u64"
    case I64 => "i64"
    case U128 => "u128"
    case I128 => "i128"
  }

  lemma TypeNameParses(k: IntKind)
    ensures IntTypeNamed(TypeName(k)) == Some(k)
  {
  }

  /** `tag_type()` and `length_prefix_type()`: `None` exactly when the option is absent. */
  function TypeOption(attr: Option<string>): (r: Derived<Option<IntKind>>)
    ensures r == Accepted(None) <==> attr.None?
    ensures attr.Some? && r.Accepted? ==> r.value == IntTypeNamed(attr.value)
  {
    match attr
    case None => Accepted(None)
    case Some(s) =>
      match IntTypeNamed(s)
      case Some(k) => Accepted(Some(k))
      case None => Panic
  }

  /** The container options a derive uses. A struct derive parses only the byte order; an enum
      derive also needs a tag type. */
  function ResolveOpts(opts: Opts, isEnum: bool): (r: Derived<ContainerOpts>)
    ensures r.Accepted? ==> Endianness(opts.endian) == Accepted(r.value.endian)
    ensures r.Accepted? && isEnum ==> r.value.tag.Some? && opts.tag.Some?
    ensures isEnum && opts.tag.None? ==> r == Panic
    ensures Endianness(opts.endian).Panic? ==> r == Panic
    ensures !isEnum && Endianness(opts.endian).Accepted? ==>
      r == Accepted(ContainerOpts(Endianness(opts.endian).value, None, None))
    ensures isEnum ==>
      (r.Accepted? <==>
         Endianness(opts.endian).Accepted? && opts.tag.Some? &&
         TypeOption(opts.tag).Accepted? && TypeOption(opts.lengthPrefix).Accepted?)
    ensures isEnum && r.Accepted? ==>
      r.value.tag == TypeOption(opts.tag).value && r.value.lengthPrefix == TypeOption(opts.lengthPrefix).value
  {
    match Endianness(opts.endian)
    case Panic => Panic
    case Accepted(e) =>
      if !isEnum then Accepted(ContainerOpts(e, None, None))
      else
        match (TypeOption(opts.tag), TypeOption(opts.lengthPrefix))
        case (Accepted(Some(t)), Accepted(p)) => Accepted(ContainerOpts(e, Some(t), p))
        case _ => Panic
  }

  /** Field options as written (`FieldOpts`); `with_endian` changes `endian` in place. The read
      hook is parsed but never called by the generated decoder, so it is kept only as a name. */
  class FieldOpts {
    var lengthPrefix: Option<string>
    var endian: Option<string>
    var readFn: Option<string>
    var writeFn: Option<string>

    constructor (lengthPrefix: Option<string>, endian: Option<string>,
                 readFn: Option<string>, writeFn: Option<string>)
      ensures this.lengthPrefix == lengthPrefix && this.endian == endian
      ensures this.readFn == readFn && this.writeFn == writeFn
    {
      this.lengthPrefix := lengthPrefix;
      this.endian := endian;
      this.readFn := readFn;
      this.writeFn := writeFn;
    }

    /** `with_endian`: fill in the container's byte order when the field has none. */
    method WithEndian(opts: Opts)
      modifies this`endian
      ensures endian == InheritEndian(old(endian), opts.endian)
    {
      if endian.None? {
        endian := opts.endian;
      }
    }

    function FieldEndianness(): (r: Derived<Option<Endian>>)
      reads this
      ensures r == Endianness(endian)
    {
      Endianness(endian)
    }
  }

  /** A client of `WithEndian`: calling it twice leaves what one call left. */
  method WithEndianTwice(f: FieldOpts, opts: Opts)
    modifies f`endian
    ensures f.endian == InheritEndian(old(f.endian), opts.endian)
  {
    f.WithEndian(opts);
    ghost var once := f.endian;
    f.WithEndian(opts);
    InheritIdempotent(old(f.endian), opts.endian);
    assert f.endian == once;
  }
}
