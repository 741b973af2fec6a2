/** Fixed-width integers and their byte layout under a byte order (the `byteorder` crate's
    contract that `ReadBytesExt`/`WriteBytesExt` follow). */
module ByteOrder {
  import opened Io

  datatype Endian = Little | Big

  /** The integer types the codec knows: `u8`, `i8` and the multi-byte ones of `impl_for!`. */
  datatype IntKind = U8 | I8 | U16 | U32 | U64 | U128 | I16 | I32 | I64 | I128

  /** Size in bytes. */
  function Width(k: IntKind): nat {
    match k
    case U8 => 1
    case I8 => 1
    case U16 => 2
    case I16 => 2
    case U32 => 4
    case I32 => 4
    case U64 => 8
    case I64 => 8
    case U128 => 16
    case I128 => 16
  }

  predicate IsSigned(k: IntKind) {
    k.I8? || k.I16? || k.I32? || k.I64? || k.I128?
  }

  function Pow256(w: nat): (r: nat)
    ensures r >= 1
  {
    if w == 0 then 1 else 256 * Pow256(w - 1)
  }

  /** Number of distinct values of `k`, 2 to the power of its bit width. */
  function Modulus(k: IntKind): nat {
    Pow256(Width(k))
  }

  function MinValue(k: IntKind): int {
    if IsSigned(k) then -(Modulus(k) / 2) else 0
  }

  function MaxValue(k: IntKind): int {
    if IsSigned(k) then Modulus(k) / 2 - 1 else Modulus(k) - 1
  }

  predicate InRange(k: IntKind, x: int) {
    MinValue(k) <= x <= MaxValue(k)
  }

  lemma ModulusEven(k: IntKind)
    ensures Modulus(k) == 256 * Pow256(Width(k) - 1)
  {
  }

  /** Two's complement: the unsigned value with the same bit pattern. */
  function ToUnsigned(k: IntKind, x: int): (u: nat)
    requires InRange(k, x)
    ensures u < Modulus(k)
  {
    ModulusEven(k);
    if x < 0 then x + Modulus(k) else x
  }

  /** Reads a bit pattern as a value of `k`. */
  function FromUnsigned(k: IntKind, u: nat): (x: int)
    requires u < Modulus(k)
    ensures InRange(k, x)
  {
    ModulusEven(k);
    if IsSigned(k) && u > MaxValue(k) then u - Modulus(k) else u
  }

  lemma SignedRoundTrip(k: IntKind, x: int)
    requires InRange(k, x)
    ensures FromUnsigned(k, ToUnsigned(k, x)) == x
  {
    ModulusEven(k);
  }

  lemma UnsignedRoundTrip(k: IntKind, u: nat)
    requires u < Modulus(k)
    ensures ToUnsigned(k, FromUnsigned(k, u)) == u
  {
    ModulusEven(k);
  }

  /** Least significant byte first. */
  function LeBytes(x: nat, w: nat): (r: seq<Byte>)
    requires x < Pow256(w)
    ensures |r| == w
  {
    if w == 0 then [] else [x % 256] + LeBytes(x / 256, w - 1)
  }

  function LeValue(s: seq<Byte>): (x: nat)
    ensures x < Pow256(|s|)
  {
    if s == [] then 0 else s[0] + 256 * LeValue(s[1..])
  }

  /** Most significant byte first. */
  function BeBytes(x: nat, w: nat): (r: seq<Byte>)
    requires x < Pow256(w)
    ensures |r| == w
  {
    if w == 0 then [] else BeBytes(x / 256, w - 1) + [x % 256]
  }

  function BeValue(s: seq<Byte>): (x: nat)
    ensures x < Pow256(|s|)
  {
    if s == [] then 0 else 256 * BeValue(s[..|s| - 1]) + s[|s| - 1]
  }

  function Reverse(s: seq<Byte>): (r: seq<Byte>)
    ensures |r| == |s|
  {
    if s == [] then [] else Reverse(s[1..]) + [s[0]]
  }

  lemma {:induction false} LeRoundTrip(x: nat, w: nat)
    requires x < Pow256(w)
    ensures LeValue(LeBytes(x, w)) == x
  {
    if w > 0 {
      LeRoundTrip(x / 256, w - 1);
      assert LeBytes(x, w)[1..] == LeBytes(x / 256, w - 1);
    }
  }

  lemma {:induction false} LeCanonical(s: seq<Byte>)
    ensures LeBytes(LeValue(s), |s|) == s
  {
    if s != [] {
      LeCanonical(s[1..]);
      assert (s[0] + 256 * LeValue(s[1..])) / 256 == LeValue(s[1..]);
    }
  }

  lemma {:induction false} BeRoundTrip(x: nat, w: nat)
    requires x < Pow256(w)
    ensures BeValue(BeBytes(x, w)) == x
  {
    if w > 0 {
      BeRoundTrip(x / 256, w - 1);
      var s := BeBytes(x, w);
      assert s[..|s| - 1] == BeBytes(x / 256, w - 1);
    }
  }

  lemma {:induction false} BeCanonical(s: seq<Byte>)
    ensures BeBytes(BeValue(s), |s|) == s
  {
    if s != [] {
      var init := s[..|s| - 1];
      BeCanonical(init);
      assert (256 * BeValue(init) + s[|s| - 1]) / 256 == BeValue(init);
      assert init + [s[|s| - 1]] == s;
    }
  }

  /** The big-endian layout is the little-endian one reversed: for the same width the two
      orders hold the same bytes in opposite order. */
  lemma {:induction false} BigIsReversedLittle(x: nat, w: nat)
    requires x < Pow256(w)
    ensures BeBytes(x, w) == Reverse(LeBytes(x, w))
  {
    if w > 0 {
      BigIsReversedLittle(x / 256, w - 1);
      var le := LeBytes(x, w);
      assert le[1..] == LeBytes(x / 256, w - 1);
      assert le[0] == x % 256;
    }
  }

  function OrderedBytes(o: Endian, x: nat, w: nat): (r: seq<Byte>)
    requires x < Pow256(w)
    ensures |r| == w
  {
    match o
    case Little => LeBytes(x, w)
    case Big => BeBytes(x, w)
  }

  function OrderedValue(o: Endian, s: seq<Byte>): (x: nat)
    ensures x < Pow256(|s|)
  {
    match o
    case Little => LeValue(s)
    case Big => BeValue(s)
  }

  /** The `Width(k)` bytes of `x` in order `o` (`write_u16::<O>` and its siblings). */
  function EncodeInt(k: IntKind, o: Endian, x: int): (r: seq<Byte>)
    requires InRange(k, x)
    ensures |r| == Width(k)
  {
    OrderedBytes(o, ToUnsigned(k, x), Width(k))
  }

  /** The value of `k` held by `Width(k)` bytes in order `o` (`read_u16::<O>` and its siblings). */
  function DecodeInt(k: IntKind, o: Endian, s: seq<Byte>): (x: int)
    requires |s| == Width(k)
    ensures InRange(k, x)
  {
    FromUnsigned(k, OrderedValue(o, s))
  }

  /** Decoding an encoding under the same order returns the value. */
  lemma IntRoundTrip(k: IntKind, o: Endian, x: int)
    requires InRange(k, x)
    ensures DecodeInt(k, o, EncodeInt(k, o, x)) == x
  {
    var u := ToUnsigned(k, x);
    match o {
      case Little => LeRoundTrip(u, Width(k));
      case Big => BeRoundTrip(u, Width(k));
    }
    SignedRoundTrip(k, x);
  }

  /** Every `Width(k)` bytes are the encoding of exactly the value they decode to. */
  lemma IntCanonical(k: IntKind, o: Endian, s: seq<Byte>)
    requires |s| == Width(k)
    ensures EncodeInt(k, o, DecodeInt(k, o, s)) == s
  {
    var u := OrderedValue(o, s);
    UnsignedRoundTrip(k, u);
    match o {
      case Little => LeCanonical(s);
      case Big => BeCanonical(s);
    }
  }

  /** Both orders write the same number of bytes, and the same bytes reversed. */
  lemma EndianMirror(k: IntKind, x: int)
    requires InRange(k, x)
    ensures EncodeInt(k, Big, x) == Reverse(EncodeInt(k, Little, x))
  {
    BigIsReversedLittle(ToUnsigned(k, x), Width(k));
  }
}
