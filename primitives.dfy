/** The integer impls the generated code dispatches to: `ReadSelf`/`WriteSelf` for `u8` and `i8`,
    `ReadSelfEndian<O>`/`WriteSelfEndian<O>` for the multi-byte integers (`impl_for!`), and the
    blanket impls through which every `ReadSelf`/`WriteSelf` type is also `…Endian<O>` for any `O`. */
module Primitives {
  import opened Io
  import opened ByteOrder
  import opened Attr

  /** An impl for `k` exists under approach `a`: single-byte integers implement the plain traits
      (and so every ordered one through the blanket impl); wider integers implement only the
      ordered traits. */
  predicate IntCodable(k: IntKind, a: Approach) {
    Width(k) == 1 || a.Ordered?
  }

  /** The byte order an approach reads with; the plain traits only exist for single bytes, where
      the order does not matter. */
  function OrderOf(a: Approach): Endian {
    if a.Ordered? then a.order else Little
  }

  /** `<k as a>::read_from(buffer)`: `read_u8`, `read_i8`, or `read_u16::<O>` and its siblings. */
  function ReadInt(k: IntKind, a: Approach, c: Cursor): (r: Result<(int, Cursor)>)
    requires IntCodable(k, a)
    ensures r.Ok? <==> Width(k) <= |c.rest|
    ensures r.Err? ==> r.error == UnexpectedEof
    ensures r.Ok? ==> InRange(k, r.value.0)
    ensures r.Ok? ==> r.value.0 == DecodeInt(k, OrderOf(a), c.rest[..Width(k)])
    ensures r.Ok? ==> r.value.1 == Cursor(c.rest[Width(k)..], c.pos + Width(k))
  {
    var p :- ReadExact(c, Width(k));
    Ok((DecodeInt(k, OrderOf(a), p.0), p.1))
  }

  /** `<k as a>::write_to(&x, buffer)`: the `Width(k)` bytes of `x`, which read back as `x`. */
  function WriteInt(k: IntKind, a: Approach, x: int): (r: seq<Byte>)
    requires IntCodable(k, a) && InRange(k, x)
    ensures |r| == Width(k)
    ensures DecodeInt(k, OrderOf(a), r) == x
  {
    IntRoundTrip(k, OrderOf(a), x);
    EncodeInt(k, OrderOf(a), x)
  }

  /** The blanket impls make single-byte integers ignore the byte-order parameter: the plain and
      both ordered approaches read and write the same byte. */
  lemma SingleByteIgnoresOrder(k: IntKind, a: Approach, c: Cursor, x: int)
    requires Width(k) == 1
    ensures ReadInt(k, a, c) == ReadInt(k, Plain, c)
    ensures InRange(k, x) ==> WriteInt(k, a, x) == WriteInt(k, Plain, x)
  {
    if |c.rest| >= 1 {
      var s := c.rest[..1];
      assert s[..|s| - 1] == [];
      assert s[1..] == [];
    }
    if InRange(k, x) {
      var u := ToUnsigned(k, x);
      assert EncodeInt(k, Big, x) == BeBytes(u, 1) == [u % 256];
      assert EncodeInt(k, Little, x) == LeBytes(u, 1) == [u % 256];
    }
  }

  /** A written integer followed by anything reads back as itself and leaves exactly what followed. */
  lemma IntCursorRoundTrip(k: IntKind, a: Approach, x: int, rest: seq<Byte>, pos: nat)
    requires IntCodable(k, a) && InRange(k, x)
    ensures ReadInt(k, a, Cursor(WriteInt(k, a, x) + rest, pos)) == Ok((x, Cursor(rest, pos + Width(k))))
  {
    var bytes := WriteInt(k, a, x);
    assert (bytes + rest)[..Width(k)] == bytes;
    assert (bytes + rest)[Width(k)..] == rest;
  }

  /** `u8`/`i8` read consumes exactly one byte and fails on an empty stream. */
  lemma ByteReadConsumesOne(k: IntKind, c: Cursor)
    requires Width(k) == 1
    ensures ReadInt(k, Plain, c).Err? <==> c.rest == []
    ensures c.rest != [] ==> ReadInt(k, Plain, c) == Ok((FromUnsigned(k, c.rest[0]), Cursor(c.rest[1..], c.pos + 1)))
  {
    if c.rest != [] {
      assert c.rest[..1][1..] == [];
      assert LeValue(c.rest[..1]) == c.rest[0];
    }
  }
}
