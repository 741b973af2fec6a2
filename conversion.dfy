/** The checked integer conversion that the generated code emits (`TryFrom`), which turns a value
    that does not fit into an `Other` error and never truncates or wraps. */
module Conversion {
  import opened Io
  import opened ByteOrder

  /** A conversion target: one of the integer kinds, or `usize` (taken to be 64 bits wide). */
  datatype Target = Kind(kind: IntKind) | Usize

  const UsizeMax: nat := 0xFFFF_FFFF_FFFF_FFFF

  predicate Fits(t: Target, x: int) {
    match t
    case Kind(k) => InRange(k, x)
    case Usize => 0 <= x <= UsizeMax
  }

  /** `<T as TryFrom<_>>::try_from(x)`, with the failure mapped to `ErrorKind::Other`. */
  function TryFrom(t: Target, x: int): (r: Result<int>)
    ensures r.Ok? <==> Fits(t, x)
    ensures r.Ok? ==> r.value == x
    ensures r.Err? ==> r.error == Other
  {
    if Fits(t, x) then Ok(x) else Err(Other)
  }

  /** Every value of a kind at most 64 bits wide that is not negative converts to `usize`. */
  lemma NonNegativeFitsUsize(k: IntKind, x: int)
    requires InRange(k, x) && 0 <= x && Width(k) <= 8
    ensures TryFrom(Usize, x) == Ok(x)
  {
    assert Pow256(8) == UsizeMax + 1;
    assert Pow256(Width(k)) <= Pow256(8) by {
      match k
      case U8 => assert Pow256(1) == 256;
      case I8 => assert Pow256(1) == 256;
      case U16 => assert Pow256(2) == 65536;
      case I16 => assert Pow256(2) == 65536;
      case U32 => assert Pow256(4) == 0x1_0000_0000;
      case I32 => assert Pow256(4) == 0x1_0000_0000;
      case _ =>
    }
  }
}
