/** What the generated code hands the runtime loops: `T::read_from` as the element parser and
    `T::write_to` as the element writer. With them, the loops of `Runtime` compute exactly the
    decoder's and the encoder's functions for sequences of elements. */
module Dispatch {
  import opened Io
  import opened ByteOrder
  import opened Attr
  import opened Conversion
  import opened Primitives
  import opened Schema
  import opened Decoder
  import opened Encoder
  import opened Collector
  import opened Runtime

  /** `T::read_from` as a parser over the stream. */
  function ReadParser(g: Generator, via: Via, e: Desc, a: Approach): (p: Parser<Value>)
    requires Readable(g, via, e, a)
    ensures forall c :: p(c) == Read(g, via, e, a, c)
  {
    c => Read(g, via, e, a, c)
  }

  /** One read, then the rest. */
  lemma ReadRepeatStep(g: Generator, via: Via, e: Desc, n: nat, a: Approach, c: Cursor)
    requires Readable(g, via, e, a) && n > 0
    ensures ReadRepeat(g, via, e, n, a, c) ==
      (match Read(g, via, e, a, c)
       case Err(x) => Err(x)
       case Ok(p) => Prepend([p.0], ReadRepeat(g, via, e, n - 1, a, p.1)))
  {
  }

  /** Reading `n` values in a row is `read_with_length` with the element's parser: the parser is
      called on each value in order and the first error ends the read. */
  lemma {:induction false} ReadRepeatIsReadWithLength(g: Generator, via: Via, e: Desc, n: nat, a: Approach, c: Cursor)
    requires Readable(g, via, e, a)
    ensures ReadRepeat(g, via, e, n, a, c) == ReadWithLength(ReadParser(g, via, e, a), n, c)
    decreases n
  {
    if n > 0 {
      ReadRepeatStep(g, via, e, n, a, c);
      ReadWithLengthStep(ReadParser(g, via, e, a), n, c);
      var p := Read(g, via, e, a, c);
      if p.Ok? {
        ReadRepeatIsReadWithLength(g, via, e, n - 1, a, p.value.1);
      }
    }
  }

  /** `read_exact_from` with the type's reader is the decoder's `ReadExactFrom`. */
  lemma ReadExactFromUsesReadWithLength(g: Generator, d: Desc, count: nat, c: Cursor)
    requires Readable(g, Own, d, Plain)
    ensures ReadExactFrom(g, d, count, c) == ReadWithLength(ReadParser(g, Own, d, Plain), count, c)
  {
    ReadRepeatIsReadWithLength(g, Own, d, count, Plain, c);
  }

  /** A length-prefixed field reads its elements with `read_with_length`, after the prefix. */
  lemma ReadPrefixedUsesReadWithLength(g: Generator, e: Desc, p: IntKind, a: Approach, c: Cursor)
    requires IntCodable(p, a) && Readable(g, Trait, e, a)
    ensures var raw := ReadInt(p, a, c);
      raw.Ok? && TryFrom(Usize, raw.value.0).Ok? ==>
        var q := ReadWithLength(ReadParser(g, Trait, e, a), TryFrom(Usize, raw.value.0).value, raw.value.1);
        ReadPrefixed(g, e, p, a, c) == (if q.Ok? then Ok((Items(q.value.0), q.value.1)) else Err(q.error))
  {
    var raw := ReadInt(p, a, c);
    if raw.Ok? && TryFrom(Usize, raw.value.0).Ok? {
      ReadRepeatIsReadWithLength(g, Trait, e, TryFrom(Usize, raw.value.0).value, a, raw.value.1);
    }
  }

  /** `T::write_to` as an element writer; it is only ever given values of the type. */
  function ItemWriter(g: Generator, via: Via, e: Desc, a: Approach): (w: (Value, nat) -> Result<seq<Byte>>)
    requires Writable(g, via, e, a)
    ensures forall v, pos :: Conforms(e, v) ==> w(v, pos) == Write(g, via, e, a, v, pos)
  {
    (v, pos) => if Conforms(e, v) then Write(g, via, e, a, v, pos) else Err(Other)
  }

  lemma AllConformTail(e: Desc, vs: seq<Value>)
    requires AllConform(e, vs) && vs != []
    ensures Conforms(e, vs[0]) && AllConform(e, vs[1..])
  {
    assert Conforms(e, vs[0]);
    forall k | 0 <= k < |vs[1..]|
      ensures Conforms(e, vs[1..][k])
    {
      assert vs[1..][k] == vs[k + 1];
    }
  }

  /** One write, then the rest. */
  lemma WriteRepeatStep(g: Generator, via: Via, e: Desc, a: Approach, vs: seq<Value>, pos: nat)
    requires Writable(g, via, e, a) && AllConform(e, vs) && vs != []
    requires Conforms(e, vs[0]) && AllConform(e, vs[1..])
    ensures WriteRepeat(g, via, e, a, vs, pos) ==
      (match Write(g, via, e, a, vs[0], pos)
       case Err(x) => Err(x)
       case Ok(b) => PrependBytes(b, WriteRepeat(g, via, e, a, vs[1..], pos + |b|)))
  {
  }

  /** Writing values of the type one after the other with its writer is the encoder's
      `WriteRepeat`. */
  lemma {:induction false} WriteRepeatIsWriteEach(g: Generator, via: Via, e: Desc, a: Approach, vs: seq<Value>, pos: nat)
    requires Writable(g, via, e, a) && AllConform(e, vs)
    ensures WriteRepeat(g, via, e, a, vs, pos) == WriteEach(ItemWriter(g, via, e, a), vs, pos)
    decreases |vs|
  {
    if vs != [] {
      var w := ItemWriter(g, via, e, a);
      AllConformTail(e, vs);
      WriteRepeatStep(g, via, e, a, vs, pos);
      WriteEachCons(w, vs, pos);
      var b := Write(g, via, e, a, vs[0], pos);
      assert w(vs[0], pos) == b;
      if b.Ok? {
        WriteRepeatIsWriteEach(g, via, e, a, vs[1..], pos + |b.value|);
      }
    }
  }

  /** The prefix, then the elements' bytes. */
  lemma WritePrefixedStep(g: Generator, e: Desc, p: IntKind, a: Approach, vs: seq<Value>, pos: nat)
    requires IntCodable(p, a) && Writable(g, Trait, e, a) && AllConform(e, vs)
    ensures WritePrefixed(g, e, p, a, vs, pos) ==
      if !InRange(p, |vs|) then Err(Other)
      else PrependBytes(WriteInt(p, a, |vs|), WriteRepeat(g, Trait, e, a, vs, pos + Width(p)))
  {
  }

  /** `<P as approach>::write_to` as the prefix writer; it is only ever given counts that fit. */
  function PrefixWriter(p: IntKind, a: Approach): (pw: (int, nat) -> Result<seq<Byte>>)
    requires IntCodable(p, a)
    ensures forall x, pos :: InRange(p, x) ==> pw(x, pos) == Ok(WriteInt(p, a, x))
  {
    (x, pos) => if InRange(p, x) then Ok(WriteInt(p, a, x)) else Err(Other)
  }

  /** `write_with_prefix` with the prefix type's and the element type's writers is the
      encoder's `WritePrefixed`: a count that does not fit the prefix type is `Other`, otherwise
      the prefix and then the elements. */
  lemma WritePrefixedIsWriteWithPrefix(g: Generator, e: Desc, p: IntKind, a: Approach, vs: seq<Value>, pos: nat)
    requires IntCodable(p, a) && Writable(g, Trait, e, a) && AllConform(e, vs)
    ensures TryFrom(Kind(p), |vs|).Err? ==> WritePrefixed(g, e, p, a, vs, pos) == Err(Other)
    ensures TryFrom(Kind(p), |vs|).Ok? ==>
      WritePrefixed(g, e, p, a, vs, pos) == WithPrefix(PrefixWriter(p, a), ItemWriter(g, Trait, e, a), |vs|, vs, pos)
  {
    WritePrefixedStep(g, e, p, a, vs, pos);
    WriteRepeatIsWriteEach(g, Trait, e, a, vs, pos + Width(p));
    if InRange(p, |vs|) {
      PrefixedClose(p, a, ItemWriter(g, Trait, e, a), vs, pos, WritePrefixed(g, e, p, a, vs, pos));
    }
  }

  /** A count that fits, written with the prefix writer, then the elements. */
  lemma PrefixedClose(p: IntKind, a: Approach, w: (Value, nat) -> Result<seq<Byte>>, vs: seq<Value>, pos: nat,
                      r: Result<seq<Byte>>)
    requires IntCodable(p, a) && InRange(p, |vs|)
    requires r == PrependBytes(WriteInt(p, a, |vs|), WriteEach(w, vs, pos + Width(p)))
    ensures r == WithPrefix(PrefixWriter(p, a), w, |vs|, vs, pos)
  {
    var pw := PrefixWriter(p, a);
    assert pw(|vs|, pos) == Ok(WriteInt(p, a, |vs|));
    WithPrefixUnfold(pw, w, |vs|, vs, pos, WriteInt(p, a, |vs|));
  }

  /** `<[T; N]>::write_to` with the element type's writer is the encoder's `WriteRepeat`. */
  lemma WriteArrayIsWriteRepeat(g: Generator, e: Desc, vs: seq<Value>, pos: nat)
    requires Writable(g, Own, e, Plain) && AllConform(e, vs)
    ensures WriteEach(ItemWriter(g, Own, e, Plain), vs, pos) == WriteRepeat(g, Own, e, Plain, vs, pos)
  {
    WriteRepeatIsWriteEach(g, Own, e, Plain, vs, pos);
  }
}
