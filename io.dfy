/** Bytes, I/O error kinds, results and the readable stream shared by every part of the codec. */
module Io {

  /** One byte of a stream (Rust `u8`). */
  type Byte = b: int | 0 <= b < 256

  /** The error kinds the codec reports (a reduction of `std::io::ErrorKind`). */
  datatype IoError =
    | UnexpectedEof        // the stream ended before a value was complete
    | InvalidData(tag: int) // an enum tag that matches no variant, carrying the tag
    | Other                 // a count or length that does not fit its integer type
    | Custom(code: int)     // an error produced by a user-supplied write hook

  datatype Option<+T> = None | Some(value: T)

  /** `io::Result<T>`, usable with `:-`. */
  datatype Result<+T> = Ok(value: T) | Err(error: IoError) {
    predicate IsFailure() { Err? }

    function PropagateFailure<U>(): Result<U>
      requires Err?
    {
      Err(error)
    }

    function Extract(): T
      requires Ok?
    {
      value
    }
  }

  /** A readable, position-aware stream: the bytes not yet read and the current position. */
  datatype Cursor = Cursor(rest: seq<Byte>, pos: nat)

  /** `c2` is `c` after reading some bytes: its remaining bytes are a suffix of `c`'s and its
      position grew by the number of bytes read. */
  ghost predicate Advanced(c: Cursor, c2: Cursor) {
    |c2.rest| <= |c.rest| &&
    c2.rest == c.rest[|c.rest| - |c2.rest|..] &&
    c2.pos == c.pos + (|c.rest| - |c2.rest|)
  }

  lemma AdvancedTransitive(c1: Cursor, c2: Cursor, c3: Cursor)
    requires Advanced(c1, c2) && Advanced(c2, c3)
    ensures Advanced(c1, c3)
  {
    var k1 := |c1.rest| - |c2.rest|;
    var k2 := |c2.rest| - |c3.rest|;
    assert c3.rest == c1.rest[k1..][k2..];
    assert c1.rest[k1..][k2..] == c1.rest[k1 + k2..];
  }

  /** `read_exact` of `n` bytes: the first `n` remaining bytes, or `UnexpectedEof` when fewer remain. */
  function ReadExact(c: Cursor, n: nat): (r: Result<(seq<Byte>, Cursor)>)
    ensures r.Ok? <==> n <= |c.rest|
    ensures r.Err? ==> r.error == UnexpectedEof
    ensures r.Ok? ==> |r.value.0| == n && r.value.0 + r.value.1.rest == c.rest
    ensures r.Ok? ==> Advanced(c, r.value.1) && r.value.1.pos == c.pos + n
  {
    if |c.rest| < n then Err(UnexpectedEof)
    else
      assert c.rest[..n] + c.rest[n..] == c.rest;
      Ok((c.rest[..n], Cursor(c.rest[n..], c.pos + n)))
  }

  /** Reads and drops `n` bytes (what `consume_bytes` achieves). */
  function Skip(c: Cursor, n: nat): (r: Result<Cursor>)
    ensures r.Ok? <==> n <= |c.rest|
    ensures r.Err? ==> r.error == UnexpectedEof
    ensures r.Ok? ==> Advanced(c, r.value) && |r.value.rest| == |c.rest| - n
  {
    var p :- ReadExact(c, n);
    Ok(p.1)
  }

  /** `n` copies of `b`. */
  function Fill(b: Byte, n: nat): (r: seq<Byte>)
    ensures |r| == n
    ensures forall i :: 0 <= i < n ==> r[i] == b
  {
    if n == 0 then [] else Fill(b, n - 1) + [b]
  }

  lemma ReadExactOfPrefix(bytes: seq<Byte>, rest: seq<Byte>, pos: nat)
    ensures ReadExact(Cursor(bytes + rest, pos), |bytes|) == Ok((bytes, Cursor(rest, pos + |bytes|)))
  {
    assert (bytes + rest)[..|bytes|] == bytes;
    assert (bytes + rest)[|bytes|..] == rest;
  }

  /** Regrouping the pieces of a byte string. */
  lemma AppendAssoc(x: seq<Byte>, y: seq<Byte>, z: seq<Byte>)
    ensures x + y + z == x + (y + z)
  {
  }

  /** A stream read in place (a `Read + PositionAware` reader over bytes): the bytes not yet read
      and the current position. */
  class Source {
    var rest: seq<Byte>
    var pos: nat

    constructor (bytes: seq<Byte>, pos: nat)
      ensures rest == bytes && this.pos == pos
    {
      rest := bytes;
      this.pos := pos;
    }

    function AsCursor(): Cursor
      reads this
    {
      Cursor(rest, pos)
    }

    /** `read_exact` into a buffer of `n` bytes. A read that runs short reports `UnexpectedEof`
        and consumes nothing. */
    method Read(n: nat) returns (r: Result<seq<Byte>>)
      modifies this
      ensures r.Ok? <==> n <= |old(rest)|
      ensures r.Ok? ==> r.value == old(rest)[..n] && rest == old(rest)[n..] && pos == old(pos) + n
      ensures r.Err? ==> r.error == UnexpectedEof && rest == old(rest) && pos == old(pos)
    {
      if n <= |rest| {
        r := Ok(rest[..n]);
        rest := rest[n..];
        pos := pos + n;
      } else {
        r := Err(UnexpectedEof);
      }
    }
  }

  /** A stream written in place (a `Write + PositionAware` writer that appends to a byte vector and
      never fails): what has been written, after a starting position. */
  class Sink {
    var written: seq<Byte>
    const origin: nat

    constructor (origin: nat)
      ensures written == [] && this.origin == origin
    {
      written := [];
      this.origin := origin;
    }

    function Position(): nat
      reads this
    {
      origin + |written|
    }

    /** `write_all`. */
    method WriteAll(bytes: seq<Byte>)
      modifies this`written
      ensures written == old(written) + bytes
    {
      written := written + bytes;
    }
  }
}
