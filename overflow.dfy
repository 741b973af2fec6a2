/** `OverflowBuffer` and `OverflowingWriter` (src/helper.rs): an intermediate byte buffer that keeps
    the bytes a destination slice had no room for and hands them out first on the next call. No
    byte is lost or reordered: what a destination received followed by what is still pending is
    always everything that was offered, in order. */
module Overflow {
  import opened Io

  function Min(x: nat, y: nat): (m: nat)
    ensures m <= x && m <= y && (m == x || m == y)
  {
    if x <= y then x else y
  }

  /** What `for_buffer` returns: `Err(n)` when the pending bytes filled the destination, or a
      writer that continues after them. */
  datatype Drain = Filled(len: nat) | Writing(writer: OverflowingWriter)

  class OverflowBuffer {
    var buffer: seq<Byte>
    var index: nat

    ghost predicate Valid()
      reads this
    {
      index <= |buffer|
    }

    /** The bytes not yet handed out. */
    function Pending(): seq<Byte>
      reads this
      requires Valid()
    {
      buffer[index..]
    }

    /** `new` (and `default`): nothing pending. */
    constructor ()
      ensures Valid() && buffer == [] && index == 0 && Pending() == []
    {
      buffer := [];
      index := 0;
    }

    /** `take_overflow`: copies as many pending bytes as fit to the front of `dest`, advances the
        index past them, and clears the buffer once everything has been handed out. */
    method TakeOverflow(dest: array<Byte>) returns (n: nat)
      requires Valid()
      modifies this, dest
      ensures Valid()
      ensures n == Min(|old(Pending())|, dest.Length)
      ensures dest[..n] == old(Pending())[..n] && dest[n..] == old(dest[n..])
      ensures dest[..n] + Pending() == old(Pending())
      ensures n == |old(Pending())| ==> buffer == [] && index == 0
      ensures n < |old(Pending())| ==> buffer == old(buffer) && index == old(index) + n
    {
      n := Min(|buffer| - index, dest.Length);
      var i := 0;
      while i < n
        invariant 0 <= i <= n
        invariant buffer == old(buffer) && index == old(index)
        invariant dest[..i] == buffer[index..index + i]
        invariant forall k :: i <= k < dest.Length ==> dest[k] == old(dest[k])
      {
        dest[i] := buffer[index + i];
        i := i + 1;
      }
      assert buffer[index..][..n] == buffer[index..index + n];
      assert buffer[index..][..n] + buffer[index + n..] == buffer[index..];
      index := index + n;
      if index >= |buffer| {
        buffer := [];
        index := 0;
      }
    }

    /** `Read::read`: hands out pending bytes; it never fails and returns 0 when nothing is
        pending. */
    method Read(dest: array<Byte>) returns (r: Result<nat>)
      requires Valid()
      modifies this, dest
      ensures Valid()
      ensures r.Ok? && r.value == Min(|old(Pending())|, dest.Length)
      ensures old(Pending()) == [] ==> r.value == 0
      ensures dest[..r.value] + Pending() == old(Pending()) && dest[r.value..] == old(dest[r.value..])
    {
      var n := TakeOverflow(dest);
      r := Ok(n);
    }

    /** `Write::write`: appends everything and reports its length. */
    method Write(buf: seq<Byte>) returns (r: Result<nat>)
      requires Valid()
      modifies this
      ensures Valid()
      ensures r == Ok(|buf|)
      ensures Pending() == old(Pending()) + buf && index == old(index)
    {
      buffer := buffer + buf;
      r := Ok(|buf|);
    }

    /** `for_buffer`: first drains pending bytes into `dest`; when they fill it the result is
        `Filled` with its length, otherwise a writer that continues where they ended, with
        nothing left pending. */
    method ForBuffer(dest: array<Byte>) returns (r: Drain)
      requires Valid()
      modifies this, dest
      ensures Valid()
      ensures var n := Min(|old(Pending())|, dest.Length);
        dest[..n] + Pending() == old(Pending()) && dest[n..] == old(dest[n..]) &&
        (r.Filled? <==> n == dest.Length) &&
        (r.Filled? ==> r.len == n) &&
        (r.Writing? ==> fresh(r.writer) && r.writer.dest == dest && r.writer.overflow == this &&
                        r.writer.index == n && r.writer.Valid() && Pending() == [])
    {
      var n := TakeOverflow(dest);
      if n == dest.Length {
        return Filled(n);
      }
      var w := new OverflowingWriter(dest, n, this);
      r := Writing(w);
    }
  }

  /** A writer into a borrowed destination slice that spills what does not fit into the overflow
      buffer. While the destination still has room nothing has been spilled. */
  class OverflowingWriter {
    const dest: array<Byte>
    var index: nat
    const overflow: OverflowBuffer

    ghost predicate Valid()
      reads this, overflow
    {
      index <= dest.Length && overflow.Valid() &&
      (index < dest.Length ==> overflow.Pending() == [])
    }

    constructor (dest: array<Byte>, index: nat, overflow: OverflowBuffer)
      requires index <= dest.Length && overflow.Valid()
      requires index < dest.Length ==> overflow.Pending() == []
      ensures this.dest == dest && this.index == index && this.overflow == overflow && Valid()
    {
      this.dest := dest;
      this.index := index;
      this.overflow := overflow;
    }

    /** `ok`: the number of destination bytes filled, never more than it holds. */
    method Finish() returns (r: Result<nat>)
      requires Valid()
      ensures r == Ok(index) && r.value <= dest.Length
    {
      r := Ok(index);
    }

    /** `has_space`: the destination has room, and then nothing has been spilled. */
    function HasSpace(): (b: bool)
      reads this, overflow
      requires Valid()
      ensures b <==> index < dest.Length
      ensures b ==> overflow.Pending() == []
    {
      index < dest.Length
    }

    /** `Write::write`: as many bytes as fit go into the destination after those already there;
        the rest, in order, go to the end of the overflow buffer. It always reports all of
        `buf` written. */
    method Write(buf: seq<Byte>) returns (r: Result<nat>)
      requires Valid()
      modifies this, dest, overflow
      ensures Valid()
      ensures r == Ok(|buf|)
      ensures var k := Min(dest.Length - old(index), |buf|);
        index == old(index) + k &&
        dest[..index] == old(dest[..index]) + buf[..k] &&
        (forall j :: index <= j < dest.Length ==> dest[j] == old(dest[j])) &&
        overflow.buffer == old(overflow.buffer) + buf[k..] && overflow.index == old(overflow.index)
      ensures dest[..index] + overflow.Pending() == old(dest[..index] + overflow.Pending()) + buf
    {
      var k := Min(dest.Length - index, |buf|);
      var i := 0;
      while i < k
        invariant 0 <= i <= k
        invariant index == old(index) && overflow.buffer == old(overflow.buffer) && overflow.index == old(overflow.index)
        invariant dest[..index] == old(dest[..index])
        invariant dest[index..index + i] == buf[..i]
        invariant forall j :: index + i <= j < dest.Length ==> dest[j] == old(dest[j])
      {
        dest[index + i] := buf[i];
        i := i + 1;
      }
      assert dest[..index + k] == dest[..index] + dest[index..index + k];
      index := index + k;
      if k < |buf| {
        overflow.buffer := overflow.buffer + buf[k..];
      }
      assert buf[..k] + buf[k..] == buf;
      r := Ok(|buf|);
    }
  }
}
