/** Skipping and emitting filler bytes in bounded chunks, and the padding types built on them:
    `Padding<N>` (a fixed run of bytes) and `PadToAlign<N, P>` (enough bytes to reach a multiple
    of `N` from the stream position). */
module Grammar {
  import opened Io

  const IoChunkSize: nat := 512

  function Sum(s: seq<nat>): nat {
    if s == [] then 0 else Sum(s[..|s| - 1]) + s[|s| - 1]
  }

  /** `consume_bytes`: reads and drops exactly `len` bytes, at most one chunk per read, and fails
      with `UnexpectedEof` when the stream holds fewer. */
  method ConsumeBytes(src: Source, len: nat) returns (r: Result<()>, ghost chunks: seq<nat>)
    modifies src
    ensures r.Ok? <==> len <= |old(src.rest)|
    ensures r.Err? ==> r.error == UnexpectedEof
    ensures r.Ok? ==> src.rest == old(src.rest)[len..] && src.pos == old(src.pos) + len
    ensures r.Ok? ==> Sum(chunks) == len
    ensures forall i :: 0 <= i < |chunks| ==> 0 < chunks[i] <= IoChunkSize
  {
    var remaining: nat := len;
    chunks := [];
    while remaining > 0
      invariant remaining <= len
      invariant len - remaining <= |old(src.rest)|
      invariant src.rest == old(src.rest)[len - remaining..]
      invariant src.pos == old(src.pos) + (len - remaining)
      invariant Sum(chunks) == len - remaining
      invariant forall i :: 0 <= i < |chunks| ==> 0 < chunks[i] <= IoChunkSize
      decreases remaining
    {
      var size := if remaining < IoChunkSize then remaining else IoChunkSize;
      var got := src.Read(size);
      if got.Err? {
        return Err(got.error), chunks;
      }
      remaining := remaining - size;
      assert (chunks + [size])[..|chunks|] == chunks;
      chunks := chunks + [size];
    }
    r := Ok(());
  }

  lemma FillConcat(b: Byte, m: nat, k: nat)
    ensures Fill(b, m) + Fill(b, k) == Fill(b, m + k)
  {
    assert forall i :: 0 <= i < m + k ==> (Fill(b, m) + Fill(b, k))[i] == b;
  }

  /** `write_padding`: writes exactly `len` copies of `byte`, at most one chunk per write. */
  method WritePadding(sink: Sink, byte: Byte, len: nat) returns (ghost chunks: seq<nat>)
    modifies sink`written
    ensures sink.written == old(sink.written) + Fill(byte, len)
    ensures Sum(chunks) == len
    ensures forall i :: 0 <= i < |chunks| ==> 0 < chunks[i] <= IoChunkSize
  {
    var padding := Fill(byte, IoChunkSize);
    var remaining: nat := len;
    chunks := [];
    while remaining > 0
      invariant remaining <= len
      invariant sink.written == old(sink.written) + Fill(byte, len - remaining)
      invariant Sum(chunks) == len - remaining
      invariant forall i :: 0 <= i < |chunks| ==> 0 < chunks[i] <= IoChunkSize
      decreases remaining
    {
      var size := if remaining < IoChunkSize then remaining else IoChunkSize;
      assert padding[..size] == Fill(byte, size);
      sink.WriteAll(padding[..size]);
      FillConcat(byte, len - remaining, size);
      remaining := remaining - size;
      assert (chunks + [size])[..|chunks|] == chunks;
      chunks := chunks + [size];
    }
  }

  /** `pos + q` is a multiple of `align`. */
  predicate AlignedAfter(align: nat, pos: nat, q: nat)
    requires align > 0
  {
    (pos + q) % align == 0
  }

  /** `PadToAlign::padding_for`: no padding for an alignment below 2; otherwise the smallest
      count that brings the position to a multiple of the alignment. */
  function PaddingFor(align: nat, pos: nat): (p: nat)
    ensures align < 2 ==> p == 0
    ensures align >= 2 ==> p < align && AlignedAfter(align, pos, p)
    ensures align >= 2 ==> forall q :: 0 <= q < p ==> !AlignedAfter(align, pos, q)
  {
    if align < 2 then 0
    else
      var offset := pos % align;
      if offset == 0 then
        assert AlignedAfter(align, pos, 0);
        0
      else
        PaddingMinimal(align, pos);
        align - offset
  }

  /** `x` is `q * m + r` with `0 <= r < m` exactly when `q` and `r` are its quotient and remainder. */
  lemma DivModUnique(x: int, m: int, q: int, r: int)
    requires m > 0 && x == q * m + r && 0 <= r < m
    ensures x / m == q && x % m == r
  {
    var q0, r0 := x / m, x % m;
    assert x == q0 * m + r0;
    if q0 > q {
      MulAtLeast(q0 - q, m);
    } else if q0 < q {
      MulAtLeast(q - q0, m);
    }
  }

  lemma {:induction false} MulAtLeast(k: int, m: int)
    requires k >= 1 && m > 0
    ensures k * m >= m
  {
    if k > 1 {
      MulAtLeast(k - 1, m);
      assert k * m == (k - 1) * m + m;
    }
  }

  lemma PaddingMinimal(align: nat, pos: nat)
    requires align >= 2 && pos % align != 0
    ensures AlignedAfter(align, pos, align - pos % align)
    ensures forall q :: 0 <= q < align - pos % align ==> !AlignedAfter(align, pos, q)
  {
    var k := pos / align;
    var offset := pos % align;
    assert pos == k * align + offset;
    assert pos + (align - offset) == (k + 1) * align + 0;
    DivModUnique(pos + (align - offset), align, k + 1, 0);
    forall q | 0 <= q < align - offset
      ensures !AlignedAfter(align, pos, q)
    {
      DivModUnique(pos + q, align, k, offset + q);
    }
  }

  /** A position that is already aligned needs no padding. */
  lemma AlignedNeedsNoPadding(align: nat, pos: nat)
    requires align >= 2 && pos % align == 0
    ensures PaddingFor(align, pos) == 0
  {
    var p := PaddingFor(align, pos);
    assert AlignedAfter(align, pos, 0);
  }

  /** Aligning is idempotent: after the padding, a second alignment adds nothing. */
  lemma PaddingIdempotent(align: nat, pos: nat)
    ensures PaddingFor(align, pos + PaddingFor(align, pos)) == 0
  {
    if align >= 2 {
      AlignedNeedsNoPadding(align, pos + PaddingFor(align, pos));
    }
  }
}
