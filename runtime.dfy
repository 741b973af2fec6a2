/** The runtime crate's loops over the stream (src/lib.rs, src/derive_util.rs): the `[T; N]` read
    that fills its slots one by one, the `[T; N]` write, `read_exact_from`, `write_with_prefix`
    and `ReadIntoSelf` over a slice. Each is a method on a `Source` or a `Sink`, generic in the
    element type and its reader or writer, and proved against a function of the element's
    parser or writer. How those functions relate to the decoder and the encoder is stated in
    `Dispatch`. */
module Runtime {
  import opened Io
  import opened ByteOrder
  import opened Conversion
  import opened Collector

  /** `read_exact_from(buffer, count)`: `count` reads through the aborting collector. The result
      is `read_with_length` of the reader, and the reader is called once per value until one
      fails, and never after. */
  method ReadExactFromSource<T>(src: Source, parse: Parser<T>, count: nat) returns (r: Result<seq<T>>)
    modifies src
    ensures var spec := ReadWithLength(parse, count, old(src.AsCursor()));
      (r.Ok? <==> spec.Ok?) &&
      (spec.Ok? ==> r.value == spec.value.0 && src.AsCursor() == spec.value.1) &&
      (spec.Err? ==> r.error == spec.error)
  {
    var it := new Parsing(parse, count, src.AsCursor());
    r := AbortingFromIter(it);
    if r.Ok? {
      src.rest := it.at.rest;
      src.pos := it.at.pos;
    }
  }

  /** `<[T; N]>::read_from`: the slots are filled in index order, each with one read of the
      element type; nothing is read for the length, and the first error ends the read. */
  method ReadArray<T(0)>(src: Source, parse: Parser<T>, n: nat) returns (r: Result<array<T>>)
    modifies src
    ensures var spec := ReadWithLength(parse, n, old(src.AsCursor()));
      (r.Ok? <==> spec.Ok?) &&
      (spec.Ok? ==> fresh(r.value) && r.value[..] == spec.value.0 && src.AsCursor() == spec.value.1) &&
      (spec.Err? ==> r.error == spec.error)
  {
    ghost var c0 := src.AsCursor();
    var slots := new T[n];
    var i := 0;
    PrependNil(ReadWithLength(parse, n, c0));
    while i < n
      invariant 0 <= i <= n
      invariant ReadWithLength(parse, n, c0) == Prepend(slots[..i], ReadWithLength(parse, n - i, src.AsCursor()))
    {
      ReadWithLengthStep(parse, n - i, src.AsCursor());
      var item := parse(src.AsCursor());
      if item.Err? {
        return Err(item.error);
      }
      PrependAssoc(slots[..i], [item.value.0], ReadWithLength(parse, n - i - 1, item.value.1));
      slots[i] := item.value.0;
      assert slots[..i + 1] == slots[..i] + [item.value.0];
      src.rest := item.value.1.rest;
      src.pos := item.value.1.pos;
      i := i + 1;
    }
    assert slots[..] == slots[..n] + [];
    r := Ok(slots);
  }

  /** Writing `vs` one after the other with `w`, each at the position the previous one reached:
      all their bytes in order, or the first error. */
  function WriteEach<T>(w: (T, nat) -> Result<seq<Byte>>, vs: seq<T>, pos: nat): (r: Result<seq<Byte>>)
    decreases |vs|
  {
    if vs == [] then Ok([])
    else
      var b :- w(vs[0], pos);
      var bs :- WriteEach(w, vs[1..], pos + |b|);
      Ok(b + bs)
  }

  /** The bytes written before those of `r`, given the outcome of the rest. */
  function PrependBytes(b: seq<Byte>, r: Result<seq<Byte>>): Result<seq<Byte>> {
    match r
    case Ok(bs) => Ok(b + bs)
    case Err(e) => Err(e)
  }

  lemma PrependBytesNil(r: Result<seq<Byte>>)
    ensures PrependBytes([], r) == r
  {
    if r.Ok? {
      assert [] + r.value == r.value;
    }
  }

  lemma PrependBytesAssoc(x: seq<Byte>, y: seq<Byte>, r: Result<seq<Byte>>)
    ensures PrependBytes(x, PrependBytes(y, r)) == PrependBytes(x + y, r)
  {
    if r.Ok? {
      assert x + (y + r.value) == x + y + r.value;
    }
  }

  /** The first element, then the rest from where it ended. */
  lemma WriteEachCons<T>(w: (T, nat) -> Result<seq<Byte>>, vs: seq<T>, pos: nat)
    requires vs != []
    ensures WriteEach(w, vs, pos) ==
      (match w(vs[0], pos)
       case Err(x) => Err(x)
       case Ok(b) => PrependBytes(b, WriteEach(w, vs[1..], pos + |b|)))
  {
  }

  /** Writing from element `i` on: element `i`, then the rest from where it ended. */
  lemma WriteEachStep<T>(w: (T, nat) -> Result<seq<Byte>>, vs: seq<T>, i: nat, pos: nat)
    requires i < |vs|
    ensures WriteEach(w, vs[i..], pos) ==
      (match w(vs[i], pos)
       case Err(x) => Err(x)
       case Ok(b) => PrependBytes(b, WriteEach(w, vs[i + 1..], pos + |b|)))
  {
    assert vs[i..][1..] == vs[i + 1..];
  }

  /** After the first `i` elements of `vs`, written from position `p0`, `done` is on the
      stream, and writing the rest from where they ended completes the write `target`. */
  ghost predicate Progress<T>(w: (T, nat) -> Result<seq<Byte>>, vs: seq<T>, i: nat, p0: nat, done: seq<Byte>,
                              target: Result<seq<Byte>>) {
    i <= |vs| && PrependBytes(done, WriteEach(w, vs[i..], p0 + |done|)) == target
  }

  lemma ProgressStart<T>(w: (T, nat) -> Result<seq<Byte>>, vs: seq<T>, p0: nat)
    ensures Progress(w, vs, 0, p0, [], WriteEach(w, vs, p0))
  {
    assert vs[0..] == vs;
    PrependBytesNil(WriteEach(w, vs, p0));
  }

  /** One more element written: the bytes so far, then the element's, then the rest's. */
  lemma ProgressStep<T>(w: (T, nat) -> Result<seq<Byte>>, vs: seq<T>, i: nat, p0: nat, done: seq<Byte>,
                        target: Result<seq<Byte>>, b: seq<Byte>)
    requires Progress(w, vs, i, p0, done, target) && i < |vs|
    requires w(vs[i], p0 + |done|) == Ok(b)
    ensures Progress(w, vs, i + 1, p0, done + b, target)
  {
    WriteEachStep(w, vs, i, p0 + |done|);
    PrependBytesAssoc(done, b, WriteEach(w, vs[i + 1..], p0 + |done| + |b|));
  }

  /** A failing element write fails the whole write with its error. */
  lemma ProgressFails<T>(w: (T, nat) -> Result<seq<Byte>>, vs: seq<T>, i: nat, p0: nat, done: seq<Byte>,
                         target: Result<seq<Byte>>)
    requires Progress(w, vs, i, p0, done, target) && i < |vs|
    requires w(vs[i], p0 + |done|).Err?
    ensures target == Err(w(vs[i], p0 + |done|).error)
  {
    WriteEachStep(w, vs, i, p0 + |done|);
  }

  /** With every element written, `done` is the whole write. */
  lemma ProgressEnd<T>(w: (T, nat) -> Result<seq<Byte>>, vs: seq<T>, p0: nat, done: seq<Byte>, target: Result<seq<Byte>>)
    requires Progress(w, vs, |vs|, p0, done, target)
    ensures target == Ok(done)
  {
    assert vs[|vs|..] == [];
    assert done + [] == done;
  }

  /** A write method's outcome against its specification `spec`: it succeeds exactly when
      `spec` does, having appended `spec`'s bytes to what was written `before`, and otherwise
      fails with `spec`'s error. */
  predicate Reports(r: Result<()>, spec: Result<seq<Byte>>, before: seq<Byte>, after: seq<Byte>) {
    (r.Ok? <==> spec.Ok?) &&
    (spec.Ok? ==> after == before + spec.value) &&
    (spec.Err? ==> r.error == spec.error)
  }

  /** The element loop of `<[T; N]>::write_to` and `write_with_prefix`, `for item in items {
      found += 1; item_writer(item, buffer)? }`: started where `done` (the bytes already written
      after `w0`) ended, it completes the write `target`, and counts every element when it
      succeeds. */
  method WriteItems<T>(sink: Sink, w: (T, nat) -> Result<seq<Byte>>, vs: seq<T>,
                       ghost p0: nat, ghost w0: seq<Byte>, ghost done: seq<Byte>, ghost target: Result<seq<Byte>>)
    returns (r: Result<()>, found: nat)
    requires Progress(w, vs, 0, p0, done, target)
    requires sink.written == w0 + done && sink.Position() == p0 + |done|
    modifies sink
    ensures Reports(r, target, w0, sink.written)
    ensures r.Ok? ==> found == |vs|
  {
    ghost var sofar := done;
    found := 0;
    var i := 0;
    while i < |vs|
      invariant found == i
      invariant sink.written == w0 + sofar && sink.Position() == p0 + |sofar|
      invariant Progress(w, vs, i, p0, sofar, target)
    {
      found := found + 1;
      var b := w(vs[i], sink.Position());
      if b.Err? {
        ProgressFails(w, vs, i, p0, sofar, target);
        return Err(b.error), found;
      }
      ProgressStep(w, vs, i, p0, sofar, target, b.value);
      sink.WriteAll(b.value);
      sofar := sofar + b.value;
      i := i + 1;
    }
    ProgressEnd(w, vs, p0, sofar, target);
    r := Ok(());
  }

  /** `<[T; N]>::write_to`: every element in order, each at the position the previous one
      reached; the bytes written are `WriteEach` of the element writer, and the first error ends
      the write. */
  method WriteArray<T>(sink: Sink, w: (T, nat) -> Result<seq<Byte>>, vs: seq<T>) returns (r: Result<()>)
    modifies sink
    ensures Reports(r, WriteEach(w, vs, old(sink.Position())), old(sink.written), sink.written)
  {
    ProgressStart(w, vs, sink.Position());
    assert sink.written + [] == sink.written;
    var found;
    r, found := WriteItems(sink, w, vs, sink.Position(), sink.written, [], WriteEach(w, vs, sink.Position()));
  }

  /** `size_hint` as a caller sees it: a lower bound and an optional upper bound. */
  datatype SizeHint = SizeHint(lower: nat, upper: Option<nat>)

  /** The iterator contract: the hint bounds the number of items. */
  predicate HonestHint(h: SizeHint, len: nat) {
    h.lower <= len && (h.upper.Some? ==> len <= h.upper.value)
  }

  /** The count `write_with_prefix` emits: the size hint when it is exact and nonzero, otherwise
      the items counted. For an honest hint both are the number of items. */
  function PrefixCount(h: SizeHint, len: nat): (n: nat)
    ensures HonestHint(h, len) ==> n == len
  {
    if h.lower > 0 && h.upper == Some(h.lower) then h.lower else len
  }

  /** The prefix `count` written with `pw` at `pos`, then the elements with `w` from where it
      ended: all the bytes, or the first error. */
  function WithPrefix<T>(pw: (int, nat) -> Result<seq<Byte>>, w: (T, nat) -> Result<seq<Byte>>, count: int, vs: seq<T>, pos: nat)
    : (r: Result<seq<Byte>>)
  {
    match pw(count, pos)
    case Err(e) => Err(e)
    case Ok(head) => PrependBytes(head, WriteEach(w, vs, pos + |head|))
  }

  /** Once the prefix is written, the elements are what remains. */
  lemma WithPrefixStart<T>(pw: (int, nat) -> Result<seq<Byte>>, w: (T, nat) -> Result<seq<Byte>>, count: int, vs: seq<T>,
                           pos: nat, head: seq<Byte>)
    requires pw(count, pos) == Ok(head)
    ensures Progress(w, vs, 0, pos, head, WithPrefix(pw, w, count, vs, pos))
  {
    assert vs[0..] == vs;
  }

  /** A prefix written, then the elements from where it ended. */
  lemma WithPrefixUnfold<T>(pw: (int, nat) -> Result<seq<Byte>>, w: (T, nat) -> Result<seq<Byte>>, count: int, vs: seq<T>,
                            pos: nat, head: seq<Byte>)
    requires pw(count, pos) == Ok(head)
    ensures WithPrefix(pw, w, count, vs, pos) == PrependBytes(head, WriteEach(w, vs, pos + |head|))
  {
  }

  /** `write_with_prefix`: the element count converted to the prefix type `p` (`Other`, with
      nothing written, when it does not fit), the prefix written with `pw`, then every element
      with `w`, counting them; the count found equals the count emitted. */
  method WriteWithPrefix<T>(sink: Sink, p: IntKind, pw: (int, nat) -> Result<seq<Byte>>, w: (T, nat) -> Result<seq<Byte>>,
                            vs: seq<T>, hint: SizeHint)
    returns (r: Result<()>)
    requires HonestHint(hint, |vs|)
    modifies sink
    ensures TryFrom(Kind(p), |vs|).Err? ==> r == Err(Other) && sink.written == old(sink.written)
    ensures TryFrom(Kind(p), |vs|).Ok? ==>
      Reports(r, WithPrefix(pw, w, |vs|, vs, old(sink.Position())), old(sink.written), sink.written)
  {
    var count := PrefixCount(hint, |vs|);
    var prefix := TryFrom(Kind(p), count);
    if prefix.Err? {
      return Err(Other);
    }
    ghost var p0 := sink.Position();
    ghost var target := WithPrefix(pw, w, |vs|, vs, p0);
    assert count == |vs| && TryFrom(Kind(p), |vs|) == prefix;
    var head := pw(prefix.value, sink.Position());
    if head.Err? {
      return Err(head.error);
    }
    ghost var w0 := sink.written;
    sink.WriteAll(head.value);
    WithPrefixStart(pw, w, |vs|, vs, p0, head.value);
    var found;
    r, found := WriteItems(sink, w, vs, p0, w0, head.value, target);
    if r.Ok? {
      assert count == found;
    }
  }

  /** What reading into the elements `xs` in order leaves (`step` is one element's
      `ReadIntoSelf::read_into`: it updates the element in place, or fails): the updated elements, the stream, and
      the outcome. The first failure ends the loop and leaves that and all later elements as
      they were. */
  function ReadIntoAll<T>(step: (T, Cursor) -> Result<(T, Cursor)>, xs: seq<T>, c: Cursor): (r: (seq<T>, Cursor, Result<()>))
    decreases |xs|
  {
    if xs == [] then ([], c, Ok(()))
    else
      match step(xs[0], c)
      case Err(e) => (xs, c, Err(e))
      case Ok(y) =>
        var rest := ReadIntoAll(step, xs[1..], y.1);
        ([y.0] + rest.0, rest.1, rest.2)
  }

  /** Reading into a slice keeps its length; it succeeds with every element updated, or fails
      at some element `k` having updated exactly those before it. */
  lemma {:induction false} ReadIntoAllShape<T>(step: (T, Cursor) -> Result<(T, Cursor)>, xs: seq<T>, c: Cursor)
    ensures |ReadIntoAll(step, xs, c).0| == |xs|
    ensures ReadIntoAll(step, xs, c).2.Err? ==>
      exists k :: 0 <= k < |xs| && ReadIntoAll(step, xs, c).0[k..] == xs[k..]
    decreases |xs|
  {
    if xs != [] {
      match step(xs[0], c)
      case Err(e) =>
        assert ReadIntoAll(step, xs, c).0[0..] == xs[0..];
      case Ok(y) =>
        ReadIntoAllShape(step, xs[1..], y.1);
        var rest := ReadIntoAll(step, xs[1..], y.1);
        if rest.2.Err? {
          var k :| 0 <= k < |xs| - 1 && rest.0[k..] == xs[1..][k..];
          assert ([y.0] + rest.0)[k + 1..] == rest.0[k..];
          assert xs[1..][k..] == xs[k + 1..];
        }
    }
  }

  /** Element `i`, then the rest from where it ended. */
  lemma ReadIntoAllStep<T>(step: (T, Cursor) -> Result<(T, Cursor)>, xs: seq<T>, i: nat, c: Cursor)
    requires i < |xs|
    ensures step(xs[i], c).Err? ==> ReadIntoAll(step, xs[i..], c) == (xs[i..], c, Err(step(xs[i], c).error))
    ensures step(xs[i], c).Ok? ==>
      var y := step(xs[i], c).value;
      var rest := ReadIntoAll(step, xs[i + 1..], y.1);
      ReadIntoAll(step, xs[i..], c) == ([y.0] + rest.0, rest.1, rest.2)
  {
    assert xs[i..][1..] == xs[i + 1..];
  }

  /** After the first `i` elements were read into, giving `done`, and the stream reached `c`,
      reading into the rest from `c` completes the read into all of `xs` from `c0`. */
  ghost predicate Filled<T>(step: (T, Cursor) -> Result<(T, Cursor)>, xs: seq<T>, c0: Cursor, i: nat, done: seq<T>, c: Cursor) {
    i <= |xs| &&
    var rest := ReadIntoAll(step, xs[i..], c);
    ReadIntoAll(step, xs, c0) == (done + rest.0, rest.1, rest.2)
  }

  lemma FilledStart<T>(step: (T, Cursor) -> Result<(T, Cursor)>, xs: seq<T>, c0: Cursor)
    ensures Filled(step, xs, c0, 0, [], c0)
  {
    assert xs[0..] == xs;
    assert [] + ReadIntoAll(step, xs, c0).0 == ReadIntoAll(step, xs, c0).0;
  }

  lemma FilledStep<T>(step: (T, Cursor) -> Result<(T, Cursor)>, xs: seq<T>, c0: Cursor, i: nat, done: seq<T>, c: Cursor,
                      y: (T, Cursor))
    requires Filled(step, xs, c0, i, done, c) && i < |xs| && step(xs[i], c) == Ok(y)
    ensures Filled(step, xs, c0, i + 1, done + [y.0], y.1)
  {
    ReadIntoAllStep(step, xs, i, c);
    var rest := ReadIntoAll(step, xs[i + 1..], y.1);
    assert done + ([y.0] + rest.0) == done + [y.0] + rest.0;
  }

  lemma FilledFails<T>(step: (T, Cursor) -> Result<(T, Cursor)>, xs: seq<T>, c0: Cursor, i: nat, done: seq<T>, c: Cursor)
    requires Filled(step, xs, c0, i, done, c) && i < |xs| && step(xs[i], c).Err?
    ensures ReadIntoAll(step, xs, c0) == (done + xs[i..], c, Err(step(xs[i], c).error))
  {
    ReadIntoAllStep(step, xs, i, c);
  }

  lemma FilledEnd<T>(step: (T, Cursor) -> Result<(T, Cursor)>, xs: seq<T>, c0: Cursor, done: seq<T>, c: Cursor)
    requires Filled(step, xs, c0, |xs|, done, c)
    ensures ReadIntoAll(step, xs, c0) == (done, c, Ok(()))
  {
    assert xs[|xs|..] == [];
    assert done + [] == done;
  }

  /** `<[T]>::read_into` (through the iterator impl): each element in order reads into itself;
      the first error is returned at once, leaving the later elements unchanged. */
  method ReadIntoSlice<T>(src: Source, slots: array<T>, step: (T, Cursor) -> Result<(T, Cursor)>) returns (r: Result<()>)
    modifies src, slots
    ensures var spec := ReadIntoAll(step, old(slots[..]), old(src.AsCursor()));
      slots[..] == spec.0 && r == spec.2 && (r.Ok? ==> src.AsCursor() == spec.1)
  {
    ghost var xs := slots[..];
    ghost var c0 := src.AsCursor();
    var i := 0;
    FilledStart(step, xs, c0);
    while i < slots.Length
      invariant 0 <= i <= slots.Length
      invariant slots[i..] == xs[i..]
      invariant Filled(step, xs, c0, i, slots[..i], src.AsCursor())
    {
      var y := step(slots[i], src.AsCursor());
      if y.Err? {
        FilledFails(step, xs, c0, i, slots[..i], src.AsCursor());
        assert slots[..] == slots[..i] + slots[i..];
        return Err(y.error);
      }
      ghost var before := slots[..i];
      FilledStep(step, xs, c0, i, before, src.AsCursor(), y.value);
      assert xs[i + 1..] == slots[i + 1..];
      slots[i] := y.value.0;
      assert slots[..i + 1] == before + [y.value.0];
      src.rest := y.value.1.rest;
      src.pos := y.value.1.pos;
      i := i + 1;
    }
    assert slots[..] == slots[..i];
    FilledEnd(step, xs, c0, slots[..], src.AsCursor());
    r := Ok(());
  }
}
