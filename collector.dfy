/** The first-error-aborting collector (`AbortingFromIterator`, src/helper.rs) and the element
    loop it drives in `read_with_length` (src/derive_util.rs) and `read_exact_from` (src/lib.rs):
    `(0..len).map(|_| parser(buffer)).aborting_from_iter()`. A parser is a function of the
    stream's state; it either yields a value and the advanced stream or fails. */
module Collector {
  import opened Io

  type Parser<T> = Cursor -> Result<(T, Cursor)>

  /** What collecting a sequence of item results yields: all the values in order, or the error
      of the first failed item. */
  function Aborting<T>(s: seq<Result<T>>): (r: Result<seq<T>>)
  {
    if s == [] then Ok([])
    else
      var v :- s[0];
      var vs :- Aborting(s[1..]);
      Ok([v] + vs)
  }

  /** Collecting succeeds exactly when every item does, and then holds every item's value in
      order; otherwise it fails with the error of the first failed item. */
  lemma {:induction false} AbortingCollects<T>(s: seq<Result<T>>)
    ensures Aborting(s).Ok? <==> forall i :: 0 <= i < |s| ==> s[i].Ok?
    ensures Aborting(s).Ok? ==>
      |Aborting(s).value| == |s| && forall i :: 0 <= i < |s| ==> Aborting(s).value[i] == s[i].value
    ensures forall k :: 0 <= k < |s| && s[k].Err? && (forall j :: 0 <= j < k ==> s[j].Ok?) ==>
      Aborting(s) == Err(s[k].error)
  {
    if s != [] {
      AbortingCollects(s[1..]);
      assert forall i :: 1 <= i < |s| ==> s[1..][i - 1] == s[i];
      if Aborting(s).Ok? {
        var vs := Aborting(s[1..]).value;
        assert Aborting(s).value == [s[0].value] + vs;
      }
      forall k | 0 <= k < |s| && s[k].Err? && (forall j :: 0 <= j < k ==> s[j].Ok?)
        ensures Aborting(s) == Err(s[k].error)
      {
        if k > 0 {
          assert s[1..][k - 1] == s[k];
          assert forall j :: 0 <= j < k - 1 ==> s[1..][j] == s[j + 1];
        }
      }
    }
  }

  /** `read_with_length(buffer, len, parser)`: `len` values parsed one after the other, each from
      where the previous one ended, or the first error. */
  function ReadWithLength<T>(p: Parser<T>, n: nat, c: Cursor): (r: Result<(seq<T>, Cursor)>)
    decreases n
  {
    if n == 0 then Ok(([], c))
    else
      var x :- p(c);
      var q :- ReadWithLength(p, n - 1, x.1);
      Ok(([x.0] + q.0, q.1))
  }

  /** One parser call, then the rest. */
  lemma ReadWithLengthStep<T>(p: Parser<T>, n: nat, c: Cursor)
    requires n > 0
    ensures ReadWithLength(p, n, c) ==
      (match p(c)
       case Err(x) => Err(x)
       case Ok(y) => Prepend([y.0], ReadWithLength(p, n - 1, y.1)))
  {
  }

  /** The results of the parser calls, in the order they are made: the mapped range is advanced
      only while no call has failed. */
  function Trace<T>(p: Parser<T>, n: nat, c: Cursor): (t: seq<Result<T>>)
    decreases n
  {
    if n == 0 then []
    else
      match p(c)
      case Err(e) => [Err(e)]
      case Ok(x) => [Ok(x.0)] + Trace(p, n - 1, x.1)
  }

  /** At most `len` calls are made; every call but the last succeeded; fewer than `len` calls
      are made only when the last one failed. */
  lemma {:induction false} TraceShape<T>(p: Parser<T>, n: nat, c: Cursor)
    ensures var t := Trace(p, n, c);
      |t| <= n &&
      (forall i :: 0 <= i < |t| - 1 ==> t[i].Ok?) &&
      (|t| < n ==> t != [] && t[|t| - 1].Err?)
    decreases n
  {
    if n > 0 {
      match p(c)
      case Err(e) =>
      case Ok(x) =>
        TraceShape(p, n - 1, x.1);
        var t := Trace(p, n, c);
        assert forall i :: 1 <= i < |t| ==> t[i] == Trace(p, n - 1, x.1)[i - 1];
    }
  }

  /** `read_with_length` is the aborting collector applied to the parser calls: it returns their
      values, or the error of the one that failed. */
  lemma {:induction false} ReadWithLengthAborts<T>(p: Parser<T>, n: nat, c: Cursor)
    ensures var r := ReadWithLength(p, n, c);
      var s := Aborting(Trace(p, n, c));
      (r.Ok? <==> s.Ok?) && (r.Ok? ==> r.value.0 == s.value) && (r.Err? ==> r.error == s.error)
    ensures ReadWithLength(p, n, c).Ok? ==> |ReadWithLength(p, n, c).value.0| == n
    decreases n
  {
    if n > 0 {
      match p(c)
      case Err(e) =>
        assert Trace(p, n, c)[1..] == [];
      case Ok(x) =>
        ReadWithLengthAborts(p, n - 1, x.1);
        assert Trace(p, n, c)[1..] == Trace(p, n - 1, x.1);
    }
  }

  /** The values and the stream before `vs` were parsed, given the outcome of the rest. */
  function Prepend<T>(vs: seq<T>, r: Result<(seq<T>, Cursor)>): Result<(seq<T>, Cursor)> {
    match r
    case Ok(q) => Ok((vs + q.0, q.1))
    case Err(e) => Err(e)
  }

  lemma PrependNil<T>(r: Result<(seq<T>, Cursor)>)
    ensures Prepend([], r) == r
  {
    if r.Ok? {
      assert [] + r.value.0 == r.value.0;
    }
  }

  lemma PrependAssoc<T>(xs: seq<T>, ys: seq<T>, r: Result<(seq<T>, Cursor)>)
    ensures Prepend(xs, Prepend(ys, r)) == Prepend(xs + ys, r)
  {
    if r.Ok? {
      assert xs + (ys + r.value.0) == xs + ys + r.value.0;
    }
  }

  /** `(0..len).map(|_| parser(buffer))`: each step calls the parser on the shared stream. A
      failing parser reports no position, so here the stream stays where the failing call began;
      the source's stream may already have moved past part of the failing element. */
  class Parsing<T> {
    const parser: Parser<T>
    var remaining: nat
    var at: Cursor

    constructor (parser: Parser<T>, len: nat, c: Cursor)
      ensures this.parser == parser && remaining == len && at == c
    {
      this.parser := parser;
      remaining := len;
      at := c;
    }

    method Next() returns (o: Option<Result<T>>)
      modifies this
      ensures old(remaining) == 0 ==> o.None? && remaining == 0 && at == old(at)
      ensures old(remaining) > 0 ==>
        remaining == old(remaining) - 1 &&
        (match parser(old(at))
         case Ok(x) => o == Some(Ok(x.0)) && at == x.1
         case Err(e) => o == Some(Err(e)) && at == old(at))
    {
      if remaining == 0 {
        return None;
      }
      remaining := remaining - 1;
      match parser(at)
      case Ok(x) =>
        o := Some(Ok(x.0));
        at := x.1;
      case Err(e) =>
        o := Some(Err(e));
    }
  }

  /** `AbortingIter`: yields the values of the wrapped iterator until an item fails, records
      that item's error and from then on yields nothing without advancing the wrapped iterator. */
  class AbortingIter<T> {
    const iter: Parsing<T>
    var err: Option<IoError>

    constructor (iter: Parsing<T>)
      ensures this.iter == iter && err.None?
    {
      this.iter := iter;
      err := None;
    }

    method Next() returns (x: Option<T>)
      modifies this, iter
      ensures old(err).Some? ==>
        x.None? && err == old(err) && iter.remaining == old(iter.remaining) && iter.at == old(iter.at)
      ensures old(err).None? && old(iter.remaining) == 0 ==>
        x.None? && err.None? && iter.remaining == 0 && iter.at == old(iter.at)
      ensures old(err).None? && old(iter.remaining) > 0 ==>
        iter.remaining == old(iter.remaining) - 1 &&
        (match iter.parser(old(iter.at))
         case Ok(y) => x == Some(y.0) && err.None? && iter.at == y.1
         case Err(e) => x.None? && err == Some(e) && iter.at == old(iter.at))
    {
      if err.Some? {
        return None;
      }
      var o := iter.Next();
      if o.None? {
        return None;
      }
      match o.value
      case Ok(v) =>
        x := Some(v);
      case Err(e) =>
        err := Some(e);
        x := None;
    }
  }

  /** `aborting_from_iter`, collecting into a sequence: the result is `read_with_length` of the
      wrapped iterator's parser, length and stream, and the parser was called exactly as often
      as the trace says (never again after a failure). */
  method AbortingFromIter<T>(it: Parsing<T>) returns (r: Result<seq<T>>)
    modifies it
    ensures var spec := ReadWithLength(it.parser, old(it.remaining), old(it.at));
      (r.Ok? <==> spec.Ok?) &&
      (spec.Ok? ==> r.value == spec.value.0 && it.at == spec.value.1) &&
      (spec.Err? ==> r.error == spec.error)
    ensures old(it.remaining) - it.remaining == |Trace(it.parser, old(it.remaining), old(it.at))|
  {
    var u := new AbortingIter(it);
    ghost var n0 := it.remaining;
    ghost var c0 := it.at;
    var res: seq<T> := [];
    var done := false;
    PrependNil(ReadWithLength(it.parser, n0, c0));
    while !done
      invariant it.remaining <= n0
      invariant !done ==>
        u.err.None? &&
        ReadWithLength(it.parser, n0, c0) == Prepend(res, ReadWithLength(it.parser, it.remaining, it.at)) &&
        |Trace(it.parser, n0, c0)| == n0 - it.remaining + |Trace(it.parser, it.remaining, it.at)|
      invariant done && u.err.None? ==>
        ReadWithLength(it.parser, n0, c0) == Ok((res, it.at)) && |Trace(it.parser, n0, c0)| == n0 - it.remaining
      invariant done && u.err.Some? ==>
        ReadWithLength(it.parser, n0, c0) == Err(u.err.value) && |Trace(it.parser, n0, c0)| == n0 - it.remaining
      decreases it.remaining, if done then 0 else 1
    {
      var x := u.Next();
      if x.Some? {
        PrependAssoc(res, [x.value], ReadWithLength(it.parser, it.remaining, it.at));
        res := res + [x.value];
      } else {
        assert res + [] == res;
        done := true;
      }
    }
    r := if u.err.Some? then Err(u.err.value) else Ok(res);
  }
}
