/** `ReadCounter` and `WriteCounter` (src/positional.rs): minimal position-aware wrappers that
    count the bytes their inner reader or writer reports. The inner reader and writer are not part
    of the model: each call takes as a parameter the result the inner call returned. */
module Positional {
  import opened Io

  /** The bytes accounted for by a history of inner results: the lengths of the successful ones. */
  function Counted(history: seq<Result<nat>>): (n: nat)
  {
    if history == [] then 0
    else
      var last := history[|history| - 1];
      Counted(history[..|history| - 1]) + (if last.Ok? then last.value else 0)
  }

  /** Failed calls add nothing, and the count of a history is the sum of the counts of its parts. */
  lemma {:induction false} CountedConcat(h1: seq<Result<nat>>, h2: seq<Result<nat>>)
    ensures Counted(h1 + h2) == Counted(h1) + Counted(h2)
    decreases |h2|
  {
    if h2 != [] {
      var h2' := h2[..|h2| - 1];
      assert (h1 + h2)[..|h1 + h2| - 1] == h1 + h2';
      CountedConcat(h1, h2');
    } else {
      assert h1 + h2 == h1;
    }
  }

  /** A history of failures counts nothing. */
  lemma {:induction false} FailuresCountNothing(history: seq<Result<nat>>)
    requires forall i :: 0 <= i < |history| ==> history[i].Err?
    ensures Counted(history) == 0
    decreases |history|
  {
    if history != [] {
      FailuresCountNothing(history[..|history| - 1]);
    }
  }

  /** A reader that counts the bytes read through it. */
  class ReadCounter {
    var position: nat
    ghost var history: seq<Result<nat>>

    /** The position is the number of bytes the inner reader reported since construction. */
    ghost predicate Valid()
      reads this
    {
      position == Counted(history)
    }

    /** `ReadCounter::new`: position 0. */
    constructor ()
      ensures Valid() && position == 0 && history == []
    {
      position := 0;
      history := [];
    }

    /** `Read::read`: the inner result is returned unchanged; a successful read of `n` bytes
        advances the position by `n`, a failed one leaves it alone. */
    method Read(inner: Result<nat>) returns (r: Result<nat>)
      requires Valid()
      modifies this
      ensures Valid() && history == old(history) + [inner]
      ensures r == inner
      ensures position == if inner.Ok? then old(position) + inner.value else old(position)
    {
      history := history + [inner];
      assert history[..|history| - 1] == old(history);
      match inner
      case Err(e) =>
        r := Err(e);
      case Ok(res) =>
        position := position + res;
        r := Ok(res);
    }

    /** `PositionAware::position`: the stored count; it never fails. */
    method Position() returns (r: Result<nat>)
      requires Valid()
      ensures r.Ok? && r.value == Counted(history)
    {
      r := Ok(position);
    }
  }

  /** A writer that counts the bytes written through it. */
  class WriteCounter {
    var position: nat
    ghost var history: seq<Result<nat>>

    ghost predicate Valid()
      reads this
    {
      position == Counted(history)
    }

    /** `WriteCounter::new`: position 0. */
    constructor ()
      ensures Valid() && position == 0 && history == []
    {
      position := 0;
      history := [];
    }

    /** `Write::write`: the inner result is returned unchanged; a successful write of `n` bytes
        advances the position by `n`, a failed one leaves it alone. */
    method Write(inner: Result<nat>) returns (r: Result<nat>)
      requires Valid()
      modifies this
      ensures Valid() && history == old(history) + [inner]
      ensures r == inner
      ensures position == if inner.Ok? then old(position) + inner.value else old(position)
    {
      history := history + [inner];
      assert history[..|history| - 1] == old(history);
      match inner
      case Err(e) =>
        r := Err(e);
      case Ok(res) =>
        position := position + res;
        r := Ok(res);
    }

    /** `Write::flush`: delegates to the inner writer; the position does not move. */
    method Flush(inner: Result<()>) returns (r: Result<()>)
      requires Valid()
      ensures Valid() && r == inner
    {
      r := inner;
    }

    /** `PositionAware::position`: the stored count; it never fails. */
    method Position() returns (r: Result<nat>)
      requires Valid()
      ensures r.Ok? && r.value == Counted(history)
    {
      r := Ok(position);
    }
  }
}
