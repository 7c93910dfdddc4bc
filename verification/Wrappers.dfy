/**
 * Outcomes that the original reports by raising an exception or returning an error, and what loops and
 * searches share.
 */
module Wrappers {

  datatype Option<+T> = None | Some(value: T) {
    predicate IsFailure() { None? }

    function PropagateFailure<U>(): Option<U>
      requires None?
    {
      None
    }

    function Extract(): T
      requires Some?
    {
      value
    }
  }

  datatype Result<+T, +E> = Ok(value: T) | Err(error: E) {
    predicate IsFailure() { Err? }

    function PropagateFailure<U>(): Result<U, E>
      requires Err?
    {
      Err(error)
    }

    function Extract(): T
      requires Ok?
    {
      value
    }
  }

  /** What a loop has collected so far, before what it has still to collect, which may fail. */
  function Before<T>(out: seq<T>, rest: Option<seq<T>>): Option<seq<T>>
  {
    if rest.None? then None else Some(out + rest.value)
  }

  lemma BeforeAll<T>(rest: Option<seq<T>>)
    ensures Before([], rest) == rest
  {
    if rest.Some? {
      assert [] + rest.value == rest.value;
    }
  }

  lemma BeforeOne<T>(out: seq<T>, x: T, rest: Option<seq<T>>)
    ensures Before(out, Before([x], rest)) == Before(out + [x], rest)
  {
    if rest.Some? {
      assert out + ([x] + rest.value) == (out + [x]) + rest.value;
    }
  }

  lemma SubsetSize<T>(a: set<T>, b: set<T>)
    requires a <= b
    ensures |a| <= |b|
  {
    assert b == a + (b - a);
  }
}
