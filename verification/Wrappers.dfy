/** Results of operations that may fail. */
module Wrappers {
  datatype Option<+T> = None | Some(value: T)

  datatype Result<+T, +E> = Success(value: T) | Failure(error: E) {
    predicate IsFailure() { Failure? }

    function PropagateFailure<U>(): Result<U, E>
      requires Failure?
    {
      Failure(error)
    }

    function Extract(): T
      requires Success?
    {
      value
    }
  }

  lemma NothingBefore<T>(t: seq<T>)
    ensures [] + t == t
  {
  }

  /** What was read already, before what reading on gives. */
  function After<T, S, E>(done: seq<T>, r: Result<(seq<T>, S), E>): Result<(seq<T>, S), E> {
    match r
    case Failure(e) => Failure(e)
    case Success((others, rest)) => Success((done + others, rest))
  }

  lemma AfterAfter<T, S, E>(p: seq<T>, q: seq<T>, r: Result<(seq<T>, S), E>)
    ensures After(p, After(q, r)) == After(p + q, r)
  {
    if r.Success? {
      assert p + (q + r.value.0) == (p + q) + r.value.0;
    }
  }

  lemma AfterNothing<T, S, E>(r: Result<(seq<T>, S), E>)
    ensures After([], r) == r
  {
    if r.Success? {
      assert [] + r.value.0 == r.value.0;
    }
  }
}
