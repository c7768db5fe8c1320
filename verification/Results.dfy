/** Optional values and the outcome of an operation that may throw. */
module Results {

  datatype Option<+T> = None | Some(value: T)

  /** A C++ call either returns a value or throws; the exception's text is not modelled. */
  datatype Result<+T> = Ok(value: T) | Err {

    predicate IsFailure() {
      Err?
    }

    function PropagateFailure<U>(): Result<U>
      requires Err?
    {
      Err
    }

    function Extract(): T
      requires Ok?
    {
      value
    }
  }

  // ----- Lists read piece by piece -----

  /** What was read so far in front of the list still to be read; `R` is the input left over. */
  ghost function Prepended<T, R>(done: seq<T>, rest: Result<(seq<T>, R)>): Result<(seq<T>, R)> {
    if rest.Ok? then Ok((done + rest.value.0, rest.value.1)) else Err
  }

  lemma Prepending<T, R>(none: seq<T>, rest: Result<(seq<T>, R)>)
    requires none == []
    ensures Prepended(none, rest) == rest
  {
    if rest.Ok? {
      assert none + rest.value.0 == rest.value.0;
    }
  }

  lemma PrependStep<T, R>(done: seq<T>, x: T, rest: Result<(seq<T>, R)>)
    ensures Prepended(done, Prepended([x], rest)) == Prepended(done + [x], rest)
    ensures rest.Ok? && rest.value.0 == [] ==>
        Prepended(done, Ok(([x], rest.value.1))) == Ok((done + [x], rest.value.1))
  {
    if rest.Ok? {
      assert done + ([x] + rest.value.0) == (done + [x]) + rest.value.0;
    }
  }

  lemma PrependEnd<T, R>(done: seq<T>, rest: R)
    ensures Prepended(done, Ok(([], rest))) == Ok((done, rest))
  {
    assert done + [] == done;
  }
}
