/** Failure-carrying datatypes shared by the whole model, and the Python
    exceptions that the modelled code can raise. */
module Wrappers {

  datatype Option<+T> = None | Some(value: T)

  /** The value a Python function returns, or the exception it raises. */
  datatype Result<+T, +E> = Success(value: T) | Failure(error: E) {

    predicate IsFailure() {
      Failure?
    }

    function PropagateFailure<U>(): Result<U, E>
      requires Failure?
    {
      Failure(error)
    }

    function Extract(): T
      requires Success?
    {
      value
    }
  }

  /** Items found so far in front of the outcome of a loop's remaining
      steps: an error stays an error. */
  function Prepend<T, E>(xs: seq<T>, rest: Result<seq<T>, E>): Result<seq<T>, E> {
    if rest.Failure? then rest else Success(xs + rest.value)
  }

  lemma PrependEmpty<T, E>(rest: Result<seq<T>, E>)
    ensures Prepend([], rest) == rest
  {
    if rest.Success? {
      assert [] + rest.value == rest.value;
    }
  }

  lemma PrependTwice<T, E>(a: seq<T>, b: seq<T>, rest: Result<seq<T>, E>)
    ensures Prepend(a, Prepend(b, rest)) == Prepend(a + b, rest)
  {
    if rest.Success? {
      assert a + (b + rest.value) == (a + b) + rest.value;
    }
  }

  /** A Python function that returns nothing: it either completes or raises. */
  datatype Outcome<+E> = Pass | Fail(error: E)

  /** The exceptions raised on the paths the model follows. */
  datatype Exception =
    | IndexError
    | KeyError(key: string)
    | ValueError(text: string)
    | AttributeError(name: string)
    | TypeError(name: string)
    | ZeroDivisionError
    | UnboundLocalError(variable: string)
    | YAMLError
}
