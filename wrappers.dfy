/** Option and Result: the absent-or-present and value-or-error results that
    every extraction step of the scraper returns. */
module Wrappers {

  datatype Option<+T> = None | Some(value: T)

  /** A value, or the error that stopped its computation. It works with `:-`,
      so a chain of steps stops at the first error, as a Python exception does. */
  datatype Result<+T, +E> = Ok(value: T) | Err(error: E) {

    predicate IsFailure() {
      Err?
    }

    function PropagateFailure<U>(): Result<U, E>
      requires Err?
    {
      Err(error)
    }

    function Extract(): T
      requires Ok?
    {
      value
    }
  }
}
