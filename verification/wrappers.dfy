/** Option and Result values standing in for Python's `None` and raised
    exceptions. */
module Wrappers {

  /** A value that may be absent (`Optional[...]` / `None`). */
  datatype Option<+T> = None | Some(value: T)

  /** The outcome of an operation that either returns a value or raises. */
  datatype Result<+T, +E> = Ok(value: T) | Err(error: E) {

    /** True if is Err; with the two members below this lets `:-`
        propagate an error the way an exception propagates. */
    predicate IsFailure() {
      Err?
    }

    function PropagateFailure<U>(): Result<U, E>
      requires Err?
    {
      Err(error)
    }

    function Extract(): T
      requires Ok?
    {
      value
    }
  }
}
