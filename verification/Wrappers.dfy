/** Values that may be missing. */
module Options {
  datatype Option<+T> = None | Some(value: T)
}

/** The result of an operation that may fail. */
module Wrappers {
  datatype Outcome<+T, +E> = Ok(value: T) | Err(error: E) {
    predicate IsFailure() { Err? }
    function PropagateFailure<U>(): Outcome<U, E> requires Err? { Err(error) }
    function Extract(): T requires Ok? { value }
  }
}
