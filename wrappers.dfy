// Option and Result values shared by every module of the model.
module Wrappers {

  datatype Option<T> = None | Some(value: T)

  /** An operation that either produces a value or fails with an error. */
  datatype Result<T, E> = Ok(value: T) | Err(error: E)

  /** An operation that returns only an error, like a Go function returning `error`. */
  datatype Outcome<E> = Pass | Fail(error: E)
}
