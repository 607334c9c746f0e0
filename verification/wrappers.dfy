/** Failure-compatible wrappers used across the model: the source raises
    exceptions, the model returns one of these instead. */
module Wrappers {

  /** An optional value: Python's `Optional[T]`. */
  datatype Option<+T> = None | Some(value: T)

  /** A value or the error the source would raise instead of returning it. */
  datatype Result<+T, +E> = Success(value: T) | Failure(error: E)

  /** The result of a procedure that returns nothing but may raise. */
  datatype Outcome<+E> = Pass | Fail(error: E)
}
