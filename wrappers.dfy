/** Failure-compatible result types used by the query layer. */
module Wrappers {

  /** A value that may be absent: a `fetchone()` that found no row, a SQL NULL. */
  datatype Option<+T> = None | Some(value: T)

  /** A computed value, or the error the source raises instead. */
  datatype Result<+R, +E> = Success(value: R) | Failure(error: E)

  /** The outcome of an operation that returns nothing but may raise. */
  datatype Outcome<+E> = Pass | Fail(error: E)
}
