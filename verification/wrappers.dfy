/** Option and Result: a missing table cell, and an operation that can fail. */
module Wrappers {

  /** A nullable cell: `None` is a missing value (NaN in the table). */
  datatype Option<+T> = None | Some(value: T)

  /** The outcome of an operation that rejects some of its arguments. */
  datatype Result<+R, +E> = Success(value: R) | Failure(error: E)
}
