/** Failure-compatible result types used by the validators and lookups. */
module Wrappers {

  /** A value that may be missing, as a Python `dict.get` returns. */
  datatype Option<+T> = None | Some(value: T)

  /** Either a validated value or the error that rejected it. */
  datatype Result<+R, +E> = Success(value: R) | Failure(error: E)
}
