/** Wrappers used across the model: an optional value
    (the source's `None` sentinel) and a value-or-error result (the source's
    raised exceptions). */
module Wrappers {

  /** A value that may be absent. */
  datatype Option<+T> = None | Some(value: T)

  /** Either a computed value or the error that stopped the computation. */
  datatype Result<+T, +E> = Success(value: T) | Failure(error: E)
}
