/** Failure-carrying results used where the exporter raises a Python exception. */
module Wrappers {

  datatype Option<T> = None | Some(value: T)

  /** The only exception the modelled core can raise: an `IndexError`. */
  datatype Error = IndexError

  datatype Result<T> = Success(value: T) | Failure(error: Error)
}
