/** Failure-carrying datatypes used by the executor model: an optional value
    (a Ruby block that may be absent, a timeout that may be nil) and the
    outcome of a call that may raise. */
module Wrappers {

  /** A value that may be absent. */
  datatype Option<+T> = None | Some(value: T)

  /** The outcome of a call: a returned value, or the exception it raised. */
  datatype Result<+R, +E> = Success(value: R) | Failure(error: E)
}
