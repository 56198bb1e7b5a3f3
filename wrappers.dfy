/** Plain result wrappers shared by the model: an optional value
    (Python's `None` or a value) and the outcome of an operation that may raise. */
module Wrappers {

  /** A value that may be absent, as a Python attribute holding `None`. */
  datatype Maybe<+T> = Nothing | Just(value: T)

  /** The outcome of an operation that either returns a value or raises an error. */
  datatype Result<+R, +E> = Success(value: R) | Failure(error: E)
}
