/** Failure-compatible result types shared by the model. */
module Wrappers {

  /** A value that may be absent; `None` plays the role of Ruby's `nil`. */
  datatype Option<+T> = None | Some(value: T)

  /** The outcome of an operation that can be rejected with an error value,
      standing in for a Ruby `raise`. */
  datatype Result<+T, +E> = Success(value: T) | Failure(error: E)
}
