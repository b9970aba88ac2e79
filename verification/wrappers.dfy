/** Failure-compatible wrappers used by the renderer: an optional value and a
    success-or-error result. */
module Wrappers {

  /** A value that may be absent, such as the optional `else` slot of an if node. */
  datatype Option<+T> = None | Some(value: T)

  /** The outcome of an operation that can fail with an error of type `E`. */
  datatype Result<+T, +E> = Success(value: T) | Failure(error: E) {
    predicate IsFailure() {
      Failure?
    }
  }
}
