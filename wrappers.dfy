/** Option and Result datatypes shared by the modules of this model. */
module Wrappers {

  /** A value that may be absent (Rust's `Option`, JavaScript's `null`). */
  datatype Option<+T> = None | Some(value: T) {
    /** `unwrap_or`: the value, or `default` when absent. */
    function GetOr(default: T): T {
      match this
      case Some(v) => v
      case None => default
    }
  }

  /** The outcome of an operation that can fail with an error of type `E`. */
  datatype Result<+R, +E> = Success(value: R) | Failure(error: E)
}
