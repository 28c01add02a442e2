/** Option and Result, the two failure-carrying shapes the model needs. */
module Wrappers {

  datatype Option<+T> = None | Some(value: T)

  /** The Rust `Result<T, E>`: a value or the reason the request was aborted. */
  datatype Result<+T, +E> = Success(value: T) | Failure(error: E)
}
