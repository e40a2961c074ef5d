/** Failure-carrying values shared by the Rust and the Go halves of the model. */
module Wrappers {

  datatype Option<+T> = None | Some(value: T)

  /** Rust's `Result<T, String>`: every error of the library is a message string. */
  datatype Result<+T> = Ok(value: T) | Err(error: string)
}
