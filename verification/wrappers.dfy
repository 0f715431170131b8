/**
  Failure-carrying datatypes shared by the model: Rust's `Option` and `Result`, and
  `Outcome`, which records whether a Rust function returned a value or panicked.
 */
module Wrappers {

  /** Rust's `Option<T>`. */
  datatype Option<+T> = None | Some(value: T)

  /** Rust's `Result<T, E>`. */
  datatype Result<+T, +E> = Ok(value: T) | Err(error: E)

  /** How a call ends: it returns a value, or it panics (an out-of-range slice). */
  datatype Outcome<+T> = Returns(value: T) | Panics
}
