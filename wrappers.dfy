/** The failure-carrying datatypes used throughout the model. */
module Wrappers {

  /** A value that may be absent: PHP's `null` / `false` against a real value. */
  datatype Option<+T> = None | Some(value: T)

  /** The outcome of an operation that either yields a value or throws. */
  datatype Result<+R, +E> = Ok(value: R) | Err(error: E)
}
