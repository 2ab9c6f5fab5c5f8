/** Failure-carrying datatypes used by the model: `Option` for Rust's `Option`
    and `Result` for Rust's `Result<T, String>`. */
module Wrappers {

  datatype Option<+T> = None | Some(value: T)

  datatype Result<+T, +E> = Ok(value: T) | Err(error: E)
}
