/** Rust's `Option<T>` and `Result<T, String>`: every error in the modelled
    crate is a `String`, so the error side is fixed to `string`. */
module Wrappers {

  datatype Option<+T> = None | Some(value: T)

  datatype Result<+T> = Ok(value: T) | Err(error: string)
}
