/** Option and Result, the two wrapper types the Rust code returns from its parsers and queries. */
module Wrappers {

  datatype Option<+T> = None | Some(value: T)

  /** `Result<T, &'static str>`: every error in the modelled code is a fixed message. */
  datatype Result<+T> = Ok(value: T) | Err(error: string)
}
