/** Rust's `Option` and `Result`, as the wrapper library returns them. */
module RustStd {

  datatype Option<T> = None | Some(value: T)

  /** A result whose error is a static message, as in `Result<T, &'static str>`. */
  datatype Result<T> = Ok(value: T) | Err(error: string)
}
