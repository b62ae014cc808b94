/** Option and Result, used for nullable columns and for the exceptions a caller sees. */
module Options {

  datatype Option<+T> = None | Some(value: T)

  datatype Result<+T, +E> = Ok(value: T) | Err(error: E)
}
