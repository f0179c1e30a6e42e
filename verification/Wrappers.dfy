/** Option and Result: an absent value, and the value or the exception of a fallible call. */
module Wrappers {
  datatype Option<+T> = None | Some(value: T)

  datatype Result<+T> = Ok(value: T) | Err(error: string)
}
