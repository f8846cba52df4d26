/** Optional values and results carrying an error message. */
module Wrappers {

  /** A value that may be absent, as a missing key of a JSON request body is. */
  datatype Option<+T> = None | Some(value: T)

  /** Either the accepted value or the message of the error raised instead. */
  datatype Result<+T> = Ok(value: T) | Err(message: string)
}
