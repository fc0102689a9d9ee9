/** Go's "value, ok" and "value, err" returns, as datatypes. */
module Wrappers {

  /** A value that may be absent (a nil pointer, or a `false` second result). */
  datatype Option<+T> = None | Some(value: T)

  /** A value or the message of the error returned beside it. */
  datatype Result<+T> = Ok(value: T) | Err(msg: string)
}
