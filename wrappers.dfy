/** Option and Result, the shapes of the Go code's `(value, err)` returns. */
module Wrappers {

  datatype Option<+T> = None | Some(value: T)

  /** The outcome of a remote call: a value, or the error text the call returned. */
  datatype Result<+T> = Ok(value: T) | Err(msg: string)
}
