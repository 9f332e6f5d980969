/** Option and Result, the shapes used for Python's `None` and for
    raising `ServerError`. */
module Wrappers {

  datatype Option<+T> = None | Some(value: T)

  /** `Err` carries the message of the `ServerError` the source raises. */
  datatype Result<+T> = Ok(value: T) | Err(message: string)
}
