/** Option and Result, the two failure-carrying shapes used throughout the model. */
module Wrappers {

  datatype Option<+T> = None | Some(value: T)

  /** The outcome of an endpoint: a value, or the `detail` message of the error it raises. */
  datatype Result<+T> = Ok(value: T) | Err(msg: string)
}
