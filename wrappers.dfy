/** Option and Result, used where the source returns None or raises. */
module Wrappers {

  datatype Option<+T> = None | Some(value: T)

  /** The exceptions the modelled code raises. */
  datatype Error = ValueError(message: string) | IndexError(message: string) | KeyError(message: string)

  datatype Result<+T> = Ok(value: T) | Err(error: Error)
}
