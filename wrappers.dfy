/** Option and Result: the absent JavaScript argument and the thrown Error made explicit. */
module Wrappers {

  datatype Option<+T> = None | Some(value: T)

  /** `Failure` carries the message of the `Error` the gateway throws. */
  datatype Result<+R> = Success(value: R) | Failure(error: string)
}
