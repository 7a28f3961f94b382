/** Option and Result, the failure-carrying values of the services. */
module Wrappers {

  datatype Option<+T> = None | Some(value: T)

  /** A service call either yields a value or throws / returns an error message. */
  datatype Result<+T> = Success(value: T) | Failure(error: string)
}
