/** Option and Result, the two error-carrying shapes the services use. */
module Wrappers {

  /** `undefined`/`null` versus a present value. */
  datatype Option<+T> = None | Some(value: T)

  /** Either a value or the failure a service throws. */
  datatype Result<+T, +E> = Success(value: T) | Failure(error: E)
}
