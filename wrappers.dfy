/** Option and Result: the `None` return of the resolver and the scan error of a missing root. */
module Wrappers {

  datatype Option<+T> = None | Some(value: T)

  datatype Result<+R, +E> = Success(value: R) | Failure(error: E)
}
