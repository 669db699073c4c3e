/** Option and Result: the "row or nothing" answers of the store and the
    "value or tagged error" answers of the service. */
module Wrappers {

  datatype Option<+T> = None | Some(value: T)

  datatype Result<+T, +E> = Success(value: T) | Failure(error: E)
}
