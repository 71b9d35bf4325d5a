/** Option and Result: Java's nullable references and the value-or-thrown-
    exception outcome of a call. */
module Wrappers {

  datatype Option<+T> = None | Some(value: T)

  datatype Result<+R, +E> = Success(value: R) | Failure(error: E)
}
