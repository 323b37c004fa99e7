/** Option and Result, the failure-carrying values the rest of the model returns
    where the Python code returns None or raises an exception. */
module Wrappers {

  datatype Option<+T> = None | Some(value: T)

  datatype Result<+R, +E> = Success(value: R) | Failure(error: E)
}
