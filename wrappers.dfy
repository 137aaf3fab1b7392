/** Option and Result, used for libpq's "no value" answers and for the
    exception a bind throws. */
module Wrappers {

  datatype Option<+T> = None | Some(value: T)

  datatype Result<+R, +E> = Success(value: R) | Failure(error: E)
}
