/** Option and Result, used for the absent alert and for the lookup failure
    that aborts a run. */
module Wrappers {

  datatype Option<+T> = None | Some(value: T)

  datatype Result<+R, +E> = Success(value: R) | Failure(error: E)
}
