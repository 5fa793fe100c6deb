/** Option and Result, used throughout the model. */
module Wrappers {

  /** An optional value; `None` is the distinguished "nothing" answer. */
  datatype Option<+T> = None | Some(value: T)

  /** Either a value or an error describing why there is none. */
  datatype Result<+R, +E> = Success(value: R) | Failure(error: E)
}
