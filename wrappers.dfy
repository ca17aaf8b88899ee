/** Option and Result, the two ways an operation of the model reports a miss or a failure. */
module Wrappers {

  datatype Option<T> = None | Some(value: T)

  /** A computation that either produces a value or fails with a message
      (a thrown JavaScript `Error` and its `message`). */
  datatype Result<T> = Success(value: T) | Failure(error: string)
}
