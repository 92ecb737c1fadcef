/** Option and the result of a call into a foreign library that may raise. */
module Wrappers {

  datatype Option<+T> = None | Some(value: T)

  /** The result of a library call: a value, or the text of the exception it raised. */
  datatype CallResult<+T> = Success(value: T) | Failure(message: string)
}
