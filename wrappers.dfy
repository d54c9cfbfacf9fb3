/** The success-or-failure value that an asynchronous effect delivers back to the reducer. */
module Wrappers {

  datatype Result<+T, +E> = Success(value: T) | Failure(error: E)
}
