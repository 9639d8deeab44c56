/** The outcome of an operation that can stop with an error. */
module Outcomes {
  datatype Result<T, E> = Success(value: T) | Failure(error: E)
}
