/** Success-or-exception results, for the places where the solver raises. */
module Wrappers {
  datatype Result<T, E> = Success(value: T) | Failure(error: E)
}
