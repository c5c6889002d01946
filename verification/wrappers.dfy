/** The optional values and call outcomes the store modules return. */
module Wrappers {

  /** An optional value: PHP's "null or a value". */
  datatype Option<+T> = None | Some(value: T)

  /** The outcome of a configuration call: the new state, or the error the call throws. */
  datatype Result<+T, +E> = Success(value: T) | Failure(error: E)

  /** A check that either passes or names the error it would throw. */
  datatype Outcome<+E> = Pass | Fail(error: E)
}
