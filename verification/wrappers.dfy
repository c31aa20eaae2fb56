/** Failure-carrying datatypes used throughout the model: a JavaScript value
    that may be `undefined`/`null` becomes an `Option`, and a handler that
    either produces a value or throws becomes a `Result`. */
module Wrappers {

  datatype Option<+T> = None | Some(value: T)

  datatype Result<+T, +E> = Success(value: T) | Failure(error: E)
}
