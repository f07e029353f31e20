/** Failure-carrying values used throughout the model: an optional value and
    a value-or-error result, standing in for JavaScript's `undefined` and for
    promises that resolve or reject. */
module Wrappers {

  datatype Option<+T> = None | Some(value: T)

  datatype Result<+R, +E> = Success(value: R) | Failure(error: E)
}
