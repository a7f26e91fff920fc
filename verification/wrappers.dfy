/** Failure-carrying datatypes used by every page model: an optional value
    (a Java `null` or an absent element) and a value-or-error result (a Java
    method that either returns or throws). */
module Wrappers {

  datatype Option<+T> = None | Some(value: T)

  datatype Result<+T, +E> = Success(value: T) | Failure(error: E)
}
