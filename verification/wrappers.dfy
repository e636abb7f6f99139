/** The failure-carrying values the engine returns: an optional value, and a
    result that is either a new value or the reason it was refused. */
module Wrappers {

  datatype Option<+T> = None | Some(value: T)

  datatype Result<+R, +E> = Success(value: R) | Failure(error: E)
}
