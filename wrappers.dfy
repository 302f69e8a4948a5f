/** Failure-compatible wrappers shared by the other modules: an optional value
    (Python's `None` or an object) and a result that is either a value or the
    exception an operation raises. */
module Wrappers {

  datatype Option<+T> = None | Some(value: T)

  datatype Result<+T, +E> = Ok(value: T) | Err(error: E)
}
