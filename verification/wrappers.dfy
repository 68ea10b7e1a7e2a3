/** Failure-carrying datatypes used throughout the model: an optional value
    (a JavaScript `undefined` or a missing file) and a result that is either a
    value or the error that a thrown exception would carry. */
module Wrappers {

  datatype Option<+T> = None | Some(value: T)

  datatype Result<+T, +E> = Ok(value: T) | Err(error: E)
}
