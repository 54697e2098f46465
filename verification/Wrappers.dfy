/** The two result types used throughout: a value that may be absent, and the
    outcome of a call that either returns or throws. */
module Wrappers {

  datatype Option<+T> = None | Some(value: T)

  datatype Result<+T, +E> = Ok(value: T) | Err(error: E)
}
