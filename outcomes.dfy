/** The two wrappers the checker's operations return: an optional value (Rust `Option`)
    and a value-or-error (Rust `Result`). */
module Outcomes {

  datatype Option<+T> = None | Some(value: T)

  datatype Result<+T, +E> = Success(value: T) | Failure(error: E)
}
