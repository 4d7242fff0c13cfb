/** Option and Result, used throughout the model: `Option` stands for
    Python's `X | None`, `Result` for a value-or-exception outcome. */
module Wrappers {

  datatype Option<+T> = None | Some(value: T)

  datatype Result<+R, +E> = Success(value: R) | Failure(error: E)
}
