/** Failure-carrying values used across the model: `Option` for Python's
    `None`-or-value returns, `Result` for the `{"error": ...}` dictionaries. */
module Wrappers {

  datatype Option<+T> = None | Some(value: T)

  datatype Result<+T> = Ok(value: T) | Err(message: string)
}
