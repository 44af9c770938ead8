/** Option and Result values standing in for Python's `None` and for raised exceptions. */
module Wrappers {

  datatype Option<+T> = None | Some(value: T)

  datatype Result<+T, +E> = Ok(value: T) | Err(error: E)

  /** The Python exception classes whose handling decides what the monitor does next. */
  datatype Exception =
    | ValueError         // also `toml.TomlDecodeError`, a subclass
    | FileNotFoundError
    | KeyError
    | IndexError
    | AttributeError     // e.g. `.isdigit()` on a value that is not a string
}
