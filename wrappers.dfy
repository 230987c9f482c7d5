/** Value-or-nothing and value-or-exception wrappers shared by every module. */
module Wrappers {

  /** Python's `None`-or-value, TypeScript's `T | null`. */
  datatype Option<+T> = None | Some(value: T)

  /** The outcome of a Python call that may raise: the value, or the exception class name. */
  datatype Result<+T> = Ok(value: T) | Err(error: string)
}
