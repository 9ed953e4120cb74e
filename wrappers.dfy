/** Outcome types shared by both decorators of web.py. */
module Wrappers {

  /** A Python exception, identified by its class name. */
  datatype Exception = Exception(name: string)

  /** The exception Python raises when `+` is applied to a value that is not a number. */
  const TypeError: Exception := Exception("TypeError")

  /** A lookup that may find nothing (Python's `dict.get` returning None). */
  datatype Option<T> = None | Some(value: T)

  /** A Python call: it either returns a value or raises an exception. */
  datatype Result<T> = Ok(value: T) | Raised(exception: Exception)
}
