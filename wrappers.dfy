/** Option and Result values for the operations whose Python original returns
    None, an empty dict or raises. */
module Wrappers {

  datatype Option<+T> = None | Some(value: T)

  /** Failure carries the name of the Python exception that the original raises. */
  datatype Result<+T> = Success(value: T) | Failure(error: string)
}
