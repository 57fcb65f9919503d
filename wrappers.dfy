/** Optional values and results with an error, used for SQL NULL / pandas NaN and for raised exceptions. */
module Wrappers {

  /** A value that may be missing: `None` stands for SQL NULL or pandas NaN. */
  datatype Option<+T> = None | Some(value: T)

  /** The outcome of an operation that may raise: `Err` carries what was raised. */
  datatype Result<+T, +E> = Ok(value: T) | Err(error: E)
}
