/** Optional values: `None` stands for JavaScript's `null`/`undefined` (and, for numbers, NaN). */
module Wrappers {

  datatype Option<+T> = None | Some(value: T)

  /** The outcome of an operation that throws: `Err` carries what was thrown. */
  datatype Result<+T, +E> = Ok(value: T) | Err(error: E)
}
