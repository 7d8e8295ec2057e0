/** Option and Result values for the source's "missing" values and raised errors. */
module Wrappers {

  /** A value that may be absent: Python's None, pandas' NaN, or a failed conversion. */
  datatype Option<+T> = None | Some(value: T)

  /** Either a computed value or the error the source would raise. */
  datatype Result<+T, +E> = Ok(value: T) | Err(error: E)
}
