/** Option and result types shared by the codec and the bridge. */
module Wrappers {

  /** A value that may be absent (Go's `nil` slice, a missing index). */
  datatype Option<+T> = None | Some(value: T)

  /** A value or the error that prevented computing it (Go's `(T, error)` pair). */
  datatype Result<+T, +E> = Ok(value: T) | Err(error: E)
}
