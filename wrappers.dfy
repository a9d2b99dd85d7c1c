/** Option and Result types shared by the model. `Err` carries the text that
    the Python code would obtain from a raised exception (`str(e)`). */
module Wrappers {

  datatype Option<+T> = None | Some(value: T)

  datatype Result<+T> = Ok(value: T) | Err(error: string)

  /** Python's `not x` on a `str`, `bytes` or `None`: both `None` and the empty
      value are falsy, and they are modelled alike as the empty sequence. */
  predicate Truthy<T>(s: seq<T>) {
    |s| > 0
  }
}
