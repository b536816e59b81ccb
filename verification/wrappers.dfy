/** Failure-compatible wrapper types shared by the binder modules. */
module Wrappers {

  /** An optional value: a parameter default, or a name that may be absent. */
  datatype Option<+T> = None | Some(value: T)

  /** The outcome of binding: a value, or the error the call would raise. */
  datatype Result<+R, +E> = Ok(value: R) | Err(error: E)
}
