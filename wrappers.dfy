/** Option, Result and Outcome: the "given / not given" marker and the
    success-or-raised-exception shape of every operation in the model. */
module Wrappers {

  /** An optional value; `None` plays the part of the source's `_sentinel` ("not given"). */
  datatype Option<+T> = None | Some(value: T)

  /** A computed value or the exception the source would raise. */
  datatype Result<+T, +E> = Ok(value: T) | Err(error: E)

  /** Success without a value, or the exception raised. */
  datatype Outcome<+E> = Pass | Fail(error: E)
}
