/** Failure-carrying results shared by the three models. */
module Wrappers {

  /** A value that may be absent; `None` stands for a Python call that raised. */
  datatype Option<+T> = None | Some(value: T)

  /** A value or the error a Python call would have raised instead. */
  datatype Result<+T, +E> = Ok(value: T) | Err(error: E)
}
