/** Optional values and results with an error, used across the model. */
module Wrappers {

  /** `None` is Python's `None`; `Some(v)` a present value. */
  datatype Option<+T> = None | Some(value: T)

  /** The outcome of a computation that can raise: `Err` carries the raised error. */
  datatype Result<+T, +E> = Ok(value: T) | Err(error: E)
}
