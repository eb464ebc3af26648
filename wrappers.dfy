/** Optional values and fallible results, used wherever the engine's Python
    code returns `None` or raises. */
module Wrappers {

  /** `None` is Python's `None`; `Some(0)` is a present zero, never confused with it. */
  datatype Option<+T> = None | Some(value: T)

  /** The value of a computation that can fail with an error instead. */
  datatype Result<+R, +E> = Success(value: R) | Failure(error: E)
}
