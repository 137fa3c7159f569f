/** Optional values and results with an error case, used for Java's null and its exceptions. */
module Wrappers {

  /** An absent or present value; `None` stands for Java's `null`. */
  datatype Option<+T> = None | Some(value: T)

  /** A computation that either produced a value or threw. */
  datatype Result<+T, +E> = Ok(value: T) | Err(error: E)
}
