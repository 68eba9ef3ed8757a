/** Failure-compatible results, used wherever the program returns `null`,
    `undefined` or `None`, or raises. */
module Wrappers {

  datatype Option<+T> = None | Some(value: T)

  /** `x ?? default`. */
  function Or<T>(x: Option<T>, default: T): T { if x.Some? then x.value else default }

  datatype Result<+T, +E> = Ok(value: T) | Err(error: E)
}
