/** Option and Result values that stand for Python's `None` returns and raised exceptions. */
module Wrappers {

  /** `None` is Python's `None` or an absent dictionary key; `Some(v)` a present value. */
  datatype Option<+T> = None | Some(value: T)

  /** The outcome of a call that either returns a value or raises (an HTTP 500 at an endpoint). */
  datatype Result<+T> = Ok(value: T) | Raised
}
