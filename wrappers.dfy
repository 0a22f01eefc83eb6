/** Option and Result values, used for the null returns and the exceptions of the modelled code. */
module Wrappers {

  /** A value that may be absent; `None` stands for a Java `null` or a Ruby `nil`. */
  datatype Option<+T> = None | Some(value: T)

  /** The outcome of an operation that may throw: `Err` carries the exception that was raised. */
  datatype Result<+T, +E> = Ok(value: T) | Err(error: E)
}
