/** Failure-compatible wrappers shared by the model: Python's `None`-or-value
    arguments and the two exceptions the layer raises. */
module Outcomes {

  /** An optional value: Python's `None` or a present value. */
  datatype Option<+T> = None | Some(value: T)

  /** The exceptions raised by the modelled code. */
  datatype Error =
    | ValueError    // an argument outside the accepted tokens
    | RuntimeError  // an operation refused in the current training state

  /** A value, or the exception raised instead of returning it. */
  datatype Result<+T> = Ok(value: T) | Err(error: Error)
}
