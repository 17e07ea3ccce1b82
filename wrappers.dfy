/** Option and Result, and the Python exceptions the modelled code can raise. */
module Wrappers {

  datatype Option<+T> = None | Some(value: T)

  /** The exceptions of the source that the model keeps as values. */
  datatype Error =
    | AssertionError(message: string)
    | KeyError(key: string)
    | IntKeyError(intKey: int)
    | AttributeError
    | IndexError
    | TypeError
    | RuntimeError(message: string)

  datatype Result<+T> = Ok(value: T) | Err(error: Error)
}
