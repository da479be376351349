/** Failure-carrying results, and the Python exceptions the ledger raises. */
module Wrappers {

  datatype Option<+T> = None | Some(value: T)

  /** The exceptions the modelled code raises, or lets the interpreter raise. */
  datatype Error =
    | ValueError(message: string)
    | AttributeError(message: string)
    | TypeError(message: string)
    | IndexError
    | RecursionError

  datatype Result<+T> = Ok(value: T) | Err(error: Error)

  /** The outcome of a Python function that returns None or raises. */
  datatype Outcome = Pass | Fail(error: Error)
}
