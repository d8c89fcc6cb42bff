/**
 * Failure-carrying values shared by the model. Every exception the modelled
 * Python code raises becomes an `Error`, and an operation that may raise
 * returns a `Result` (or an `Outcome` when it has no value to return).
 */
module Wrappers {

  datatype Option<+T> = None | Some(value: T)

  /** The Python exception classes raised by the modelled code. */
  datatype Error =
    | ValueError(reason: string)
    | KeyError(key: string)
    | IndexError
    | TypeError
    | AttributeError(name: string)
    | UnboundLocalError(name: string)
    | UnitConversionError

  datatype Result<+T> = Success(value: T) | Failure(error: Error)

  datatype Outcome = Pass | Fail(error: Error)
}
