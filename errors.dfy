/**
 * Outcomes of the mock's operations. Python signals failure by raising an
 * exception; the model returns the exception as a value instead.
 */
module Errors {
  datatype Option<+T> = None | Some(value: T)

  /** The exception classes the mock raises, each with its message. */
  datatype Error =
    | RuntimeError(message: string)
    | ValueError(message: string)
    | KeyError(message: string)
    | AttributeError(message: string)
    | IndexError(message: string)
    | NotImplementedError(message: string)
    | GenericException(message: string)

  datatype Result<+T> = Ok(value: T) | Err(error: Error)

  /** The outcome of an operation that returns nothing on success. */
  datatype Outcome = Pass | Fail(error: Error)

  /** Python's `repr` of a string holding no quote, backslash or control character. */
  function Repr(s: string): string
  {
    "'" + s + "'"
  }
}
