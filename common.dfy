/** Failure-carrying wrappers shared by every module of the kernel model. */
module Common {

  datatype Option<T> = None | Some(value: T)

  /** The Python exceptions the modelled code raises or lets through. */
  datatype Error =
    | DataError(message: string)   // robot.errors.DataError
    | TypeError(message: string)   // arithmetic on None
    | KeyError(key: string)        // a missing dictionary key

  datatype Result<T> = Ok(value: T) | Err(error: Error)

  /** The exception's class name, as `e.__class__.__name__` reports it. */
  function ErrorName(e: Error): string
  {
    match e
    case DataError(_) => "DataError"
    case TypeError(_) => "TypeError"
    case KeyError(_) => "KeyError"
  }

  /** The exception's text, as `str(e)` reports it. */
  function ErrorText(e: Error): string
  {
    match e
    case DataError(m) => m
    case TypeError(m) => m
    case KeyError(k) => "'" + k + "'"
  }

  /** A byte of a file or of a decoded payload. */
  newtype byte = x: int | 0 <= x < 256
}
