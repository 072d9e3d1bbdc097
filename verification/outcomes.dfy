/** Failure-carrying results. The modelled code signals failure with Python
    exceptions; here each exception becomes an `Err` carrying the exception
    class and a short reason, so that error paths are values a contract can
    talk about. */
module Outcomes {

  datatype Option<+T> = None | Some(value: T)

  /** The exception classes raised by the modelled code. */
  datatype Error =
    | ValueError(reason: string)
    | RuntimeError(reason: string)
    | KeyError(key: string)
    | IndexError
    | AttributeError(attribute: string)
    | FileNotFoundError(path: string)
    | FileExistsError(path: string)
    | NotADirectoryError(path: string)
    | TypeError(reason: string)

  datatype Result<+T> = Ok(value: T) | Err(error: Error) {
    predicate IsFailure() { Err? }

    function PropagateFailure<U>(): Result<U>
      requires Err?
    {
      Err(error)
    }

    function Extract(): T
      requires Ok?
    {
      value
    }
  }
}
