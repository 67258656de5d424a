/** Failure-carrying values shared by every module: Python's `None`
    results become `Option`, raised exceptions become `Result.Raise`. */
module Wrappers {

  datatype Option<+T> = None | Some(value: T)

  /** The exception classes the modelled code raises or lets escape. */
  datatype PyError =
    | ValueError(message: string)
    | OverflowError(message: string)
    | TypeError
    | AttributeError
    | KeyError
    | StopIteration
    | LabelTooLong
    | NameTooLong
    | FormError
    | SyntaxError

  /** Either the value a Python call returns or the exception it raises. */
  datatype Result<+T> = Ok(value: T) | Raise(error: PyError)
}
