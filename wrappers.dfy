/** Option and Result types shared by the modules of this model.
    A `Failure` carries the Python exception the source raises. */
module Wrappers {

  datatype Option<+T> = None | Some(value: T)

  /** The Python exceptions that the modelled code raises. */
  datatype Error =
    | TypeError(msg: string)
    | RuntimeError(msg: string)
    | AttributeError(msg: string)
    | AssertionError(msg: string)
    | KeyError
    | IndexError
    | ValueError
    | StopIteration
    | OSError(winerror: int)

  datatype Result<+T> = Success(value: T) | Failure(error: Error)
}
