/** Failure-carrying results shared by the modules of this model.
    `Option` stands for Python's falsy return values (`None`, `False`),
    `Result` for a value or a raised exception. */
module Wrappers {

  datatype Option<+T> = None | Some(value: T)

  /** The exceptions the modelled code raises on purpose. */
  datatype Error = ValueError(msg: string) | TypeError(msg: string) | ZeroDivisionError | KeyError

  datatype Result<+T> = Success(value: T) | Failure(error: Error)
}
