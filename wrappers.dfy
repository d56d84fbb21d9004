/** The optional value and the success-or-exception outcome shared by the modules of the lottery model. */
module Wrappers {

  datatype Option<+T> = None | Some(value: T)

  /** The outcome of a call that can raise: `Failure` carries the exception text. */
  datatype Result<+T> = Success(value: T) | Failure(error: string)
}
