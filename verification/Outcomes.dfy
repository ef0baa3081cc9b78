/** The option and result types shared by every module. */
module Outcomes {

  datatype Option<+T> = None | Some(value: T)

  /** A result stands for a call that returns a value or throws. */
  datatype Result<+T, +E> = Success(value: T) | Failure(error: E)
}
