/** Option and Result values shared by the modules of this model. */
module Wrappers {

  datatype Option<+T> = None | Some(value: T)

  /** The outcome of an operation that can fail, such as a thrown `Error` in the TypeScript code. */
  datatype Result<+T, +E> = Success(value: T) | Failure(error: E)
}
