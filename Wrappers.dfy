/** Option and Result values standing for Java's null/Optional results and thrown exceptions. */
module Wrappers {

  /** `None` stands for Java's `null` argument or an empty `Optional`. */
  datatype Option<+T> = None | Some(value: T)

  /** The exceptions the core throws. */
  datatype Exception =
    | IllegalArgument(message: string)
    | IllegalState(message: string)
    | IndexOutOfBounds(index: int, length: int)
    | Runtime(message: string, cause: Exception)

  /** A call that either returns a value or throws. */
  datatype Result<+T> = Success(value: T) | Failure(error: Exception)
}
