/** Java `null` and Java exceptions, as values. */
module Wrappers {

  /** A value that may be absent: `None` stands for a Java `null`. */
  datatype Option<+T> = None | Some(value: T) {
    function GetOr(default: T): T {
      match this
      case Some(v) => v
      case None => default
    }
  }

  /** The outcome of a Java call that may throw: `Failure` carries the exception. */
  datatype Result<+R, +E> = Success(value: R) | Failure(error: E)

  /** The unchecked Java exceptions the modelled code can let escape. */
  datatype JavaException = ArithmeticException | IndexOutOfBounds | NullPointer
}
