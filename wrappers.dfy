/** Values standing in for Java's nullable results and thrown exceptions. */
module Wrappers {

  /** A value that may be missing (an empty list or a null in the Java code). */
  datatype Option<+T> = None | Some(value: T)

  /** The value an operation returns, or the exception it throws. */
  datatype Result<+R, +E> = Success(value: R) | Failure(error: E)

  /** Completion of an operation that returns nothing, or the exception it throws. */
  datatype Outcome<+E> = Done | Fail(error: E)

  /** The Java exceptions the modelled code can throw. */
  datatype Exception =
    | IllegalState      // IllegalStateException
    | IllegalArgument   // IllegalArgumentException
    | NullPointer       // NullPointerException
    | IndexOutOfBounds  // IndexOutOfBoundsException

  /** Java's Integer.MAX_VALUE and Integer.MIN_VALUE, used as sentinels by the strategies. */
  const IntMax: int := 0x7fff_ffff
  const IntMin: int := -0x8000_0000
}
