/**
 * Value types shared by every layer of the product service: the stand-ins for
 * Java's null (Option), for thrown exceptions (Result, Outcome, Error) and for
 * java.util.UUID.
 */
module Common {

  /** A Java reference that may be null: None is null. */
  datatype Option<+T> = None | Some(value: T)

  /** The value of a call that returns normally, or the exception it throws. */
  datatype Result<+T, +E> = Success(value: T) | Failure(error: E)

  /** The outcome of a void call: it returns, or it throws. */
  datatype Outcome<+E> = Pass | Fail(error: E)

  /** A 128-bit identifier, as java.util.UUID. */
  newtype Uuid = x: int | 0 <= x < 0x1_0000_0000_0000_0000_0000_0000_0000_0000

  /** The exceptions the core throws: IllegalArgumentException with its message,
      and ResourceNotFoundException built from a resource name and an id. */
  datatype Error =
    | IllegalArgument(message: string)
    | ResourceNotFound(resourceName: string, id: Uuid)
}
