/** Java's null references and exceptional exits, written as values. */
module Errors {

  /** A reference that may be null (None). */
  datatype Option<+T> = None | Some(value: T)

  /** The exceptions the modelled code raises. */
  datatype Exception =
    | NoSuchElement     // java.util.NoSuchElementException
    | IllegalArgument   // java.lang.IllegalArgumentException
    | NullPointer       // java.lang.NullPointerException
    | IndexOutOfBounds  // java.lang.ArrayIndexOutOfBoundsException

  /** A call that either returns a value or throws. */
  datatype Result<+T> = Ok(value: T) | Err(error: Exception)
}
