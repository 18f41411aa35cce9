/** Values standing in for Java's `null` and for the exceptions the modelled code can throw. */
module Wrappers {

  /** A possibly-absent value: `None` plays the part of a Java `null` reference. */
  datatype Option<+T> = None | Some(value: T)

  /** The unchecked Java exceptions the modelled code can raise. */
  datatype Exception =
    | IndexOutOfBounds   // List.get past the end
    | IllegalArgument    // Arrays.copyOfRange with from > to
    | NullPointer        // dereferencing or iterating a null reference

  /** Either the value a Java call returns, or the exception it throws. */
  datatype Result<+T> = Ok(value: T) | Err(error: Exception)
}
