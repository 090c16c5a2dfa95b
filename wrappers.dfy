/** Failure-compatible wrappers and the Java exceptions the library raises or catches. */
module Wrappers {

  /** A value or its absence; stands for a Java reference that may be null. */
  datatype Option<+T> = None | Some(value: T)

  /** The outcome of a Java call that returns a value or throws. */
  datatype Result<+T, +E> = Ok(value: T) | Err(error: E)

  /** The outcome of a Java call that returns nothing or throws. */
  datatype Outcome<+E> = Pass | Fail(error: E)

  /** The exceptions that cross the boundary of the modelled code. */
  datatype JavaException =
    | NullPointerException
      /** java.util.MissingResourceException(message, className, key) as far as the core inspects it. */
    | MissingResourceException(className: string, key: string)
    | IllegalStateException
}
