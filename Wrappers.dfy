/** Option and Result: the null reference and the raised exception of the Java code, as values. */
module Wrappers {

  /** A nullable reference: `None` is Java's null. */
  datatype Option<+T> = None | Some(value: T)

  /** The outcome of a session call: a value, or the IllegalArgumentException it raises. */
  datatype Result<+T> = Ok(value: T) | Err(message: string)
}
