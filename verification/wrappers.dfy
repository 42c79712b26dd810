/** Failure-carrying values used in place of Java's null and exceptions, and Java's `int`. */
module Wrappers {

  /** A value that may be absent (a Java reference that may be null). */
  datatype Option<T> = None | Some(value: T)

  /** Either a value or the error a Java method would have thrown. */
  datatype Result<T, E> = Success(value: T) | Failure(error: E)

  /** Java's `int`. */
  type Int32 = x: int | -0x8000_0000 <= x <= 0x7fff_ffff
}
