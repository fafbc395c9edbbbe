/** Optional values and error results, used where the Java code returns null or throws. */
module Wrappers {

  /** A value that may be absent; `None` stands for a Java `null` result. */
  datatype Option<+T> = None | Some(value: T)

  /** A value, or the error the Java code would have thrown instead. */
  datatype Result<+T, +E> = Success(value: T) | Failure(error: E)

  /** Success without a value, or the error that would have been thrown. */
  datatype Outcome<+E> = Pass | Fail(error: E)
}
