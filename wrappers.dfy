/** Result types used for the source's exceptions and
    java.util.Optional results. */
module Wrappers {

  /** java.util.Optional: either empty or holding a value. */
  datatype Option<+T> = None | Some(value: T)

  /** A value, or the exception a Java method would have thrown. */
  datatype Result<+T, +E> = Success(value: T) | Failure(error: E)

  /** The outcome of a void Java method: it returned, or it threw. */
  datatype Outcome<+E> = Pass | Fail(error: E)
}
