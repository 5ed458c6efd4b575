/** Plain result and option types, used for the exceptions the source raises. */
module Wrappers {

  /** Either a value or the error the source would raise instead of returning. */
  datatype Result<+T, +E> = Success(value: T) | Failure(error: E)

  /** A value, or nothing (used where the input stream runs out). */
  datatype Option<+T> = None | Some(value: T)
}
