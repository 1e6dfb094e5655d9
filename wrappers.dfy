/** Failure-carrying result types shared by the containers, the graph and the search. */
module Wrappers {

  /** A value that may be absent (the source's `None`). */
  datatype Option<+T> = None | Some(value: T)

  /** A value or the error that the source raises instead of returning one. */
  datatype Result<+R, +E> = Success(value: R) | Failure(error: E)

  /** Success or the error raised, for operations that return nothing else. */
  datatype Outcome<+E> = Pass | Fail(error: E)
}
