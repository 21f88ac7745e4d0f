/** Failure-carrying datatypes shared by the model: `Option` stands for a nullable
    table cell (pandas NaN / NaT), `Result` for an operation that can raise. */
module Wrappers {

  /** A nullable value: `None` is a missing cell. */
  datatype Option<+T> = None | Some(value: T)

  /** The outcome of an operation that either succeeds or raises an error. */
  datatype Result<+R, +E> = Success(value: R) | Failure(error: E)
}
