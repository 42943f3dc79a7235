/** Option and Result, the two wrappers the model uses for undefined values and errors. */
module Wrappers {

  /** An optional value. In the closed-loop table `None` stands for a cell the
      source fills with an infinite or not-a-number float. */
  datatype Option<+T> = None | Some(value: T)

  /** The outcome of an operation that can raise. */
  datatype Result<+T, +E> = Success(value: T) | Failure(error: E)
}
