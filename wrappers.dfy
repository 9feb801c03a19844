/** Failure-carrying results, and the two Python exceptions the pipeline can raise. */
module Wrappers {

  datatype Option<+T> = None | Some(value: T)

  datatype Result<+R, +E> = Success(value: R) | Failure(error: E)

  /** The uncaught exceptions of the join pipeline: an index past the end of a
      list (`IndexError`) and a missing dictionary key (`KeyError`, with the key). */
  datatype Fault = IndexError | KeyError(key: string)
}
