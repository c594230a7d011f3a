/** Failure-compatible wrappers used for the error paths of the retrieval engine. */
module Results {

  /** A value that may be absent, e.g. a label that no ground-truth set contains. */
  datatype Option<+T> = None | Some(value: T)

  /** The outcome of an operation that throws in the original program. */
  datatype Result<+T> = Success(value: T) | Failure(error: string)
}
