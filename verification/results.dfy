/** Optional values and success/failure outcomes used across the model. */
module Results {

  /** A value that may be absent; stands for JavaScript's `null`. */
  datatype Option<+T> = None | Some(value: T)

  /** The outcome of an operation that can be refused with a reason. */
  datatype Result<+R, +E> = Success(value: R) | Failure(error: E)
}
