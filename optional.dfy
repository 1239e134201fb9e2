/** Option and Result, the two failure-carrying wrappers the rest of the model uses. */
module Optional {

  /** A value that may be absent: Python's `X | None`. */
  datatype Option<T> = None | Some(value: T) {
    /** The value, or `default` when absent (Python's `d.get(key, default)`). */
    function GetOr(default: T): T {
      match this
      case Some(v) => v
      case None => default
    }
  }

  /** The outcome of an operation that may raise instead of returning. */
  datatype Result<T, E> = Success(value: T) | Failure(error: E)
}
