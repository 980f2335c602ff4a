/** Values that may be absent (JavaScript's null/undefined) and results that may fail. */
module Maybe {

  /** An optional value: None stands for null or undefined. */
  datatype Option<T> = None | Some(value: T) {

    /** The value, or `default` when absent (JavaScript's `x || default` on non-empty values). */
    function GetOr(default: T): T {
      match this
      case Some(v) => v
      case None => default
    }
  }

  /** The outcome of an operation that either yields a value or stops with an error. */
  datatype Result<T, E> = Ok(value: T) | Err(error: E)
}
