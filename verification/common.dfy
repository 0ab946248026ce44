/** Optional values and results with an error, the two shapes the attendance
    model uses in place of Java's `null` and thrown exceptions. */
module Common {

  /** A value that may be absent (Java `null`, TypeScript `undefined`). */
  datatype Option<+T> = None | Some(value: T) {

    /** The value when present, else the default. */
    function GetOr(default: T): T
    {
      match this
      case Some(v) => v
      case None => default
    }
  }

  /** The outcome of an operation that may fail with an error. */
  datatype Result<+R, +E> = Success(value: R) | Failure(error: E)
}
