/** Optional values and success/failure results, standing in for Java's
    `Optional`, nullable request fields and thrown exceptions. */
module Results {

  datatype Option<+T> = None | Some(value: T) {

    /** The wrapped value, or `default` when absent (a null field that means "keep"). */
    function GetOr(default: T): T {
      match this
      case Some(v) => v
      case None => default
    }
  }

  datatype Result<+R, +E> = Success(value: R) | Failure(error: E)
}
