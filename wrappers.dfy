/** Option and Result: the nullable references and the thrown exceptions of the source,
    written as values. */
module Wrappers {

  /** A C# nullable reference or `Nullable<T>`: `None` is `null`. */
  datatype Option<+T> = None | Some(value: T) {

    /** `GetValueOrDefault` / `?? d`. */
    function GetOr(default: T): T {
      match this
      case Some(v) => v
      case None => default
    }
  }

  /** A computation that returns a value or throws. */
  datatype Result<+T, +E> = Success(value: T) | Failure(error: E)
}
