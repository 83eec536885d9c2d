/** Optional values (the C# null reference) and results that can fail
    (the exceptions the builder lets escape). */
module Wrappers {

  /** `None` stands for a C# field or argument that is null. */
  datatype Option<+T> = None | Some(value: T) {

    /** The carried value, or `default` when there is none. */
    function GetOr(default: T): T {
      match this
      case Some(v) => v
      case None => default
    }
  }

  /** `Failure` stands for an exception thrown while building the statement. */
  datatype Result<+R, +E> = Success(value: R) | Failure(error: E)
}
