/** Option and Result wrappers and the exception kinds the combination engine raises. */
module Wrappers {

  /** A value that may be missing: the model of a nullable result. */
  datatype Option<+T> = None | Some(value: T) {

    /** The wrapped value, or `default` when there is none. */
    function GetOr(default: T): T {
      match this
      case Some(v) => v
      case None => default
    }
  }

  /** A value or the exception that replaced it. */
  datatype Result<+R, +E> = Success(value: R) | Failure(error: E) {

    /** Forgets the exception: a failure becomes `None`. */
    function ToOption(): Option<R> {
      match this
      case Success(v) => Some(v)
      case Failure(_) => None
    }
  }

  /** The .NET exceptions the engine can raise, one constructor each. */
  datatype Exception =
    | ArgumentException            // no sources, or an enum factory over a non-enum type
    | NullReferenceException       // strict read of a parameter under the wrong type
    | ArgumentOutOfRangeException  // tuple index outside [0, Count)
}
