/** Small failure-compatible datatypes shared by every module. */
module Wrappers {

  /** `None` stands for JavaScript's `undefined` (or a missing value). */
  datatype Option<+T> = None | Some(value: T) {

    /** The value, or `default` when there is none. */
    function GetOr(default: T): T
    {
      match this
      case Some(v) => v
      case None => default
    }
  }

  /** The outcome of a browser or network call that may throw. */
  datatype Outcome<+T> = Ok(value: T) | Throws
}
