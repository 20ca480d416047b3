/** Option and Result datatypes shared by every module of the model. */
module Wrappers {

  /** A value that may be absent. */
  datatype Option<+T> = None | Some(value: T) {
    /** The value, or `default` when there is none (pandas `fillna(default)`). */
    function GetOr(default: T): T {
      match this
      case Some(v) => v
      case None => default
    }
  }

  /** The outcome of an operation that can raise: every error the modelled code
      raises is a `KeyError` naming the missing column (or carrying its message). */
  datatype Result<+T> = Success(value: T) | KeyError(key: string)
}
