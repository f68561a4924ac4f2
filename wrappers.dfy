/** Option and Result values used for absent fields, nullable results and thrown errors. */
module Wrappers {

  /** An optional value: `undefined`/`null` is None. */
  datatype Option<+T> = None | Some(value: T) {
    function GetOr(default: T): T {
      match this
      case Some(v) => v
      case None => default
    }
  }

  /** The result of an operation that may throw: Failure carries the error message. */
  datatype Result<+R> = Success(value: R) | Failure(error: string)
}
