/** Failure-compatible wrappers shared by every module of the model. */
module Wrappers {

  /** An optional value: a missing JSON field, an absent file, a search that found nothing. */
  datatype Option<+T> = None | Some(value: T) {
    function GetOr(default: T): T {
      match this
      case Some(v) => v
      case None => default
    }
  }

  /** The outcome of an operation that the source can end by throwing. */
  datatype Result<+T, +E> = Ok(value: T) | Err(error: E)
}
