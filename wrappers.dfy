/** Optional values (a nullable column or form field) and results of validation. */
module Wrappers {

  /** `null` is `None`; a present value is `Some`. */
  datatype Option<+T> = None | Some(value: T) {

    /** The JavaScript `??` operator: the value when present, `default` only when null. */
    function GetOr(default: T): T {
      match this
      case Some(v) => v
      case None => default
    }
  }

  /** The outcome of a schema parse: the parsed value, or the list of issues found. */
  datatype Result<+R, +E> = Success(value: R) | Failure(error: E)
}
