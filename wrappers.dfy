/** Option and Result, the two failure-carrying shapes the model needs.
    `Option<string>` stands for TypeScript's `string | null` (and `string | undefined`). */
module Wrappers {

  datatype Option<+T> = None | Some(value: T) {
    function GetOr(default: T): T {
      match this
      case Some(v) => v
      case None => default
    }
  }

  datatype Result<+R, +E> = Success(value: R) | Failure(error: E)

  /** JavaScript truthiness of a `string | null` value: null and "" are falsy. */
  predicate Falsy(s: Option<string>) {
    s.None? || s.value == ""
  }
}
