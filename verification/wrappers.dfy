/** Small shared vocabulary: optional values (the JavaScript `undefined`
    fields), success-or-error results (the per-coin try/catch of the feed
    builder) and the minimum of two integers (the caps on posts and on top
    tweets). */
module Wrappers {

  /** A value that may be absent (`undefined` in JavaScript). */
  datatype Option<+T> = None | Some(value: T) {

    /** The value when present, otherwise `default` (the `x || default` idiom). */
    function GetOr(default: T): T {
      match this
      case Some(v) => v
      case None => default
    }
  }

  /** Either a computed value or the error that stopped its computation. */
  datatype Result<+R, +E> = Success(value: R) | Failure(error: E)

  /** The smaller of `a` and `b`. */
  function Min(a: int, b: int): int {
    if a <= b then a else b
  }
}
