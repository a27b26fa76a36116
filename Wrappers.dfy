/**
 * The absent-or-present values of the TypeScript source (`undefined`, `null`,
 * `?.`, `??`), and the outcome of an operation that may throw.
 */
module Wrappers {

  datatype Option<+T> = None | Some(value: T) {

    /** The `??` operator: the value if present, otherwise the default. */
    function GetOr(default: T): T {
      match this
      case Some(v) => v
      case None => default
    }
  }

  /** A value, or the error an operation throws instead of returning. */
  datatype Result<+T, +E> = Ok(value: T) | Err(error: E)
}
