/** Option and result values shared by every module of the model. */
module Wrappers {

  /** A value that may be absent: Python's `None`, JavaScript's `null`. */
  datatype Option<+T> = None | Some(value: T) {
    function GetOr(default: T): T {
      match this
      case Some(v) => v
      case None => default
    }
  }

  /** The outcome of an operation that either yields a value or fails with an error. */
  datatype Result<+T, +E> = Ok(value: T) | Err(error: E)

  /** The outcome of an operation that yields nothing on success. */
  datatype Outcome<+E> = Pass | Fail(error: E)

  /** Python truthiness of an optional string: `None` and `""` are falsy. */
  predicate TruthyStr(s: Option<string>) {
    s.Some? && s.value != ""
  }

  /** Python truthiness of an optional integer: `None` and `0` are falsy. */
  predicate TruthyInt(n: Option<int>) {
    n.Some? && n.value != 0
  }
}
