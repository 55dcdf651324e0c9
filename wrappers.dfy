/** Failure-compatible wrappers used by the model: Java's nullable references become Option,
    and operations that can throw become Result/Outcome. */
module Wrappers {

  /** A nullable value: None stands for Java's null. */
  datatype Option<+T> = None | Some(value: T) {

    /** The value, or `default` when absent (Optional.ofNullable(x).orElse(default)). */
    function GetOr(default: T): T {
      match this
      case Some(v) => v
      case None => default
    }
  }

  /** The result of an operation that either returns a value or throws. */
  datatype Result<+R, +E> = Success(value: R) | Failure(error: E)

  /** The result of an operation that returns nothing or throws. */
  datatype Outcome<+E> = Pass | Fail(error: E)
}
