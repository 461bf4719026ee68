/** The optional value used wherever the Kotlin and Java sources use a nullable reference. */
module Wrappers {

  /** `None` stands for a Kotlin `null`, `Some(v)` for a present value. */
  datatype Option<+T> = None | Some(value: T) {

    /** The value, or `default` when there is none (Kotlin's `?:`). */
    function GetOr(default: T): T
    {
      match this
      case Some(v) => v
      case None => default
    }
  }
}
