/** The Option type used wherever the Swift code has an optional (`T?`). */
module Wrappers {
  datatype Option<+T> = None | Some(value: T) {
    /** `self ?? default` */
    function GetOr(default: T): T {
      match this
      case Some(v) => v
      case None => default
    }
  }
}
