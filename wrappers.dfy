/** Kotlin's nullable values (`T?`) and stored-or-absent preference entries. */
module Wrappers {
  datatype Option<+T> = None | Some(value: T) {
    /** `x ?: default` */
    function GetOr(default: T): T {
      match this
      case Some(v) => v
      case None => default
    }
  }
}
