/** Rust's Option, used for optional window addresses, config lookups and CLI flags. */
module Wrappers {
  datatype Option<+T> = None | Some(value: T) {
    /** Option::unwrap_or. */
    function GetOr(default: T): T {
      match this
      case Some(v) => v
      case None => default
    }
  }
}
