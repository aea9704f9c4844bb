/** The optional value shared by the gallery modules. */
module Wrappers {

  /** An optional value: JavaScript's `undefined` / absent field becomes None. */
  datatype Option<+T> = None | Some(value: T) {

    /** The wrapped value, or the given default when absent. */
    function GetOr(default: T): T {
      match this
      case Some(v) => v
      case None => default
    }
  }
}
