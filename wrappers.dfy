/** The nullable values of the front end (`T | null`) as an Option datatype. */
module Wrappers {

  datatype Option<+T> = None | Some(value: T) {

    /** The value when there is one, otherwise the given default (`x ?? d`, `x || d`). */
    function GetOr(default: T): T {
      match this
      case Some(v) => v
      case None => default
    }
  }

  /** JavaScript truthiness of a nullable number: null and 0 are false. */
  predicate Truthy(v: Option<int>) {
    v.Some? && v.value != 0
  }
}
