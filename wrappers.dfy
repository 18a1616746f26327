/** The one failure-compatible type the model needs: a value that may be absent. */
module Wrappers {

  /** A value that is present (`Some`) or absent (`None`); pandas' missing value. */
  datatype Option<+T> = None | Some(value: T) {

    /** The value, or `default` when it is absent. */
    function GetOr(default: T): (r: T)
      ensures Some? ==> r == value
      ensures None? ==> r == default
    {
      match this
      case Some(v) => v
      case None => default
    }
  }
}
