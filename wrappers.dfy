/** The optional value used for fields that the source reads as "may be missing"
    (a NaT timestamp, an absent column, a `None` argument). */
module Wrappers {

  datatype Option<+T> = None | Some(value: T) {

    /** The encapsulated value, or `default` when there is none. */
    function GetOr(default: T): T
    {
      match this
      case Some(v) => v
      case None => default
    }
  }
}
