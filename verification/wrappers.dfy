/** Small failure-carrying datatypes shared by the scheduling and Canvas modules. */
module Wrappers {

  /** A value that may be absent: a missing dictionary key, a failed parse, a raised request. */
  datatype Option<+T> = None | Some(value: T) {

    /** The wrapped value, or `default` when there is none. */
    function GetOr(default: T): T {
      match this
      case Some(v) => v
      case None => default
    }
  }
}
