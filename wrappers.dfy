/** Small result types shared by the model. */
module Wrappers {

  /** A value that may be absent: Python's `None` or a value. */
  datatype Option<+T> = None | Some(value: T) {

    /** The value, or `default` when there is none. */
    function GetOr(default: T): T {
      match this
      case Some(v) => v
      case None => default
    }
  }

  /** What a Python call does: it returns a value or it raises an exception
      whose message is `reason`. */
  datatype Outcome<+T> = Returned(value: T) | Raised(reason: string)
}
