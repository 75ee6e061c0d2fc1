/** The optional-value datatype used wherever the source returns `null`,
    `undefined` or has a failure path that collapses to "absent". */
module Wrappers {

  datatype Option<+T> = None | Some(value: T) {

    function GetOr(default: T): T {
      match this
      case Some(v) => v
      case None => default
    }
  }
}
