/** Types shared by the other modules. */
module Common {

  datatype Option<+T> = None | Some(value: T) {

    /** The value, or `default` when there is none: Python's `x or default`. */
    function GetOr(default: T): T {
      if Some? then value else default
    }
  }
}
