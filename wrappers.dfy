/** The optional value used for JavaScript `null`/`undefined` and Python `None`. */
module Wrappers {

  datatype Option<+T> = None | Some(value: T) {

    /** The value if present, otherwise `default` (JavaScript `??`). */
    function GetOr(default: T): T {
      if Some? then value else default
    }
  }
}
