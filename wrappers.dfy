/** The optional value the model uses wherever the dashboard returns `None`. */
module Wrappers {

  datatype Option<+T> = None | Some(value: T) {

    /** The wrapped value, or `default` for `None`. */
    function GetOr(default: T): T
    {
      if Some? then value else default
    }
  }
}
