/** The optional value used wherever the application code works with
    `undefined` or `null`: a lookup that finds nothing, an absent drop target,
    an unset optional field. */
module Wrappers {

  datatype Option<+T> = None | Some(value: T) {

    /** The wrapped value, or `default` when there is none. */
    function GetOr(default: T): T {
      match this
      case Some(v) => v
      case None => default
    }
  }
}
