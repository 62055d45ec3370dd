/** A value that may be missing: a request that threw, an unset storage key, an absent
    field in a response. */
module Wrappers {

  datatype Option<+T> = None | Some(value: T) {

    /** The value when there is one; `fallback` otherwise. */
    function GetOr(fallback: T): T {
      if Some? then value else fallback
    }
  }
}
