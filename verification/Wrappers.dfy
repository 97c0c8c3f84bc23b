/** A value that may be absent, as `std::optional` or a shared pointer that may be null. */
module Wrappers {
  datatype Option<+T> = None | Some(value: T) {
    function GetOr(default: T): T {
      if Some? then value else default
    }
  }
}
