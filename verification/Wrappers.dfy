/** The value-or-nothing type shared by every model of this project. */
module Wrappers {
  datatype Option<+T> = None | Some(value: T)

  function GetOr<T>(o: Option<T>, default: T): T {
    if o.Some? then o.value else default
  }
}
