/** A value that may be missing. */
module Wrappers {
  datatype Option<+T> = None | Some(value: T)

  function OrElse<T>(o: Option<T>, other: T): T {
    if o.Some? then o.value else other
  }
}
