/** The optional value used wherever the Go code has a pointer that may be nil. */
module Wrappers {
  datatype Option<+T> = None | Some(value: T)

  function OrElse<T>(first: Option<T>, second: Option<T>): Option<T> {
    if first.Some? then first else second
  }
}
