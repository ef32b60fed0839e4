/** An optional value: `None` plays the part of Go's `nil` error or missing result. */
module Wrappers {

  datatype Option<+T> = None | Some(value: T)
}
