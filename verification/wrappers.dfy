/** A value that may be missing: a JavaScript `null` point or a `NaN` parse result. */
module Wrappers {
  datatype Option<+T> = None | Some(value: T)
}
