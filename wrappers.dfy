/** The optional-value type used for JavaScript's `null`/`undefined` and for missing object members. */
module Wrappers {

  datatype Option<+T> = None | Some(value: T)
}
