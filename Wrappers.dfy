/** Option, the stand-in for the nullable references (`T?`) of the source. */
module Wrappers {
  datatype Option<+T> = None | Some(value: T)
}
