/** A value that may be missing: NULL, or an out-parameter left alone. */
module Options {
  datatype Option<+T> = None | Some(value: T)
}
