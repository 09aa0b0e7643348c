/** A value that may be missing, for what Python states as None. */
module Options {
  datatype Option<+T> = None | Some(value: T)
}
