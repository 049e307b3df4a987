/** A value that may be missing: None, null, or a key that is not there. */
module Options {
  datatype Option<+T> = None | Some(value: T)
}
