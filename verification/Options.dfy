/** A value that may be missing: a null pointer, an absent key, an unset field. */
module Options {
  datatype Option<+T> = None | Some(value: T)
}
