/** A value that may be missing: a null pointer, a -1, an absent row. */
module Options {
  datatype Option<+T> = None | Some(value: T)
}
