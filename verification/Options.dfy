/** A value that may be missing: what the program leaves undefined or null. */
module Options {
  datatype Option<+T> = None | Some(value: T)
}
