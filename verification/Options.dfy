/** A value that may be missing: Go's nil, a map lookup without an entry, an error instead of a value. */
module Options {
  datatype Option<+T> = None | Some(value: T)
}
