/** A value that may be missing: a null pointer, a failed lookup, a refused input. */
module Options {
  datatype Option<+T> = None | Some(value: T)
}
