/** A value that may be missing: Java's `null` made explicit. */
module Options {
  datatype Option<T> = None | Some(value: T)
}
