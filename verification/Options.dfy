module Options {
  /** A value that may be missing: Python's None, or an absent entry. */
  datatype Option<+T> = None | Some(value: T)
}
