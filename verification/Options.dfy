/** A value that may be missing: the second, boolean result of the original's lookups and merges. */
module Options {
  datatype Option<+T> = None | Some(value: T)
}
