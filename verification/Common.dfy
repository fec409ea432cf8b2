/** What several components share. */
module Common {
  /** A value that may be missing. */
  datatype Option<T> = None | Some(value: T)

  type byte = x: int | 0 <= x < 256
}
