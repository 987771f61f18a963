/** What several parts of the model share. */
module Common {
  type byte = b: int | 0 <= b < 256

  datatype Option<+T> = None | Some(value: T)
}
