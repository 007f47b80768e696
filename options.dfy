/** Python's `None`-or-value fields, as an optional value. */
module Options {
  datatype Option<+T> = None | Some(value: T)
}
