/** The optional values that the source writes as `T | None`. */
module Options {
  datatype Option<+T> = None | Some(value: T)
}
