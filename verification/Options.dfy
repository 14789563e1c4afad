/** The optional values of the source (`T | undefined`). */
module Options {
  datatype Option<+T> = None | Some(value: T)
}
