// A value or null.
module Options {
  datatype Option<+T> = None | Some(value: T)
}
