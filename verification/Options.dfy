/** The optional value used wherever the sources return a value with an "ok" flag. */
module Options {
  datatype Option<+T> = None | Some(value: T)
}
