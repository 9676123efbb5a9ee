/** The absent-or-present wrapper used wherever the source returns a Java `null`. */
module Options {
  datatype Option<+T> = None | Some(value: T)
}
