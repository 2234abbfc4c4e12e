/** The Some/None type used for the source's optional values. */
module Options {
  datatype Option<+T> = None | Some(value: T)
}
