/** The usual Some/None wrapper, used for lookups that may find nothing. */
module Optional {
  datatype Option<+T> = None | Some(value: T)
}
