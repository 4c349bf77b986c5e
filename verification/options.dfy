/** The optional values of the C structures: a NULL pointer is None. */
module Options {
  datatype Option<+T> = None | Some(value: T)
}
