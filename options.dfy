/** The usual optional-value datatype. */
module Options {
  datatype Option<T> = None | Some(value: T)
}
