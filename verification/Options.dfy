/** The optional value shared by all components. */
module Options {
  datatype Option<T> = None | Some(value: T)
}
