/** The optional value shared by the modules: Python's `None`. */
module Options {
  datatype Option<+T> = None | Some(value: T)
}
