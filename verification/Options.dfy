/** The optional value used throughout for Python's `None`. */
module Options {
  datatype Option<+T> = None | Some(value: T)
}
