/** The optional value the search returns: a path, or nothing when no path exists. */
module Options {
  datatype Option<T> = None | Some(value: T)
}
