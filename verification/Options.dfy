/** A value that may be missing, for the modules that model one. */
module Options {
  datatype Option<T> = None | Some(value: T)
}
