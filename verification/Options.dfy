/** An optional value: a parse that may fail, an empty register, a stored record that may be missing. */
module Options {
  datatype Option<T> = None | Some(value: T)
}
