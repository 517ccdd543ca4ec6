/** An optional value, for operations of the source that may have no result. */
module Options {
  datatype Option<T> = None | Some(value: T)
}
