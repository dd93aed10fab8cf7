/** The usual optional value, standing in for JavaScript's `null` results. */
module Optional {
  datatype Option<T> = None | Some(value: T)
}
