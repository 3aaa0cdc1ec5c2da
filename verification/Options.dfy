/** A value that may be missing: what the source writes as `None`, an absent key or an empty field. */
module Options {
  datatype Option<T> = None | Some(value: T)
}
