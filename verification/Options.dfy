/** An optional value: a null pointer, a missing item or a failed call of the source. */
module Options {
  datatype Option<T> = None | Some(value: T)
}
