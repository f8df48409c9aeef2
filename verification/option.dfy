/** An optional value: the model's stand-in for a result that may be NULL. */
module Options {
  datatype Option<T> = None | Some(value: T)
}
