/** Go's nil values: a nil map or a nil callback is `None`. */
module Options {
  datatype Option<+T> = None | Some(value: T)
}
