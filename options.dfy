/** An optional value: a field rule yields `Some(message)` when the field fails. */
module Options {
  datatype Option<+T> = None | Some(value: T)
}
