/** An optional value: a pointer that may be NULL, an answer that may be an error. */
module Options {
  datatype Option<+T> = None | Some(value: T)
}
