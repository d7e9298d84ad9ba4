/** A value that may be absent: JavaScript's null, or a thrown error's missing result. */
module Options {
  datatype Option<+T> = None | Some(value: T)
}
