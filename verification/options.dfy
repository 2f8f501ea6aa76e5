/** An optional value, where the source returns a null pointer or a found flag. */
module Options {
  datatype Option<+T> = None | Some(value: T)
}
