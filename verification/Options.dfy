/** An optional value: PHP's null, C's null pointer, or a result that may be missing. */
module Options {
  datatype Option<+T> = None | Some(value: T)
}
