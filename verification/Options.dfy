/** An optional value, in place of a null column or a missing row. */
module Options {
  datatype Option<+T> = None | Some(value: T)
}
