/** An optional value: a nullable column, an absent result. */
module Options {
  datatype Option<+T> = None | Some(value: T)
}
