/** An optional value: what the services write as a nullable column or result. */
module Options {
  datatype Option<+T> = None | Some(value: T)
}
