/** Values that may be absent, such as Go's nil references and missing map entries. */
module Options {
  datatype Option<+T> = None | Some(value: T)
}
