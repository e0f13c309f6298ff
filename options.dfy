/** The optional value Swift writes as `T?`: `getTile` answers with one. */
module Options {
  datatype Option<+T> = None | Some(value: T)
}
