/** An optional value: a request field or setting that may be missing, a decode that may fail. */
module Options {
  datatype Option<T> = None | Some(value: T)
}
