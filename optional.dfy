/** An optional value: a request parameter that may be absent, a row that may not exist. */
module Optional {
  datatype Option<+T> = None | Some(value: T)
}
