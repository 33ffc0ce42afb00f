module Options {
  /** A value that may be absent, such as a nil value in Go. */
  datatype Option<+T> = None | Some(value: T)
}
