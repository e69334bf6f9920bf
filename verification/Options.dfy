module Options {
  /** An absent or present value; absent is how the specifications report a failure. */
  datatype Option<+T> = None | Some(value: T)
}
