/** The optional value every component uses for "absent", nil errors included. */
module Options {
  datatype Option<+T> = None | Some(value: T)
}
