/** The optional value used where the source returns nil or an error flag. */
module Options {
  datatype Option<+T> = None | Some(value: T)
}
