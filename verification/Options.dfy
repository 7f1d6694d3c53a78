// A value that may be missing: a null frame pointer, a read that ran out of
// bytes, a text that does not parse.
module Options {
  datatype Option<+T> = None | Some(value: T)
}
