/** A value that may be missing. */
module Options {

  datatype Option<+A> = None | Some(value: A)
}
