/** A value that may be missing, as a null pointer is. */
module Options {

  datatype Option<+T> = None | Some(value: T)
}
