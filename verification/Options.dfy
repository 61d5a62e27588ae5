/** A value that may be missing: a null reference of the Java code, or an argument left out in Python. */
module Options {
  datatype Option<+T> = None | Some(value: T)
}
