/** A value or nothing, such as a null pointer or a constant that is not known. */
module Options {

  datatype Option<+T> = None | Some(value: T)
}
