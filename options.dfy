/** A value or its absence (a C null pointer). */
module Options {

  datatype Option<+T> = None | Some(value: T)
}
