/** The optional value used wherever the layout reads an optional value. */
module Options {

  datatype Option<+T> = None | Some(value: T)
}
