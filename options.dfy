/** The optional value used wherever the source leaves a result undefined. */
module Options {

  datatype Option<+T> = None | Some(value: T)
}
