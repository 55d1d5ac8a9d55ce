/** The optional value used wherever the source has `undefined` as a possible answer. */
module Options {

  datatype Option<+T> = None | Some(value: T)

}
