/** An optional value: the shape of an answer that may be missing. */
module Options {

  datatype Option<+T> = None | Some(value: T)

}
