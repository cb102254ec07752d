/** The optional value used for board cells and for parse results. */
module Options {

  datatype Option<+T> = None | Some(value: T)
}
