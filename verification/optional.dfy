/** The Some/None datatype used for "nothing generated yet" and for parsers that can fail. */
module Optional {

  datatype Option<+T> = None | Some(value: T)
}
