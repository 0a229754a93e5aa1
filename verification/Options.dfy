/** The optional value used throughout: a lookup that may miss, a decoder that may reject. */
module Options {

  datatype Option<+T> = None | Some(value: T)
}
