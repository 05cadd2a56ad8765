/** The optional values that the modelled program uses in place of null. */
module Options {

  datatype Option<+T> = None | Some(value: T)

}
