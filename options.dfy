/** An optional value, standing for a nullable reference. */
module Options {

  datatype Option<+T> = None | Some(value: T)
}
