/** The value-or-nothing type the model uses wherever the source returns null. */
module Options {

  datatype Option<+T> = None | Some(value: T)

}
