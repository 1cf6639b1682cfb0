/** `null`/`undefined` made explicit. */
module Optional {

  datatype Option<+T> = None | Some(value: T)
}
