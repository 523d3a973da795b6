/** A value that may be absent: the model's stand-in for JavaScript's `undefined`. */
module Options {

  datatype Option<+T> = None | Some(value: T)

}
