/** A value that may be absent: JavaScript's `null`/`undefined` alongside a value. */
module Optional {

  datatype Option<+T> = None | Some(value: T)

}
