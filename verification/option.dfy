/** An optional value: JavaScript's `null` on one side, a value on the other. */
module Optional {

  datatype Option<+T> = None | Some(value: T)
}
