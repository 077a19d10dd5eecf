/** A value that may be absent: JavaScript's `undefined` for an optional field or prop. */
module Optional {

  datatype Option<+T> = None | Some(value: T)
}
