/** An optional value: JavaScript's `undefined` / `null` or a value. */
module Optional {
  datatype Option<+T> = None | Some(value: T)
}
