/** An optional value, for the source's `null` / `undefined` cases. */
module Optional {
  datatype Option<+T> = None | Some(value: T)
}
