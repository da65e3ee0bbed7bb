/** A value that may be absent: JavaScript's `null` / `undefined` for a field
    or a state variable of the pages. */
module Optional {
  datatype Option<+T> = None | Some(value: T)
}
