/** A value that may be missing: JavaScript's `undefined`/`null` is `None`. */
module Optional {
  datatype Option<+T> = None | Some(value: T)
}
