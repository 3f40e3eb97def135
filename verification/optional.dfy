/** The absent-or-present value used throughout the model (PHP `null`, JavaScript `undefined`). */
module Optional {
  datatype Option<+T> = None | Some(value: T)
}
