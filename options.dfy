/** The optional value used throughout the model for JSON fields that may be absent. */
module Options {
  datatype Option<+T> = None | Some(value: T)
}
