/** The stock option type used across the model. */
module Option {
  datatype Option<+T> = None | Some(value: T)
}
