module Option {
  datatype Option<+T> = None | Some(value: T)

  /** A Python call that returns a value or raises; the message is not modelled. */
  datatype Result<+T> = Ok(value: T) | Err
}
