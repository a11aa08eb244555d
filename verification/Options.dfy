/** The optional values and results shared by the models. */
module Options {
  datatype Option<+T> = None | Some(value: T)

  datatype Result<+T> = Ok(result: T) | Raise(message: string)
}
