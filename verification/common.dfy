/** Small wrapper types shared by the whole model. */
module Common {

  /** A value that may be missing, as `None` stands for "did not parse" in the source. */
  datatype Option<+T> = None | Some(value: T)

  /** The outcome of an evaluation that may raise: `Failed` stands for a Python exception. */
  datatype Result<+T> = Ok(value: T) | Failed(error: string)
}
