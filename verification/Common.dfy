/** Types shared by every module. */
module Common {
  type Callsign = string

  /** Upper- or lower-casing of a text. */
  type Casing = string -> string

  datatype Option<+T> = None | Some(value: T)

  datatype Result<+T> = Ok(value: T) | Err(error: string)
}
