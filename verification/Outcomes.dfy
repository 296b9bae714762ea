/** Results shared by the model: a value that may be missing, such as a
    failed lookup, an unparsable URL or an absent error. */
module Outcomes {
  datatype Option<+T> = None | Some(value: T)

  datatype Result<+T> = Ok(value: T) | Err(error: string)
}
