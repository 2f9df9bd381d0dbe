/** Failure-carrying values for the external capabilities (recognizer, parser,
    generator) whose exceptions the Python code either propagates or catches. */
module Outcomes {

  datatype Option<T> = None | Some(value: T)

  /** A capability's answer: a value, or the message of the exception it raised. */
  datatype Result<T> = Ok(value: T) | Err(message: string)
}
