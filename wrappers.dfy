/** Values shared by the array utilities: optional slots and thrown errors. */
module Wrappers {

  /** An array slot: `None` is a hole (an index not present in the array). */
  datatype Option<+T> = None | Some(value: T)

  /** The two kinds of exception the utilities throw, with their messages. */
  datatype JsError = TypeError(message: string) | Error(message: string)

  /** Either the value returned or the exception thrown. */
  datatype Result<+T> = Ok(value: T) | Err(error: JsError)
}
