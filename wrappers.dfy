/** Option and Result values shared by the whole model. A `Result` carries the
    message of the JavaScript exception that a failing collaborator throws. */
module Wrappers {

  datatype Option<+T> = None | Some(value: T)

  datatype Result<+T> = Ok(value: T) | Fail(message: string)
}
