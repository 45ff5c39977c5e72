/** Option and Result, used for values the source may lack (a dict `get` that
    finds nothing, a `None` argument) and for the exceptions it raises. */
module Wrappers {

  datatype Option<+T> = None | Some(value: T)

  /** `Err` stands for a Python exception; its message names the exception. */
  datatype Result<+T> = Ok(value: T) | Err(error: string)
}
