/** The absence marker and the fallible result used throughout the model:
    `None` stands for a Java `null`, `Err` for a thrown exception. */
module Wrappers {

  datatype Option<+T> = None | Some(value: T)

  datatype Result<+T, +E> = Ok(value: T) | Err(error: E)
}
