/** Optional values and error results, used wherever the source has `null`,
    `undefined`, or a thrown exception. */
module Wrappers {

  datatype Option<+T> = None | Some(value: T)

  datatype Result<+T> = Ok(value: T) | Err(message: string)
}
