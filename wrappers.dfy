/** Optional values (Java's nullable references and java.util.Optional) and
    results that are either a value or the exception the library throws. */
module Wrappers {

  datatype Option<+T> = None | Some(value: T)

  datatype Result<+T, +E> = Success(value: T) | Failure(error: E)
}
