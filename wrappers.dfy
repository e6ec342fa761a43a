/** Optional values and results with an error, shared by the other modules. */
module Wrappers {

  datatype Option<+T> = None | Some(value: T) {
    function GetOr(default: T): T {
      match this
      case Some(v) => v
      case None => default
    }
  }

  /** The exceptions the rule pipeline lets escape to the HTTP layer. */
  datatype Error =
    | FileNotFound        // the rule text file does not exist
    | CollectionMissing   // the vector-store collection does not exist

  datatype Result<+R> = Success(value: R) | Failure(error: Error)
}
