/** Failure-compatible wrappers and the errors the chunk store can raise. */
module Outcomes {

  /** An optional value: `undefined` in the JavaScript original. */
  datatype Option<+T> = None | Some(value: T) {
    predicate IsFailure() {
      None?
    }

    function PropagateFailure<U>(): Option<U>
      requires None?
    {
      None
    }

    function Extract(): T
      requires Some?
    {
      value
    }
  }

  /** The exceptions the core throws, one constructor per kind. */
  datatype Error =
    | InvalidCharacterError  // `atob`/`btoa` reject their input (a DOMException)
    | OperationError         // AES-GCM authentication failed: wrong key or altered ciphertext
    | ConstraintError        // IndexedDB: the key or the unique (fileId, chunkIndex) index is taken
    | InvalidChunkData       // the "Invalid chunk data" error of preview and export
    | ValidationError        // a blank passphrase

  /** A computation that either yields a value or throws an `Error`. */
  datatype Result<+T> = Success(value: T) | Failure(error: Error) {
    predicate IsFailure() {
      Failure?
    }

    function PropagateFailure<U>(): Result<U>
      requires Failure?
    {
      Failure(error)
    }

    function Extract(): T
      requires Success?
    {
      value
    }
  }
}
