/** Option, Result and the errors the bridge reports. */
module Wrappers {

  datatype Option<+T> = None | Some(value: T)

  /** `Api` carries the code of a server error; the other cases are the library's own errors. */
  datatype Error =
    | NotFound
    | Api(code: int)
    | FileNameExist
    | WrongUsageOfGetLink
    | WrongUsageOfGetLinkKR
    | NoKeyringForSignatureVerification
    | Malformed
    | CannotDecrypt
    | BadSignature
    | WrongPassphrase
    | EmptyKeyring
    | LinkMustBeActive
    | LinkMustBeFile
    | LinkMustBeFolder
    | FolderIsNotEmpty
    | CantLocateRevision
    | DraftExists
    | CantFindActiveRevision
    | UploadFailed
    | MissingUploadInput
    | BatchCardinality
    | BlockHashMismatch
    | SeekOffset
    | EndOfFile
    | UnexpectedEndOfFile

  datatype Result<+T> = Ok(value: T) | Err(error: Error)

  /** A call under a bound on the depth of its recursion: it has returned, or it was still running at the bound. */
  datatype Run<+T> = Running | Returned(value: T)

  /** What may befall one call to the server: it goes through, it never gets there, or it takes effect
      but the caller is told that it failed. */
  datatype Fault = Delivered | Lost(lost: Error) | Unacknowledged(reported: Error)

  /** What the caller of an update hears. */
  function Report(fault: Fault): Option<Error> {
    match fault
    case Delivered => None
    case Lost(e) => Some(e)
    case Unacknowledged(e) => Some(e)
  }
}
