/** Result and option types shared by every module. */
module Wrappers {

  datatype Option<+T> = None | Some(value: T)

  datatype Result<+T, +E> = Ok(value: T) | Err(error: E)
  {
    function ToOption(): Option<T> {
      if Ok? then Some(value) else None
    }
  }

  /** The errors of vnmcore/src/error.rs that the modelled operations return. */
  datatype VnmError =
    | AuthenticationFailed
    | InvalidFormat
    | CorruptedSlot(slot: nat)
    | NoSpaceLeft
    | TooLarge
    | BadNode
    | ShortRead
    | RollbackDetected(currentGen: nat, expectedGen: nat)
    | MerkleIntegrityFailure
    | SizeTooSmall(min: nat)
    | Io

  /** The error numbers the file operations return. */
  datatype Errno = ENOENT | EIO | EISDIR | ENOTDIR | EEXIST | ENOTEMPTY
}
