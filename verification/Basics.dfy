/** Values shared by every other module: bytes, options, error codes and results. */
module Basics {

  type Byte = b: int | 0 <= b < 256

  type Bytes = seq<Byte>

  datatype Option<+T> = None | Some(value: T)

  /** The error codes that the storage layer can report (src/include/diarkis/error.h). */
  datatype ErrorCode =
    | FileNotFound
    | InvalidPath
    | AlreadyExists
    | NotDirectory
    | IoError
    | InvalidCommand
    | SerializationError

  /** The outcome of an operation that returns no value: `Result<void>` in the source. */
  datatype Status = Fine | Failed(code: ErrorCode)

  datatype Result<+T> = Ok(value: T) | Err(code: ErrorCode)

  /** One hundred mebibytes: MAX_FILE_SIZE, MAX_LOG_ENTRY_SIZE and MAX_MESSAGE_SIZE. */
  const SIZE_LIMIT: nat := 104857600

  /** How much one short transfer moves when the system would take `n` bytes and `left` remain: at
      least one byte, at most all. */
  function Piece(n: nat, left: nat): (moved: nat)
    requires left > 0
    ensures 1 <= moved <= left
  {
    if n > left then left else if n == 0 then 1 else n
  }
}
