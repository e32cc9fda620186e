// Types shared by every module: optional values, results carrying a kipc error
// code, and bytes.
module Basics {
  datatype Option<+T> = None | Some(value: T)

  // The KELD-IPC-00n codes the modelled code raises. Message texts are not modelled.
  datatype ErrorCode =
    | Closed001     // connection or session closed, socket failure, reader underrun
    | Header002     // malformed frame header
    | Codec003      // a value that cannot be encoded, or a payload that cannot be decoded
    | TooLarge004   // payload or buffered data over its bound
    | Protocol005   // frame not admitted by the session policy, or overlapping read
    | Deadline006   // app-link I/O deadline exceeded

  datatype Result<+T> = Ok(value: T) | Err(code: ErrorCode) {
    predicate IsFailure() {
      Err?
    }

    function PropagateFailure<U>(): Result<U>
      requires Err?
    {
      Err(code)
    }

    function Extract(): T
      requires Ok?
    {
      value
    }
  }

  type byte = x: int | 0 <= x < 256

  function Max(a: int, b: int): int {
    if a < b then b else a
  }

  function Min(a: int, b: int): int {
    if a < b then a else b
  }
}
