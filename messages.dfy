/**
 * Messages as the frame layer sees them, and the failures an exchange can
 * end in. Message bodies are not decoded: a response is known by its
 * function code and its frame, and an exception response (function code
 * with bit 0x80 set, section 7 of the MODBUS Application Protocol
 * Specification V1.1b3) by the exception code in its third byte.
 */
module Messages {
  import opened RtuFrame

  datatype Response =
    | Normal(functionCode: byte, frame: seq<byte>)
    | ExceptionResponse(functionCode: byte, exceptionCode: byte)
  {
    predicate IsException() { ExceptionResponse? }
  }

  /** The stand-in for `createModbusResponse` followed by `readFrom`: a
      received frame of at least unit id, function code and one more byte
      is taken to be an exception response exactly when its function code
      has bit 0x80 set, with the exception code in its third byte. */
  function Decode(frame: seq<byte>): Response
    requires |frame| >= 3
  {
    if frame[1] >= 0x80 then ExceptionResponse(frame[1], frame[2]) else Normal(frame[1], frame)
  }

  /** Why a `ModbusIOException` was raised. */
  datatype IoReason =
    | WriteFailed          // "I/O failed to write"
    | ReadFailed           // "I/O exception - failed to read"
    | HeaderTruncated      // "Premature end of stream (Header truncated)."
    | WifiHeadTruncated    // the 9-byte envelope could not be read
    | ConnectingFailed     // "Connecting failed."
    | ExecutingFailed      // "Executing transaction failed."
    | LockInterrupted      // "Thread acquiring lock was interrupted."

  /** Unchecked Java exceptions that escape the code unwrapped. */
  datatype Unchecked =
    | IndexOutOfBounds
    | NullPointer
    | OperationNotSupported

  /** Everything an operation of the transport or transaction layer can fail with. */
  datatype Fault =
    | NotExecutable        // ModbusException "transaction not executable"
    | IOFailure(reason: IoReason)
    | SlaveError(code: byte)
    | SocketError          // an IOException of the socket API passed on unwrapped
    | Escaped(kind: Unchecked)
}
