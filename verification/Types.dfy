/** Machine integers, bytes, packets and errors shared by every layer of the client. */
module Types {
  type byte = x: int | 0 <= x < 0x100
  type u16 = x: int | 0 <= x < 0x1_0000
  type u32 = x: int | 0 <= x < 0x1_0000_0000
  type u64 = x: int | 0 <= x < 0x1_0000_0000_0000_0000

  type bytes = seq<byte>

  datatype Option<+T> = None | Some(value: T)

  datatype Result<+T> = Ok(value: T) | Err(error: Error) {
    predicate IsFailure() {
      Err?
    }

    function PropagateFailure<U>(): Result<U>
      requires Err?
    {
      Err(error)
    }

    function Extract(): T
      requires Ok?
    {
      value
    }
  }

  /** The causes behind `Io`: what the operating system reported. */
  datatype IoKind =
    | TimedOut        // a socket read ran dry before it had all its bytes
    | UnexpectedEof   // an in-memory cursor ran out of bytes
    | NotFound        // a file operation named a file that does not exist
    | InvalidText     // a file read as a string is not UTF-8
    | Storage         // any other failure of a file operation

  /** The causes behind `ProtocolError`. */
  datatype Violation =
    | UnknownMessageType
    | TooShort
    | StringOutOfBounds
    | IncompleteChunk

  datatype Error =
    | Io(kind: IoKind)
    | ProtocolError(violation: Violation)
    | DeviceError(code: u32)
    | StringEncoding
    | InvalidResumeData
    | SendFailed      // `Other` in the source: a frame could not be written within the retry budget

  datatype MessageType = CommandBlock | DataBlock | ResponseBlock | EventBlock

  datatype Packet = Packet(kind: MessageType, id: u32, payload: bytes)

  /** `SessionConfig.max_retries`; the other fields of the session configuration are durations. */
  datatype SessionConfig = SessionConfig(maxRetries: nat)

  datatype ChunkConfig = ChunkConfig(chunkSize: nat, minChunkSize: nat)

  /** Byte strings one after another. */
  function Cat(parts: seq<bytes>): bytes
  {
    if parts == [] then [] else parts[0] + Cat(parts[1..])
  }

  /** Places below `n`, in rising order. */
  predicate Rising(picks: seq<nat>, n: nat) {
    && (forall i | 0 <= i < |picks| :: picks[i] < n)
    && (forall i, j | 0 <= i < j < |picks| :: picks[i] < picks[j])
  }
}
