# A verified model of ptpip_core

ptpip_core is a camera client: it finds cameras by UDP, talks to one over TCP in typed frames with
transaction ids, and downloads objects in chunks that can be resumed after an interruption. This
project models that stack from the bytes of the socket to the files on disk and proves, in Dafny,
what it keeps.

| file | models |
|---|---|
| `Types.dfy`, `BigEndian.dfy` | machine integers, errors, big-endian readers and writers, the byte cursor (src/utils.rs) |
| `Framing.dfy` | frame layout, its decoding, and what repeated receives report (src/transport.rs) |
| `Demux.dfy` | filtering by type and transaction id; a transaction's own data |
| `Transport.dfy` | the connection: receive loops, response matching, sending with retries |
| `Commands.dfy` | command encoding, one GetPartialObject transaction, its retries (src/commands.rs) |
| `Decimal.dfy`, `ResumeMachine.dfy` | the text of the resume file; the resumable download as a state machine over three files |
| `Workspace.dfy` | the directory and `check_resume_state` |
| `ChunkPlan.dfy`, `Progress.dfy` | chunk boundaries and counts; progress reports |
| `Download.dfy` | `download_object_with_resume` |
| `Client.dfy` | what an honest camera is on the wire; `download_photo` end to end |
| `Text.dfy`, `ResponseParsers.dfy` | string extraction and the payload parsers, with encoders they invert |
| `Discovery.dfy` | the discovery loop and its parser (src/discovery.rs) |

## How the environment is modelled

- **The socket.** Incoming bytes come in bursts. A read that needs more bytes than are left of a
  burst loses the rest of it and reports a timeout, so timeouts may fall anywhere, in the middle of
  a frame too. The expiry of a receive timer between two packets is a burst boundary. Which socket
  writes break off, and after how many bytes, is an arbitrary function.
- **The camera.** What it sends is arbitrary and fixed beforehand; every command is recorded in a
  ghost log together with the point of the stream at which it went out. Safety assumes that answers
  are honest: the data received under a command's id is the object at the range asked for, or a
  beginning of it, and none of it comes before the command. Answers may be late, incomplete, missing
  and interleaved with anything. Where this is stated of the bytes that the camera sends, and so in
  all end-to-end results (`Client.Converses`), timeouts must also fall between frames: after one in
  the middle of a frame the code takes the rest of that frame for headers, and honest bytes may then
  be received as something else.
- **The disk.** Which file operation fails, and after how many bytes for a write, is an arbitrary
  function. A failed write leaves any prefix. A crash may come after any file operation; the state
  machine may fall back to `Idle` at every step.
- **Ids.** Random transaction ids are an arbitrary function; where a result needs them to differ it
  says so.

## Main results

- *End to end.* `Client.DownloadPhoto`: from framed bytes of an honest camera, Ok means that the
  target is the object byte for byte, and every directory state on the way is safe. The connection
  and the directory may have been used before. `Client.DownloadInAttempts`: over any number of such
  calls, failed ones included, with late answers to one arriving during the next and other settings
  each time, an interrupted attempt is followed by one that goes on where it stopped, all states stay
  safe, every attempt that answers Ok or is undisturbed and able to leaves the object, and a target
  once complete stays the object. If no write breaks, the camera hears exactly the commands in the log.
- *Crash safety.* `ResumeMachine.RunIsSafe` and `CompletedTargetStays`: over any sequence of attempts
  cut anywhere, each with its own chunk sizes, and whatever the resume file holds, the temporary file
  is a prefix of the object, and a target of full length is the object and never changes again. The
  start must be *safe* itself (`ResumeMachine.Safe`: the temporary file, if any, is a prefix of the
  object; a target of full length, if any, is the object and has no temporary file beside it).
  `Download.DownloadObjectWithResume` is proved to take only steps of that machine.
- *Resumption and recovery.* The same method leaves, when the camera or the network ends it, a
  directory from which the next attempt starts exactly behind the chunks kept. Without broken writes,
  a network error means that all tries for a chunk went unanswered. Undisturbed, which allows for retries as long as one of
  the `max_retries + 1` tries is answered in full, it ends
  with the complete target if and only if `check_resume_state` does not find an unreadable offset
  next to a temporary file and no chunk of the plan reaches 2^32 bytes (`ChunkPlan.PlanFits`, a
  closed form in the two chunk sizes and what is left).
- *Isolation of transactions.* `Demux.DeliveredIsReply`, `Demux.ReplyIsContent`, `Client.ServedHonestly`;
  and distinct ids are exactly what it takes for everything that is kept to be the object's bytes
  (`Client.IdsMustDiffer`).
- *Decoding inverts encoding*, on exactly the packets and payloads named.
- *Responses, strings, discovery.* Which response answers a transaction (`Transport.FirstAnswer`), what
  a parsed string is (`ResponseParsers.Holds`), which offset a resume file holds
  (`Decimal.ReadExactly`) and which cameras are reported (`Discovery.ReportedAt`) are each stated on
  packets, bytes and arrivals, both ways.

## Where the code does less than one might expect

These are stated as lemmas, with the exact condition.

- A crash between `write_all` and the save of the offset loses all progress, not one chunk: the next
  attempt starts over (`CrashBeforeSaveLosesAll`). What is on disk counts exactly if the resume file
  reads as its length (`KeepsProgress`).
- `fs::write` of the resume file is not atomic. If it breaks off before the first digit the file is
  empty, `check_resume_state` answers `InvalidResumeData`, and no later attempt gets any further until
  a person removes a file (`TornSaveIsUnreadable`, `UnreadableIsPermanent`, `UnreadableIsTorn`).
- The rename at src/commands.rs:429 is unconditional. A download that was already complete answers
  with an error although the target is right; and a complete target survives exactly if no different
  temporary file lies beside it (`FinishedTargetSurvives`). From a safe start that never happens.
- With `chunk_size` 0 the plan makes no progress unless what is left is below the minimum
  (`PlanFinishes`); a chunk of 2^32 bytes or more is asked for with a truncated length and never
  accepted from an honest camera (`WideChunkNeverFits`), and whether a plan has one is decided by
  `PlanFitsExact`.
- Ids are drawn at random and may repeat. Two commands under one id can lead to wrong bytes of the
  right length being accepted from honest answers, whatever they ask for, unless the second
  asks only for the byte that the first begins with (`SharedIdMisleads`).
- `send_packet` and `recv_packet` are inverse to each other on data blocks below 2^32 bytes and on
  commands and events without payload, and on nothing else (`Framing.RoundTrip`).
- A response that ends inside its length field passes as an empty response (`DecodeStable`).
- Parameters that are not whole 32-bit words cannot be sent (`SendCommand`). The open-session command
  of src/session.rs has 6 parameter bytes, so it is one of them.

## Model

| member | source | states |
|---|---|---|
| BigEndian.BigEndianMeans | src/utils.rs:7-35 | the value of 2, 4 and 8 bytes, most significant first |
| BigEndian.Read32 | src/utils.rs:14-21 | the 32-bit reader returns the value written, wherever the digits stand |
| BigEndian.Read64 | src/utils.rs:24-35 | the same for 64 bits |
| BigEndian.Rewrite32 | src/utils.rs:43-50 | writing a value that was read gives the same four bytes back |
| BigEndian.RewriteWords | src/utils.rs:43-50 | splitting any buffer into words and writing them back changes nothing |
| BigEndian.Cursor.ReadExact | src/commands.rs:885-889 | a cursor read succeeds exactly if enough bytes are left, and returns them |
| Framing.SentLayout | src/transport.rs:65-77 | the header byte by byte, the length of data blocks, then the payload |
| Framing.DecodedLayout | src/transport.rs:178-253 | what a received frame says is what its packet holds |
| Framing.UndecodedLayout | src/transport.rs:178-253 | which bytes are an unknown type, and which short responses count |
| Framing.LossCosts | src/transport.rs:178-253 | how many bytes each kind of loss takes from the stream |
| Framing.RoundTrip | src/transport.rs:115-144 | receiving inverts sending exactly for the recoverable packets, whatever follows |
| Framing.DecodeFramed | src/transport.rs:178-253 | a framed packet of any kind, a response with its self-counting length included, is decoded whole |
| Framing.DecodeExact | src/transport.rs:178-253 | a decoded frame depends on its own bytes only |
| Framing.DecodeStable | src/transport.rs:178-253 | further bytes cannot change an outcome exactly if it is a whole frame or an unknown type |
| Framing.EventsOfFramedAll | src/transport.rs:178-253 | repeated receives over framed packets return the list in order, one frame a call |
| Framing.EventsOfFramedBursts | src/transport.rs:178-253 | the same for bursts of packets with timeouts between them |
| Demux.First | src/transport.rs:154-174 | a receive loop ends at the first outcome that matches or is a failure |
| Demux.DeliveredIsReply | src/commands.rs:830-866 | a successful collection is the whole reply of its own transaction |
| Demux.ReplyIsContent | src/commands.rs:837-862 | the reply is the content of the transaction's own blocks before the first empty one; interleaving is invisible |
| Demux.BlocksAre | src/commands.rs:844-859 | a transaction's blocks are the payloads of exactly the data packets with its id, in order |
| Demux.PayloadsAreBlocks | src/commands.rs:844-859 | what is collected over a stretch of the stream is those blocks put together |
| Transport.Connection.ReadHeader | src/transport.rs:30-62 | a header takes 6 or 8 bytes, and 4 more for a data block |
| Transport.Connection.ReadPacket | src/transport.rs:178-253 | the receiver, read by read, does what the layout says and leaves the bytes behind the frame |
| Transport.Connection.RecvPacket | src/transport.rs:178-253 | each call reports the next outcome of the stream |
| Transport.Connection.RecvPacketFiltered | src/transport.rs:147-175 | the first packet of the wanted type, or the first failure before it |
| Transport.Connection.GetResponse | src/commands.rs:631-654 | the first response with the expected id is returned if it has 8 bytes and says 0x2001; each other outcome has its own error |
| Transport.CheckResponseError | src/commands.rs:657-688 | Ok exactly for at least 8 bytes with code 0x2001, otherwise the error and its code |
| Transport.Connection.ReceiveDataBlock | src/commands.rs:830-866 | the payloads with the expected id up to the first empty one, or the first failure before it |
| Transport.Connection.SendPacket | src/transport.rs:115-144 | Ok means the whole frame was written, a failure leaves a prefix of it |
| Transport.Connection.SendPacketWithRetry | src/transport.rs:89-112 | a whole frame after at most max_retries torn copies, or max_retries + 1 torn copies |
| Commands.CommandRoundTrip | src/commands.rs:892-924 | the peer recovers opcode and parameters exactly below 65536 parameters |
| Commands.CommandLayout | src/commands.rs:910-923 | version, opcode, count and parameters byte by byte |
| Commands.ParametersUnchanged | src/commands.rs:602-611 | the parameter bytes come through the word splitting unchanged |
| Commands.PartialRoundTrip | src/commands.rs:489-504 | the camera recovers handle, 64-bit offset and length |
| Commands.HearCommand | src/commands.rs:910-923 | a peer reads a command with fewer than 65536 parameters off the stream, whatever follows |
| Commands.HearFrames | src/commands.rs:489-504 | a peer hears the requests that were written, all of them, in order and with their ranges |
| Commands.SplitWords | src/commands.rs:602-607 | splitting succeeds exactly for whole words |
| Commands.ToBytes | src/commands.rs:910-923 | the loop writes the command layout |
| Commands.SendCommand | src/commands.rs:595-628 | a bad parameter length sends nothing; otherwise the output grows by broken copies of the frame and, on Ok, the whole of it |
| Commands.GetPartialObject | src/commands.rs:477-508 | one fresh id, one command, what it adds to the output, and the data collected for it; a failure means it was not answered |
| Commands.DownloadWithRetry | src/commands.rs:441-474 | 1 to max_retries + 1 commands for one range, these alone written, only the last one answered, the others counted as retries |
| ChunkPlan.ChunkAdvances | src/commands.rs:369-377 | when a chunk is not empty, and that it is at most max(chunk_size, min_chunk_size - 1) |
| ChunkPlan.CountIsExact | src/commands.rs:366-402 | the closed form of the number of chunks, reached then and not before |
| ChunkPlan.PlanFinishes | src/commands.rs:367-377 | the plan ends exactly if the chunk size is positive or the rest is below the minimum |
| ChunkPlan.PlanFitsExact | src/commands.rs:369-384 | the closed form says exactly whether every chunk of the plan is below 2^32 |
| ChunkPlan.OffClosed | src/commands.rs:366-402 | chunk i starts i chunk sizes on; only the last chunk differs |
| ChunkPlan.OffCounts | src/commands.rs:366-402 | without a larger minimum the offsets are the multiples of the chunk size, cut at the total |
| ChunkPlan.EveryByteOnce | src/commands.rs:366-402 | every byte from the start offset on is in exactly one chunk |
| Progress.FirstDueMeans | src/commands.rs:411-413 | the checkpoint found is reached and unreported, and none is found only if there is none |
| Progress.ReportsRise | src/commands.rs:410-417 | checkpoints are reported at most once, in rising order, at rising offsets |
| Progress.NoneSkipped | src/commands.rs:410-417 | no checkpoint up to the last reported one is passed over |
| Progress.AtMostOnePerCheckpoint | src/commands.rs:410-417 | there are no more reports than checkpoints |
| Progress.SilentChunk | src/commands.rs:410-417 | a chunk is silent exactly if it reaches nothing beyond the last report |
| Decimal.ReadShow | src/commands.rs:529-531 | a saved offset reads back as itself |
| Decimal.ReadPadded | src/commands.rs:529-531 | digits read as their number whatever Unicode white space surrounds them |
| Decimal.ReadExactly | src/commands.rs:529-531 | an offset is read from exactly the numbers with optional plus sign and surrounding white space; all else is refused |
| Decimal.SpaceIsEncoded | src/commands.rs:530 | trimming knows exactly the Unicode white space |
| Decimal.ShowDigit | src/commands.rs:566 | each digit written is the number's own |
| Decimal.ShowLength | src/commands.rs:566 | no digit is missing and no zero stands in front |
| Decimal.ReadTorn | src/commands.rs:564-568 | a torn save is unreadable exactly if nothing was written |
| ResumeMachine.CheckedCases | src/commands.rs:515-561 | offset and directory for every combination of the three files, lengths written out |
| ResumeMachine.NextKeepsInv | src/commands.rs:354-433 | every step keeps the invariant and a completed target |
| ResumeMachine.RunIsSafe | src/commands.rs:345-438 | every reachable state is safe, over any attempts and crashes, each attempt with its own chunk sizes |
| ResumeMachine.CompletedTargetStays | src/commands.rs:520-525 | a target of full length is the object, has no temporary file beside it, and stays |
| ResumeMachine.TargetIsOldOrObject | src/commands.rs:427-429 | a file at the target stays as it is until the object takes its place, whole |
| ResumeMachine.UnreadableIsTorn | src/commands.rs:528-531 | the only reachable directory that is rejected for good has an empty resume file |
| ResumeMachine.UnreadableIsPermanent | src/commands.rs:530-531 | such a directory never changes again |
| ResumeMachine.TornSaveIsUnreadable | src/commands.rs:564-568 | a run from an empty directory reaches one |
| ResumeMachine.RunsJoin | src/commands.rs:345-438 | attempts one after another on one directory make one run |
| ResumeMachine.KeepsProgress | src/commands.rs:515-561 | the next attempt starts at the temporary file's end exactly if the resume file reads as its length, and at 0 otherwise |
| ResumeMachine.CrashBeforeSaveLosesAll | src/commands.rs:398-420 | a run from an empty directory ends with two chunks on disk, the first recorded, and a restart at 0 |
| ResumeMachine.FinishedTargetSurvives | src/commands.rs:427-429 | a finished target survives every run exactly if no different temporary file lies beside it |
| Workspace.Workspace.CheckResumeState | src/commands.rs:515-561 | a target counts as finished exactly at full length; offset and directory for every combination of the three files; fails only for an offset that is not text or not a number, or for the disk |
| Workspace.Workspace.RecordOffset | src/commands.rs:419-420 | saving an offset is one step of the machine and touches no other file |
| Workspace.Workspace.SaveResumeState | src/commands.rs:564-568 | the offset's digits; on failure a prefix of them, or the file as it was |
| Download.FetchChunk | src/commands.rs:379-387 | data of full length from an honest camera is the object's at that offset; a full answer has that length exactly below 2^32; a failure means no try was answered |
| Download.WriteChunk | src/commands.rs:398-399 | an appended chunk, torn or whole, is a step of the machine, and truthful if the chunk was |
| Download.KeepChunk | src/commands.rs:389-420 | length test, append, counters, report and saved offset of one round, from which the next attempt goes on |
| Download.WideChunkNeverFits | src/commands.rs:384-396 | a chunk beyond 32 bits is never met by honest data, and a full answer meets every other |
| Download.ChunkLoop | src/commands.rs:366-421 | the loop ends at the total with its books balanced, or with a named failure that something caused |
| Download.CommandsAddUp | src/commands.rs:441-474 | commands equal chunks plus retries; the bounds on retries on success and on exhaustion |
| Download.ChunksAsPlanned | src/commands.rs:366-402 | a finished download took the closed-form number of chunks |
| Download.ReportsAreOrderly | src/commands.rs:358-417 | at most one report per chunk and checkpoint, both rising |
| Download.ReportsAreTold | src/commands.rs:410-436 | intermediate callbacks carry the end of a chunk, rising, against the total; completion is told once, at the end |
| Download.OtherLengthIsReplaced | src/commands.rs:520-525 | a target of another length is fetched anew and replaced |
| Download.DownloadObjectWithResume | src/commands.rs:345-438 | refinement of the machine, safety, accounting down to the wire, the progress calls, where the next attempt goes on, exact recovery with retries |
| Download.AlwaysAnswering | src/commands.rs:441-474 | a camera that answers every command in full is among those recovery is proved for |
| Client.ServedHonestly | src/commands.rs:844-850 | with distinct ids, honest answers make honest replies however they are interleaved |
| Client.SharedIdMisleads | src/types.rs:203-205 | under one id two honest answers can run together into accepted wrong bytes of the right length |
| Client.IdsMustDiffer | src/types.rs:203-205 | honest answers are always kept as the right bytes exactly if the ids are distinct |
| Client.AnswerInTime | src/commands.rs:837-865 | a reply that arrives before any timeout is a full answer |
| Client.GetObjectInfo | src/commands.rs:199-214 | the object info in the first response to its own id, if that says 0x2001, or the failure in its place |
| Client.DownloadPhoto | src/commands.rs:256-292 | end to end: framed bytes of an honest camera to the target file, crash-safe on the way, on a connection and directory used before; the camera hears the commands in the books |
| Client.HonestCameraParts | src/commands.rs:256-292 | a camera honest about all commands of a connection is honest about those of each attempt |
| Client.DownloadInAttempts | src/commands.rs:256-292 | any number of attempts, failed ones included: where each goes on, when each leaves the object, all states safe, and a completed target stays |
| Text.ExtractString | src/transport.rs:348-362 | out of bounds exactly if the range is; otherwise what precedes the range's first NUL, or an encoding error if that is not UTF-8 |
| Text.ExtractCarried | src/commands.rs:869-882 | a NUL-free valid string is extracted unchanged |
| Text.ValidIsEncoded | src/commands.rs:880 | text is exactly what encodes Unicode scalar values |
| ResponseParsers.ParseObjectInfo | src/commands.rs:738-785 | the cursor reads the fields at their fixed places |
| ResponseParsers.ObjectInfoMeans | src/commands.rs:738-785 | fields at their places, strings cut at the first NUL; a failure names the first string out of range or not UTF-8 |
| ResponseParsers.ObjectInfoRoundTrip | src/commands.rs:738-785 | encoded object info comes back exactly if the encoding has 64 bytes |
| ResponseParsers.ObjectInfoStable | src/commands.rs:738-785 | trailing bytes do not matter |
| ResponseParsers.ParseDeviceInfo | src/transport.rs:256-298 | string table, operation list and strings at their places; too short fails |
| ResponseParsers.DeviceInfoMeans | src/transport.rs:256-298 | the same for device info and its operation list |
| ResponseParsers.DeviceInfoRoundTrip | src/transport.rs:256-298 | encoded device info comes back exactly for fewer than 65536 operations |
| ResponseParsers.DeviceInfoStable | src/transport.rs:256-298 | trailing bytes do not matter |
| ResponseParsers.ParseStorageInfo | src/transport.rs:301-345 | the cursor reads the fields at their fixed places; too short fails |
| ResponseParsers.StorageInfoMeans | src/transport.rs:301-345 | the same for storage info |
| ResponseParsers.StorageInfoRoundTrip | src/transport.rs:301-345 | encoded storage info comes back |
| ResponseParsers.StorageInfoStable | src/transport.rs:301-345 | trailing bytes do not matter |
| ResponseParsers.ParseIdList | src/commands.rs:695-713 | the loop returns the counted words, and fails exactly if they are not all there |
| ResponseParsers.IdListMeans | src/commands.rs:695-735 | which lists are read, value by value, and how the others fail |
| ResponseParsers.IdListStable | src/commands.rs:695-735 | trailing bytes do not matter |
| ResponseParsers.IdListRoundTrip | src/commands.rs:716-735 | an encoded list comes back, and no proper prefix of the encoding is accepted |
| Discovery.ParseDiscoveryResponse | src/discovery.rs:190-249 | which datagrams are cameras, and what they say |
| Text.LossyIsValid | src/discovery.rs:230 | replacement yields valid text and changes exactly what is not |
| Text.LossyReplaces | src/discovery.rs:230 | text in front stays, and what is not text becomes U+FFFD |
| Text.BadLengthMeans | src/discovery.rs:230 | one replacement stands for the longest beginning of a character, or one byte |
| Discovery.NameIsText | src/discovery.rs:229-231 | a parsed name is valid text without NULs at its ends, whatever was received |
| Discovery.CameraMeans | src/discovery.rs:190-249 | the bytes that make a datagram an answer, and its fields |
| Discovery.TrimNulsMeans | src/discovery.rs:231 | trimming takes the NULs from both ends and nothing else |
| Discovery.ResponseRoundTrip | src/discovery.rs:190-249 | a camera comes back from its answer exactly if its name is valid text without NUL at the ends |
| Discovery.TakeDatagram | src/discovery.rs:92-115 | one datagram takes both deduplications one step further |
| Discovery.FirstCamerasAre | src/discovery.rs:92-103 | exactly the cameras in datagrams before which none of the same source arrived, in order |
| Discovery.FoundAre | src/discovery.rs:92-115 | for each endpoint the camera of its earliest announcement, in order, and nothing else |
| Discovery.QuietCountMeans | src/discovery.rs:117-120 | rounds end at exactly the timeouts |
| Discovery.DiscoverCameras | src/discovery.rs:62-138 | those cameras, ten at most, taking arrivals until ten are known or every round has timed out, and not one more |
| Discovery.DistinctDiffer | src/discovery.rs:105-107 | no two results share address and port |
| Discovery.DistinctCovers | src/discovery.rs:105-107 | no address and port that answered is missing |
| Discovery.DistinctWithin | src/discovery.rs:105-107 | each result is the earliest of its address and port |
| Discovery.LongerExtends | src/discovery.rs:81-126 | more arrivals only add results at the end |

## Left out

- Wall-clock time, sleeps and the length of timeouts: timeouts are events, no bound on time is claimed.
- Resynchronisation: after a read that failed inside a frame the code goes on in the middle of the stream, and so does the model; recovery therefore assumes answers that arrive whole.
- The event listener thread, which reads the same socket: the model has one reader. `parse_event_packet` belongs to it.
- Session handling (src/session.rs), FFI, memory management, logging, hex dumps, `checksum` and `chunk_vector`.
- File handles and paths: target, temporary file and resume file are three distinct names used by one process; `exists` and `metadata` do not fail; rename is atomic.
- Computation of the checkpoints in 32-bit floats: a download takes any list of checkpoints, and the ordering results any non-decreasing one.
- Platforms other than 64-bit ones: `usize` has 64 bits.
- Discovery.DiscoverCameras: sending the requests is not modelled; the expiry of the overall timer is an arrival of nothing.
- ResponseParsers.ParseIdList: stands for `parse_storage_ids` and for `parse_object_handles`, whose bodies are the same; memory reserved for an announced count is not modelled.
- Transport.Connection: the error kinds of socket failures are reduced to one timeout error; a flush does not fail.
- Other commands of the client (storage, handles, capture, delete, close): they combine `SendCommand`, `GetResponse` and the parsers above.
