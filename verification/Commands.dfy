/** The command layer of src/commands.rs: encoding, sending, and one GetPartialObject transaction. */
module Commands {
  import opened Types
  import opened BigEndian
  import opened Framing
  import opened Demux
  import opened Transport
  import opened ChunkPlan

  const GET_OBJECT_INFO: u16 := 0x1007
  const GET_PARTIAL_OBJECT: u16 := 0x101B

  /** `PtpCommand::to_bytes`: version, opcode, parameter count cut to 16 bits, parameters. */
  function CommandBytes(opcode: u16, words: seq<u32>): (s: bytes)
    ensures |s| == 8 + 4 * |words|
  {
    Write16(0) + Write16(opcode) + Write32(|words| % 0x1_0000) + WriteWords(words)
  }

  /** Version 0, opcode, number of parameters, then these. */
  lemma CommandLayout(opcode: u16, words: seq<u32>)
    ensures CommandBytes(opcode, words)
         == [0, 0, opcode / 256, opcode % 256] + [0, 0, |words| / 256 % 256, |words| % 256] + WriteWords(words)
  {
    OpcodeLayout(opcode);
    CountLayout(|words|);
    hide Write16, Write32, WriteWords;
  }

  lemma OpcodeLayout(opcode: u16)
    ensures Write16(0) + Write16(opcode) == [0, 0, opcode / 256, opcode % 256]
  {
  }

  lemma CountLayout(n: nat)
    ensures Write32(n % 0x1_0000) == [0, 0, n / 256 % 256, n % 256]
  {
    var q, c := n / 0x1_0000, n % 0x1_0000;
    assert n == 256 * (256 * q + c / 256) + c % 256;
    assert n / 256 == 256 * q + c / 256 && n % 256 == c % 256;
    assert Write32(c) == [0, 0, c / 256, c % 256];
  }

  /** How a peer reads a command payload. */
  function DecodeCommand(s: bytes): Option<(u16, seq<u32>)>
  {
    if |s| >= 8 && |s| == 8 + 4 * U32At(s, 4)
    then Some((U16At(s, 2), WordsAt(s, 8, U32At(s, 4)))) else None
  }

  /** The peer recovers a command exactly when its parameter count fits 16 bits. */
  lemma CommandRoundTrip(opcode: u16, words: seq<u32>)
    ensures DecodeCommand(CommandBytes(opcode, words)) == Some((opcode, words)) <==> |words| < 0x1_0000
  {
    var s := CommandBytes(opcode, words);
    Read16(s, 2, opcode);
    assert s[4..8] == Write32(|words| % 0x1_0000);
    Read32(s, 4, |words| % 0x1_0000);
    assert s[8..8 + 4 * |words|] == WriteWords(words);
    ReadWords(s, 8, words);
  }

  /** The parameter bytes survive their detour through words. */
  lemma ParametersUnchanged(opcode: u16, parameters: bytes)
    requires |parameters| % 4 == 0
    ensures CommandBytes(opcode, WordsAt(parameters, 0, |parameters| / 4))
         == Write16(0) + Write16(opcode) + Write32(|parameters| / 4 % 0x1_0000) + parameters
  {
    RewriteWords(parameters, 0, |parameters| / 4);
    assert parameters[0..4 * (|parameters| / 4)] == parameters;
  }

  function PartialParameters(handle: u32, offset: u64, length: u32): (s: bytes)
    ensures |s| == 16
  {
    Write32(handle) + Write64(offset) + Write32(length)
  }

  /** The payload of a GetPartialObject command. */
  function PartialCommand(handle: u32, offset: u64, length: u32): bytes
  {
    CommandBytes(GET_PARTIAL_OBJECT, WordsAt(PartialParameters(handle, offset, length), 0, 4))
  }

  lemma PartialWords(handle: u32, offset: u64, length: u32)
    ensures WordsAt(PartialParameters(handle, offset, length), 0, 4)
         == [handle, offset / 0x1_0000_0000, offset % 0x1_0000_0000, length]
  {
    var p := PartialParameters(handle, offset, length);
    var words := [handle, offset / 0x1_0000_0000, offset % 0x1_0000_0000, length];
    assert p[0..4] == Write32(handle);
    assert p[4..8] == Write32(offset / 0x1_0000_0000);
    assert p[8..12] == Write32(offset % 0x1_0000_0000);
    assert p[12..16] == p[12..] == Write32(length);
    Read32(p, 0, words[0]);
    Read32(p, 4, words[1]);
    Read32(p, 8, words[2]);
    Read32(p, 12, words[3]);
    assert WordsAt(p, 0, 4) == words;
  }

  /** The camera reads handle, 64-bit offset and length back from the four parameter words. */
  lemma PartialRoundTrip(handle: u32, offset: u64, length: u32)
    ensures DecodeCommand(PartialCommand(handle, offset, length))
         == Some((GET_PARTIAL_OBJECT, [handle, offset / 0x1_0000_0000, offset % 0x1_0000_0000, length]))
  {
    PartialWords(handle, offset, length);
    CommandRoundTrip(GET_PARTIAL_OBJECT, [handle, offset / 0x1_0000_0000, offset % 0x1_0000_0000, length]);
  }

  /** The word-splitting loop of `send_command`. */
  method SplitWords(parameters: bytes) returns (r: Result<seq<u32>>)
    ensures r.Ok? <==> |parameters| % 4 == 0
    ensures r.Ok? ==> r.value == WordsAt(parameters, 0, |parameters| / 4)
    ensures r.Err? ==> r.error == Io(UnexpectedEof)
  {
    var words: seq<u32> := [];
    var cursor := new Cursor(parameters);
    while cursor.position < |parameters|
      invariant fresh(cursor) && cursor.data == parameters
      invariant cursor.position == 4 * |words| <= |parameters|
      invariant words == WordsAt(parameters, 0, |words|)
      decreases |parameters| - cursor.position
    {
      var word :- cursor.ReadU32();
      words := words + [word];
    }
    return Ok(words);
  }

  /** `PtpCommand::to_bytes`. */
  method ToBytes(opcode: u16, words: seq<u32>) returns (s: bytes)
    ensures s == CommandBytes(opcode, words)
  {
    var count := |words| % 0x1_0000;
    s := Write16(0x0000) + Write16(opcode) + Write32(count);
    ghost var header := s;
    for i := 0 to |words|
      invariant s == header + WriteWords(words[..i])
    {
      s := s + Write32(words[i]);
      assert words[..i + 1][..i] == words[..i];
    }
    assert words[..|words|] == words;
  }

  /** The frame of a command whose parameters are whole words. */
  function CommandFrame(opcode: u16, id: u32, parameters: bytes): bytes
    requires |parameters| % 4 == 0
  {
    SentBytes(Packet(CommandBlock, id, CommandBytes(opcode, WordsAt(parameters, 0, |parameters| / 4))))
  }

  ghost predicate NeverBreaks(conn: Connection) {
    forall n :: conn.writes(n).None?
  }

  /**
   `send_command`: nothing is sent for parameters that are not whole words; otherwise the frame is,
   after broken copies of it if writes break, or broken copies alone.
   */
  method SendCommand(conn: Connection, opcode: u16, id: u32, parameters: bytes, config: SessionConfig)
    returns (r: Result<()>)
    modifies conn`outgoing, conn`writesDone
    ensures |parameters| % 4 != 0 ==> r == Err(Io(UnexpectedEof)) && conn.outgoing == old(conn.outgoing)
    ensures |parameters| % 4 == 0 ==>
              && (r.Err? ==> r.error == SendFailed)
              && Transmitted(old(conn.outgoing), conn.outgoing, CommandFrame(opcode, id, parameters),
                             config.maxRetries, r.Ok?)
    ensures |parameters| % 4 == 0 && NeverBreaks(conn) ==>
              r.Ok? && conn.outgoing == old(conn.outgoing) + CommandFrame(opcode, id, parameters)
  {
    hide SentBytes, Torn, CutsOf, Transmitted, CommandBytes, WordsAt;
    var words :- SplitWords(parameters);
    var payload := ToBytes(opcode, words);
    r := conn.SendPacketWithRetry(Packet(CommandBlock, id, payload), config);
  }

  predicate NetworkError(e: Error) {
    e == Io(TimedOut) || e == ProtocolError(UnknownMessageType) || e == SendFailed
  }

  /** The stream holds a complete answer to a request, with no loss on the way. */
  ghost predicate Answered(events: seq<Event>, q: Request) {
    exists data :: Delivered(events, q, data)
  }

  /** The frame of a request. */
  function PartialFrame(q: Request): bytes
  {
    SentBytes(Packet(CommandBlock, q.id, PartialCommand(q.handle, q.offset, q.length)))
  }

  /** The frames of requests, one after another. */
  function FramesOf(log: seq<Request>): bytes
  {
    if log == [] then [] else PartialFrame(log[0]) + FramesOf(log[1..])
  }

  lemma {:induction false} FramesConcat(a: seq<Request>, b: seq<Request>)
    ensures FramesOf(a + b) == FramesOf(a) + FramesOf(b)
  {
    hide FramesOf, PartialFrame;
    FramesFirst([]);
    if a == [] {
      assert a + b == b && FramesOf(b) == [] + FramesOf(b);
    } else {
      var rest := a[1..];
      FramesConcat(rest, b);
      assert (a + b)[1..] == rest + b && (a + b)[0] == a[0];
      FramesFirst(a);
      FramesFirst(a + b);
      Joined(PartialFrame(a[0]), FramesOf(rest), FramesOf(b));
    }
  }

  lemma Joined(a: bytes, b: bytes, c: bytes)
    ensures a + (b + c) == a + b + c
  {
  }

  lemma FramesFirst(log: seq<Request>)
    ensures FramesOf(log) == if log == [] then [] else PartialFrame(log[0]) + FramesOf(log[1..])
  {
  }

  /** What has been written is what was there before and the frames of these requests. */
  predicate Wired(before: bytes, after: bytes, log: seq<Request>) {
    after == before + FramesOf(log)
  }

  lemma WiredOn(a: bytes, b: bytes, c: bytes, log: seq<Request>, more: seq<Request>)
    requires Wired(a, b, log) && Wired(b, c, more)
    ensures Wired(a, c, log + more)
  {
    FramesConcat(log, more);
    hide FramesOf;
  }

  lemma WiredOne(a: bytes, b: bytes, q: Request)
    ensures Wired(a, a, [])
    ensures b == a + PartialFrame(q) ==> Wired(a, b, [q])
  {
    hide PartialFrame;
    assert FramesOf([q]) == PartialFrame(q) + FramesOf([]);
  }

  // ---------- what the camera hears ----------

  datatype Heard = Heard(id: u32, opcode: u16, parameters: seq<u32>)

  /** How a peer reads the commands in a stream; each is as long as its parameter count says. */
  function Hear(s: bytes): seq<Heard>
  {
    if |s| < 16 || U16At(s, 0) != TypeCode(CommandBlock) || |s| < 16 + 4 * U32At(s, 12) then [] else
    var n := U32At(s, 12);
    [Heard(U32At(s, 4), U16At(s, 10), WordsAt(s, 16, n))] + Hear(s[16 + 4 * n..])
  }

  lemma CommandParts(opcode: u16, words: seq<u32>)
    requires |words| < 0x1_0000
    ensures var s := CommandBytes(opcode, words);
            s[2..4] == Write16(opcode) && s[4..8] == Write32(|words|) && s[8..] == WriteWords(words)
  {
    hide Write16, Write32, WriteWords;
    assert |words| % 0x1_0000 == |words|;
    FourParts(Write16(0), Write16(opcode), Write32(|words|), WriteWords(words));
  }

  lemma FourParts(a: bytes, b: bytes, c: bytes, d: bytes)
    requires |a| == |b| == 2 && |c| == 4
    ensures var s := a + b + c + d; s[..2] == a && s[2..4] == b && s[4..8] == c && s[8..] == d
  {
    var s := a + b + c + d;
    assert s == a + (b + c + d) == a + b + (c + d);
  }

  lemma HearNext(s: bytes)
    requires |s| >= 16 && U16At(s, 0) == TypeCode(CommandBlock) && |s| >= 16 + 4 * U32At(s, 12)
    ensures var n := U32At(s, 12);
            Hear(s) == [Heard(U32At(s, 4), U16At(s, 10), WordsAt(s, 16, n))] + Hear(s[16 + 4 * n..])
  {
  }

  lemma SubSlice(s: bytes, from: nat, part: bytes, i: nat, j: nat)
    requires from + |part| <= |s| && s[from..from + |part|] == part && i <= j <= |part|
    ensures s[from + i..from + j] == part[i..j]
  {
    forall k | 0 <= k < j - i ensures s[from + i..from + j][k] == part[i..j][k] {
      assert part[i + k] == s[from..from + |part|][i + k] == s[from + (i + k)];
    }
  }

  lemma HearCommand(id: u32, opcode: u16, words: seq<u32>, rest: bytes)
    requires |words| < 0x1_0000
    ensures Hear(SentBytes(Packet(CommandBlock, id, CommandBytes(opcode, words))) + rest)
         == [Heard(id, opcode, words)] + Hear(rest)
  {
    var payload := CommandBytes(opcode, words);
    var s := SentBytes(Packet(CommandBlock, id, payload)) + rest;
    CommandParts(opcode, words);
    hide HeaderBytes, CommandBytes, U16At, U32At, Write16, Write32, WriteWords, WordsAt, Hear;
    DecodeHeader(s, CommandBlock, id, |payload|);
    assert s[8..8 + |payload|] == payload && payload[8..] == payload[8..|payload|];
    SubSlice(s, 8, payload, 2, 4);
    Read16(s, 10, opcode);
    SubSlice(s, 8, payload, 4, 8);
    Read32(s, 12, |words|);
    SubSlice(s, 8, payload, 8, |payload|);
    ReadWords(s, 16, words);
    assert s[16 + 4 * |words|..] == rest;
    HearNext(s);
  }

  /** A request as the camera hears it: handle, the two halves of the offset, and the length. */
  function Said(q: Request): Heard
  {
    Heard(q.id, GET_PARTIAL_OBJECT, [q.handle, q.offset / 0x1_0000_0000, q.offset % 0x1_0000_0000, q.length])
  }

  function AllSaid(log: seq<Request>): (said: seq<Heard>)
    ensures |said| == |log|
  {
    seq(|log|, i requires 0 <= i < |log| => Said(log[i]))
  }

  /** The id and the range in a command that was heard. */
  function Understood(h: Heard): Option<(u32, Range)>
  {
    if h.opcode == GET_PARTIAL_OBJECT && |h.parameters| == 4 then
      Some((h.id, Range(h.parameters[0], h.parameters[1] as int * 0x1_0000_0000 + h.parameters[2] as int,
                        h.parameters[3])))
    else None
  }

  /** The camera hears the requests that were sent, all of them and in order. */
  lemma {:induction false} HearFrames(log: seq<Request>)
    ensures Hear(FramesOf(log)) == AllSaid(log)
    ensures forall i | 0 <= i < |log| :: Understood(AllSaid(log)[i]) == Some((log[i].id, RangeOf(log[i])))
  {
    hide Hear, PartialFrame, Said, Understood;
    if log == [] {
      assert FramesOf(log) == [];
      HearNothing();
    } else {
      HearFrames(log[1..]);
      HearRequest(log[0], FramesOf(log[1..]));
      assert AllSaid(log) == [Said(log[0])] + AllSaid(log[1..]);
    }
  }

  lemma HearNothing()
    ensures Hear([]) == []
  {
  }

  lemma HearRequest(q: Request, rest: bytes)
    ensures Hear(PartialFrame(q) + rest) == [Said(q)] + Hear(rest)
    ensures Understood(Said(q)) == Some((q.id, RangeOf(q)))
  {
    hide Hear, SentBytes, CommandBytes, PartialParameters;
    PartialWords(q.handle, q.offset, q.length);
    HearCommand(q.id, GET_PARTIAL_OBJECT, Said(q).parameters, rest);
  }

  /**
   One try at a request: its frame is sent, as far as writes allow, and if it is, the stream is
   consumed up to the end of its data or a loss.
   */
  ghost predicate Tried(q: Request, session: SessionConfig, before: bytes, after: bytes, events: seq<Event>,
                        consumed: nat, r: Result<bytes>)
    requires q.at <= |events|
  {
    var sent := r != Err(SendFailed);
    && Transmitted(before, after, PartialFrame(q), session.maxRetries, sent)
    && consumed == if sent then Past(events, First(events, q.at, EndOfData(q.id))) else q.at
  }

  /** `get_partial_object`: one transaction with a fresh id. */
  method GetPartialObject(conn: Connection, handle: u32, offset: u64, length: u32, config: SessionConfig)
    returns (r: Result<bytes>, ghost q: Request)
    requires conn.Valid()
    modifies conn
    ensures conn.Valid() && old(conn.consumed) <= conn.consumed
    ensures q == Request(conn.ids(old(conn.idsDrawn)), handle, offset, length, old(conn.consumed))
    ensures conn.log == old(conn.log) + [q] && conn.idsDrawn == old(conn.idsDrawn) + 1
    ensures Tried(q, config, old(conn.outgoing), conn.outgoing, conn.timeline, conn.consumed, r)
    ensures NeverBreaks(conn) ==> r != Err(SendFailed) && conn.outgoing == old(conn.outgoing) + PartialFrame(q)
    ensures r.Ok? ==> Delivered(conn.timeline, q, r.value) && old(conn.consumed) < conn.consumed
    ensures r.Err? ==> NetworkError(r.error) && (NeverBreaks(conn) ==> !Answered(conn.timeline, q))
  {
    hide Events, Payloads, SentBytes, CommandBytes, Write32, Write64, Transmitted;
    var id := conn.DrawId();
    q := Request(id, handle, offset, length, conn.consumed);
    conn.log := conn.log + [q];
    var parameters := Write32(handle) + Write64(offset) + Write32(length);
    var sent := SendCommand(conn, GET_PARTIAL_OBJECT, id, parameters, config);
    if sent.Err? {
      return Err(sent.error), q;
    }
    r := conn.ReceiveDataBlock(id);
  }

  /** `DownloadStats`. */
  class DownloadStats {
    var totalBytes: u64
    var downloadedBytes: u64
    var chunks: nat
    var retries: nat

    constructor ()
      ensures totalBytes == 0 && downloadedBytes == 0 && chunks == 0 && retries == 0
    {
      totalBytes, downloadedBytes, chunks, retries := 0, 0, 0, 0;
    }
  }

  /** What a GetPartialObject command asks for. */
  datatype Range = Range(handle: u32, offset: nat, length: u32)

  function RangeOf(q: Request): Range
  {
    Range(q.handle, q.offset, q.length)
  }

  function Ranges(log: seq<Request>): (ranges: seq<Range>)
    ensures |ranges| == |log|
  {
    seq(|log|, i requires 0 <= i < |log| => RangeOf(log[i]))
  }

  ghost predicate NoneAnswered(events: seq<Event>, log: seq<Request>) {
    forall i | 0 <= i < |log| :: !Answered(events, log[i])
  }

  lemma NothingTried(events: seq<Event>, range: Range)
    ensures Ranges([]) == Repeat(range, 0) && NoneAnswered(events, [])
  {
  }

  lemma TriedSnoc(events: seq<Event>, tried: seq<Request>, q: Request)
    ensures (tried + [q])[..|tried|] == tried
    ensures Ranges(tried) == Repeat(RangeOf(q), |tried|) ==> Ranges(tried + [q]) == Repeat(RangeOf(q), |tried| + 1)
    ensures NoneAnswered(events, tried) && !Answered(events, q) ==> NoneAnswered(events, tried + [q])
  {
    hide Answered;
    assert Ranges(tried + [q]) == Ranges(tried) + [RangeOf(q)];
    assert Repeat(RangeOf(q), |tried| + 1) == Repeat(RangeOf(q), |tried|) + [RangeOf(q)];
  }

  /** One round of `download_with_retry`: the try, entered among those made. */
  method TryPartialObject(conn: Connection, handle: u32, offset: u64, length: u32, config: SessionConfig,
                          ghost before: seq<Request>, ghost written: bytes, ghost tried: seq<Request>)
    returns (r: Result<bytes>, ghost tried': seq<Request>)
    requires conn.Valid() && conn.log == before + tried
    requires Ranges(tried) == Repeat(Range(handle, offset, length), |tried|)
    requires NeverBreaks(conn) ==> NoneAnswered(conn.timeline, tried) && Wired(written, conn.outgoing, tried)
    modifies conn
    ensures conn.Valid() && old(conn.consumed) <= conn.consumed
    ensures |tried'| == |tried| + 1 && tried'[..|tried|] == tried && conn.log == before + tried'
    ensures RangeOf(tried'[|tried|]) == Range(handle, offset, length)
    ensures Ranges(tried') == Repeat(Range(handle, offset, length), |tried'|)
    ensures NeverBreaks(conn) ==> Wired(written, conn.outgoing, tried')
    ensures r.Ok? ==> Delivered(conn.timeline, tried'[|tried|], r.value) && old(conn.consumed) < conn.consumed
    ensures r.Err? ==> NetworkError(r.error) && (NeverBreaks(conn) ==> NoneAnswered(conn.timeline, tried'))
  {
    hide Ranges, Repeat, Delivered, Answered, NoneAnswered, Tried, PartialFrame, Wired;
    ghost var q;
    r, q := GetPartialObject(conn, handle, offset, length, config);
    TriedSnoc(conn.timeline, tried, q);
    WiredOne(old(conn.outgoing), conn.outgoing, q);
    if NeverBreaks(conn) {
      WiredOn(written, old(conn.outgoing), conn.outgoing, tried, [q]);
    }
    tried' := tried + [q];
  }

  /**
   `download_with_retry`: up to `maxRetries + 1` transactions for the same range, `tried`, of
   which all but a last successful one are counted as retries.
   */
  method DownloadWithRetry(conn: Connection, handle: u32, offset: u64, length: u32, config: SessionConfig,
                           stats: DownloadStats)
    returns (r: Result<bytes>, ghost tried: seq<Request>)
    requires conn.Valid()
    modifies conn, stats`retries
    ensures conn.Valid() && old(conn.consumed) <= conn.consumed
    ensures conn.log == old(conn.log) + tried && 1 <= |tried| <= config.maxRetries + 1
    ensures Ranges(tried) == Repeat(Range(handle, offset, length), |tried|)
    ensures RangeOf(tried[|tried| - 1]) == Range(handle, offset, length)
    ensures NeverBreaks(conn) ==> && NoneAnswered(conn.timeline, tried[..|tried| - 1])
                                  && Wired(old(conn.outgoing), conn.outgoing, tried)
    ensures r.Ok? ==> && Delivered(conn.timeline, tried[|tried| - 1], r.value)
                      && old(conn.consumed) < conn.consumed
                      && stats.retries == old(stats.retries) + |tried| - 1
    ensures r.Err? ==> && |tried| == config.maxRetries + 1
                       && stats.retries == old(stats.retries) + |tried|
                       && NetworkError(r.error)
                       && (NeverBreaks(conn) ==> NoneAnswered(conn.timeline, tried))
  {
    var retries := 0;
    tried := [];
    hide Ranges, Repeat, Delivered, NoneAnswered, Wired;
    WiredOne(conn.outgoing, [], Request(0, 0, 0, 0, 0));
    NothingTried(conn.timeline, Range(handle, offset, length));
    while true
      invariant conn.Valid() && old(conn.consumed) <= conn.consumed
      invariant retries == |tried| <= config.maxRetries
      invariant stats.retries == old(stats.retries) + retries
      invariant conn.log == old(conn.log) + tried
      invariant Ranges(tried) == Repeat(Range(handle, offset, length), |tried|)
      invariant NeverBreaks(conn) ==> && NoneAnswered(conn.timeline, tried)
                                      && Wired(old(conn.outgoing), conn.outgoing, tried)
      decreases config.maxRetries - retries
    {
      r, tried := TryPartialObject(conn, handle, offset, length, config, old(conn.log), old(conn.outgoing), tried);
      if r.Ok? {
        return;
      }
      retries := retries + 1;
      stats.retries := stats.retries + 1;
      if retries > config.maxRetries {
        return;
      }
    }
  }
}
