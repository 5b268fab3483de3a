/** The socket of src/transport.rs and its receive and send loops, for a single reader. */
module Transport {
  import opened Types
  import opened BigEndian
  import opened Framing
  import opened Demux

  datatype Header = Header(code: u16, id: u32, payloadLength: u32)

  /**
   A connected stream.  What the peer sends is fixed beforehand in `incoming`; which socket writes
   break off, and after how many bytes, in `writes`; the random transaction ids in `ids`.
   */
  class Connection {
    var incoming: Wire
    var outgoing: bytes
    const writes: nat -> Option<nat>
    var writesDone: nat
    const ids: nat -> u32
    var idsDrawn: nat

    // Everything the receive calls will ever report, how much of it they have reported, and the
    // GetPartialObject commands that went out on the way.
    ghost const timeline: seq<Event>
    ghost var consumed: nat
    ghost var log: seq<Request>

    constructor (incoming: Wire, writes: nat -> Option<nat>, ids: nat -> u32)
      ensures Valid() && this.incoming == incoming && this.writes == writes && this.ids == ids
      ensures timeline == Events(incoming) && consumed == 0 && log == [] && outgoing == []
    {
      this.incoming, this.writes, this.ids := incoming, writes, ids;
      outgoing, writesDone, idsDrawn := [], 0, 0;
      timeline, consumed, log := Events(incoming), 0, [];
    }

    ghost predicate Valid()
      reads this
    {
      consumed <= |timeline| && Events(incoming) == timeline[consumed..]
    }

    /** `read_exact`: all `n` bytes, or the rest of the burst is lost to a timeout. */
    method ReadExact(n: nat) returns (r: Result<bytes>)
      modifies this`incoming
      ensures n == 0 ==> r == Ok([]) && incoming == old(incoming)
      ensures n > 0 && old(incoming) == [] ==> r == Err(Io(TimedOut)) && incoming == []
      ensures n > 0 && old(incoming) != [] && n <= |old(incoming)[0]| ==>
                r == Ok(old(incoming)[0][..n])
                && incoming == [old(incoming)[0][n..]] + old(incoming)[1..]
      ensures n > 0 && old(incoming) != [] && n > |old(incoming)[0]| ==>
                r == Err(Io(TimedOut)) && incoming == old(incoming)[1..]
    {
      if n == 0 {
        return Ok([]);
      }
      if incoming == [] {
        return Err(Io(TimedOut));
      }
      var burst := incoming[0];
      if n > |burst| {
        incoming := incoming[1..];
        return Err(Io(TimedOut));
      }
      incoming := [burst[n..]] + incoming[1..];
      return Ok(burst[..n]);
    }

    /** `PtpIpHeader::from_stream`, for a message type that may have been read already. */
    method ReadHeader(known: Option<u16>) returns (r: Result<Header>)
      requires incoming != []
      modifies this`incoming
      ensures var skip := if known.Some? then 0 else 2;
              var s := old(incoming)[0];
              if |s| < skip + 6 then r == Err(Io(TimedOut)) && incoming == old(incoming)[1..] else
              var code := if known.Some? then known.value else U16At(s, 0);
              var id := U32At(s, skip + 2);
              if code != TypeCode(DataBlock) then
                r == Ok(Header(code, id, 0)) && incoming == [s[skip + 6..]] + old(incoming)[1..]
              else if |s| < skip + 10 then r == Err(Io(TimedOut)) && incoming == old(incoming)[1..]
              else r == Ok(Header(code, id, U32At(s, skip + 6)))
                   && incoming == [s[skip + 10..]] + old(incoming)[1..]
    {
      ghost var s := incoming[0];
      ghost var skip := if known.Some? then 0 else 2;
      var h :- ReadExact(if known.Some? then 6 else 8);
      assert incoming == [s[skip + 6..]] + old(incoming)[1..];
      var code := if known.Some? then known.value else U16At(h, 0);
      var id := U32At(h, if known.Some? then 2 else 4);
      if code == TypeCode(DataBlock) {
        var l :- ReadExact(4);
        assert s[skip + 6..][..4] == s[skip + 6..skip + 10];
        assert U32At(l, 0) == U32At(s, skip + 6);
        assert s[skip + 6..][4..] == s[skip + 10..];
        return Ok(Header(code, id, U32At(l, 0)));
      }
      return Ok(Header(code, id, 0));
    }

    /** The rest of a response after its header: a length that counts itself, and the body. */
    method ReadResponseBody() returns (r: Result<bytes>)
      requires incoming != []
      modifies this`incoming
      ensures var s := old(incoming)[0];
              if |s| < 4 then r == Ok([]) && incoming == old(incoming)[1..]
              else if U32At(s, 0) < 4 then r == Ok([]) && incoming == [s[4..]] + old(incoming)[1..]
              else if |s| < U32At(s, 0) then r == Err(Io(TimedOut)) && incoming == old(incoming)[1..]
              else r == Ok(s[4..U32At(s, 0)]) && incoming == [s[U32At(s, 0)..]] + old(incoming)[1..]
    {
      ghost var s := incoming[0];
      var l := ReadExact(4);
      if l.Err? {
        return Ok([]);
      }
      var total := U32At(l.value, 0);
      assert U32At(s[..4], 0) == U32At(s, 0);
      if total < 4 {
        return Ok([]);
      }
      assert total <= |s| ==> s[4..][..total - 4] == s[4..total] && s[4..][total - 4..] == s[total..];
      assert total == 4 ==> s[4..total] == [];
      r := ReadExact(total - 4);
    }

    /** The payload of a data block, as long as its header says. */
    method ReadPayload(length: nat) returns (r: Result<bytes>)
      requires incoming != []
      modifies this`incoming
      ensures var s := old(incoming)[0];
              if length <= |s| then r == Ok(s[..length]) && incoming == [s[length..]] + old(incoming)[1..]
              else r == Err(Io(TimedOut)) && incoming == old(incoming)[1..]
    {
      if length > 0 {
        r := ReadExact(length);
      } else {
        assert incoming == [incoming[0][0..]] + incoming[1..];
        r := Ok([]);
      }
    }

    /** One receive from the bytes of a burst. */
    method ReadPacket() returns (r: Result<Packet>)
      requires incoming != []
      modifies this`incoming
      ensures r == match Receive(old(incoming)).0
                   case Got(p) => Ok(p)
                   case Lost(loss) => Err(ErrorOf(loss))
      ensures incoming == Receive(old(incoming)).1
    {
      ghost var s, later := incoming[0], incoming[1..];
      var t :- ReadExact(2);
      var header :- ReadHeader(Some(U16At(t, 0)));
      Offsets(s);
      match header.code {
        case 0x0003 =>
          return Ok(Packet(CommandBlock, header.id, []));
        case 0x0006 =>
          return Ok(Packet(EventBlock, header.id, []));
        case 0x0004 =>
          var payload :- ReadPayload(header.payloadLength);
          return Ok(Packet(DataBlock, header.id, payload));
        case 0x0005 =>
          var payload :- ReadResponseBody();
          return Ok(Packet(ResponseBlock, header.id, payload));
        case _ =>
          return Err(ProtocolError(UnknownMessageType));
      }
    }

    /** `recv_packet`: the next outcome of the timeline, whatever it is. */
    method RecvPacket() returns (r: Result<Packet>)
      requires Valid()
      modifies this`incoming, this`consumed
      ensures Valid()
      ensures r == OutcomeAt(timeline, old(consumed))
      ensures consumed == Past(timeline, old(consumed))
    {
      if incoming == [] {
        return Err(Io(TimedOut));
      }
      assert Events(incoming) == [Receive(incoming).0] + Events(Receive(incoming).1);
      assert timeline[consumed] == Events(incoming)[0];
      assert timeline[consumed + 1..] == timeline[consumed..][1..];
      r := ReadPacket();
      consumed := consumed + 1;
    }

    /** `recv_packet_filtered`; a timer that expires between packets is a burst boundary. */
    method RecvPacketFiltered(interest: Interest) returns (r: Result<Packet>)
      requires Valid()
      requires interest.Any? || interest.OfKind?
      modifies this`incoming, this`consumed
      ensures Valid()
      ensures var k := First(timeline, old(consumed), interest);
              r == OutcomeAt(timeline, k) && consumed == Past(timeline, k)
      ensures interest.OfKind? ==> FirstOfKind(timeline, old(consumed), interest.kind, r, consumed)
    {
      if interest.OfKind? {
        KindIsFirst(timeline, consumed, interest.kind);
      }
      hide FirstOfKind;
      while true
        invariant Valid() && old(consumed) <= consumed
        invariant forall j | old(consumed) <= j < consumed :: !Stops(timeline[j], interest)
        decreases |timeline| - consumed
      {
        ghost var before := consumed;
        FirstSkips(timeline, old(consumed), consumed, interest);
        var packet :- RecvPacket();
        if interest.OfKind? && packet.kind != interest.kind {
          continue;
        }
        return Ok(packet);
      }
    }

    /** `get_response`: the first response with the expected id, if it says OK. */
    method GetResponse(id: u32) returns (r: Result<Packet>)
      requires Valid()
      modifies this`incoming, this`consumed
      ensures Valid()
      ensures var k := First(timeline, old(consumed), ResponseTo(id));
              consumed == Past(timeline, k)
              && r == Verdict(OutcomeAt(timeline, k))
      ensures FirstAnswer(timeline, old(consumed), id, r, consumed)
    {
      AnswerIsFirst(timeline, consumed, id);
      hide First, FirstAnswer, FirstOfKind, Events;
      ghost var end := First(timeline, consumed, ResponseTo(id));
      while true
        invariant Valid() && First(timeline, consumed, ResponseTo(id)) == end
        decreases |timeline| - consumed
      {
        ghost var from := consumed;
        var packet := RecvPacketFiltered(OfKind(ResponseBlock));
        ResponseStep(timeline, from, id, packet, consumed);
        if packet.Err? {
          return Err(packet.error);
        }
        if packet.value.id != id {
          continue;
        }
        var _ :- CheckResponseError(packet.value);
        return packet;
      }
    }

    /** `receive_data_block`: the data blocks with the expected id, up to an empty one. */
    method ReceiveDataBlock(id: u32) returns (r: Result<bytes>)
      requires Valid()
      modifies this`incoming, this`consumed
      ensures Valid()
      ensures var k := First(timeline, old(consumed), EndOfData(id));
              consumed == Past(timeline, k)
              && r == match OutcomeAt(timeline, k)
                      case Err(e) => Err(e)
                      case Ok(_) => Ok(Payloads(timeline, old(consumed), k, id))
      ensures Collected(timeline, old(consumed), id, r, consumed)
    {
      DataIsCollected(timeline, consumed, id);
      hide Collected, FirstOfKind;
      var total: bytes := [];
      ghost var start, end := consumed, First(timeline, consumed, EndOfData(id));
      while true
        invariant Valid() && start <= consumed
        invariant First(timeline, consumed, EndOfData(id)) == end
        invariant total == Payloads(timeline, start, consumed, id)
        decreases |timeline| - consumed
      {
        ghost var from := consumed;
        var packet := RecvPacketFiltered(OfKind(DataBlock));
        DataStep(timeline, start, from, id, packet, consumed);
        if packet.Err? {
          return Err(packet.error);
        }
        if packet.value.id != id {
          continue;
        }
        if packet.value.payload == [] {
          break;
        }
        total := total + packet.value.payload;
      }
      return Ok(total);
    }

    // ---------- sending ----------

    method Write(data: bytes) returns (r: Result<()>)
      modifies this`outgoing, this`writesDone
      ensures writesDone == old(writesDone) + 1
      ensures r.Ok? <==> writes(old(writesDone)).None?
      ensures r.Ok? ==> outgoing == old(outgoing) + data
      ensures r.Err? ==> exists cut: nat | cut <= |data| :: outgoing == old(outgoing) + data[..cut]
    {
      var outcome := writes(writesDone);
      writesDone := writesDone + 1;
      if outcome.Some? {
        var cut := if outcome.value < |data| then outcome.value else |data|;
        outgoing := outgoing + data[..cut];
        return Err(Io(TimedOut));
      }
      outgoing := outgoing + data;
      return Ok(());
    }

    /** `send_packet`: header, then payload; a failure may leave any prefix of them written. */
    method SendPacket(p: Packet) returns (r: Result<()>, ghost cut: nat)
      modifies this`outgoing, this`writesDone
      ensures cut <= |SentBytes(p)| && outgoing == old(outgoing) + SentBytes(p)[..cut]
      ensures r.Ok? ==> cut == |SentBytes(p)|
      ensures r.Err? ==> exists n | old(writesDone) <= n < writesDone :: writes(n).Some?
      ensures old(writesDone) <= writesDone
    {
      hide HeaderBytes, SentBytes;
      SentSplits(p);
      var header := HeaderBytes(p.kind, p.id, |p.payload|);
      var w := Write(header);
      if w.Err? {
        ghost var c: nat :| c <= |header| && outgoing == old(outgoing) + header[..c];
        return w, c;
      }
      if p.payload != [] {
        ghost var sent := outgoing;
        w := Write(p.payload);
        if w.Err? {
          ghost var c: nat :| c <= |p.payload| && outgoing == sent + p.payload[..c];
          return w, |header| + c;
        }
      }
      return Ok(()), |SentBytes(p)|;
    }

    /**
     `send_packet_with_retry`: on success the frame is written whole after at most `maxRetries`
     broken copies of it; on failure there are `maxRetries + 1` of them.
     */
    method SendPacketWithRetry(p: Packet, config: SessionConfig) returns (r: Result<()>)
      modifies this`outgoing, this`writesDone
      ensures Transmitted(old(outgoing), outgoing, SentBytes(p), config.maxRetries, r.Ok?)
      ensures r.Err? ==> r.error == SendFailed
      ensures (forall n :: writes(n).None?) ==> r.Ok? && outgoing == old(outgoing) + SentBytes(p)
    {
      hide SentBytes, Torn, CutsOf, Transmitted;
      ghost var frame, before := SentBytes(p), outgoing;
      TornNone(frame);
      var retries := 0;
      ghost var cuts := [];
      while true
        invariant retries == |cuts| <= config.maxRetries && old(writesDone) <= writesDone
        invariant cuts != [] ==> exists n :: writes(n).Some?
        invariant CutsOf(frame, cuts) && outgoing == before + Torn(frame, cuts)
        decreases config.maxRetries - retries
      {
        var sent, cut := SendPacket(p);
        if sent.Ok? {
          WholeAfter(before, frame, cuts, config.maxRetries);
          return Ok(());
        }
        TornSnoc(before, frame, cuts, cut);
        cuts := cuts + [cut];
        retries := retries + 1;
        if retries > config.maxRetries {
          BrokenOnly(before, frame, cuts, config.maxRetries);
          return Err(SendFailed);
        }
      }
    }

    /** `generate_transaction_id`. */
    method DrawId() returns (id: u32)
      modifies this`idsDrawn
      ensures id == ids(old(idsDrawn)) && idsDrawn == old(idsDrawn) + 1
    {
      id := ids(idsDrawn);
      idsDrawn := idsDrawn + 1;
    }
  }

  /** The places of a frame's fields, seen from after its type and from after its header. */
  lemma Offsets(s: bytes)
    ensures |s| >= 2 ==> U16At(s[..2], 0) == U16At(s, 0)
    ensures |s| >= 8 ==> U32At(s[2..], 2) == U32At(s, 4) && s[2..][6..] == s[8..]
    ensures |s| >= 12 ==> && U32At(s[2..], 6) == U32At(s, 8) && s[2..][10..] == s[12..]
                          && U32At(s[8..], 0) == U32At(s, 8) && s[8..][4..] == s[12..]
    ensures forall n | 12 <= 12 + n <= |s| :: s[12..][..n] == s[12..12 + n] && s[12..][n..] == s[12 + n..]
    ensures forall n | 4 <= n && 8 + n <= |s| :: s[8..][4..n] == s[12..8 + n] && s[8..][n..] == s[8 + n..]
  {
    forall n | 12 <= 12 + n <= |s| ensures s[12..][..n] == s[12..12 + n] && s[12..][n..] == s[12 + n..] {
      SliceOfTail(s, 12, 0, n);
    }
    forall n | 4 <= n && 8 + n <= |s| ensures s[8..][4..n] == s[12..8 + n] && s[8..][n..] == s[8 + n..] {
      SliceOfTail(s, 8, 4, n);
    }
    if |s| >= 8 {
      SliceOfTail(s, 2, 0, 6);
    }
    if |s| >= 12 {
      SliceOfTail(s, 2, 0, 10);
      SliceOfTail(s, 8, 0, 4);
    }
  }

  lemma SliceOfTail(s: bytes, from: nat, i: nat, j: nat)
    requires i <= j && from + j <= |s|
    ensures s[from..][i..j] == s[from + i..from + j] && s[from..][j..] == s[from + j..]
  {
    var tail := s[from..];
    assert |tail[i..j]| == |s[from + i..from + j]| && |tail[j..]| == |s[from + j..]|;
    forall k | 0 <= k < j - i ensures tail[i..j][k] == s[from + i..from + j][k] {
      assert tail[i + k] == s[from + (i + k)];
    }
    forall k | 0 <= k < |tail[j..]| ensures tail[j..][k] == s[from + j..][k] {
      assert tail[j + k] == s[from + (j + k)];
    }
  }

  /** The broken copies of a frame that failed writes leave behind. */
  function Torn(frame: bytes, cuts: seq<nat>): bytes
    requires CutsOf(frame, cuts)
  {
    if cuts == [] then [] else Torn(frame, cuts[..|cuts| - 1]) + frame[..cuts[|cuts| - 1]]
  }

  /**
   What sending a frame with retries adds to the output: broken copies of it, then the whole frame
   if there were at most `maxRetries` of them.
   */
  ghost predicate Transmitted(before: bytes, after: bytes, frame: bytes, maxRetries: nat, whole: bool) {
    exists cuts: seq<nat> | CutsOf(frame, cuts) ::
      if whole then |cuts| <= maxRetries && after == before + Torn(frame, cuts) + frame
      else |cuts| == maxRetries + 1 && after == before + Torn(frame, cuts)
  }

  predicate CutsOf(frame: bytes, cuts: seq<nat>) {
    forall i | 0 <= i < |cuts| :: cuts[i] <= |frame|
  }

  /** The beginnings of what is sent, as the two writes leave them. */
  lemma SentSplits(p: Packet)
    ensures var header := HeaderBytes(p.kind, p.id, |p.payload|);
            var sent := SentBytes(p);
            && |sent| == |header| + |p.payload| && sent[..|sent|] == header + p.payload
            && (forall c | 0 <= c <= |header| :: sent[..c] == header[..c])
            && (forall c | 0 <= c <= |p.payload| :: sent[..|header| + c] == header + p.payload[..c])
  {
    hide HeaderBytes;
  }

  lemma TornNone(frame: bytes)
    ensures CutsOf(frame, []) && forall before: bytes :: before + Torn(frame, []) == before
  {
  }

  lemma TornSnoc(before: bytes, frame: bytes, cuts: seq<nat>, cut: nat)
    requires cut <= |frame| && CutsOf(frame, cuts)
    ensures CutsOf(frame, cuts + [cut])
    ensures before + Torn(frame, cuts) + frame[..cut] == before + Torn(frame, cuts + [cut])
  {
    assert (cuts + [cut])[..|cuts|] == cuts;
  }

  lemma WholeAfter(before: bytes, frame: bytes, cuts: seq<nat>, maxRetries: nat)
    requires CutsOf(frame, cuts) && |cuts| <= maxRetries
    ensures frame[..|frame|] == frame
    ensures Transmitted(before, before + Torn(frame, cuts) + frame, frame, maxRetries, true)
    ensures cuts == [] ==> before + Torn(frame, cuts) + frame == before + frame
  {
  }

  lemma BrokenOnly(before: bytes, frame: bytes, cuts: seq<nat>, maxRetries: nat)
    requires CutsOf(frame, cuts) && |cuts| == maxRetries + 1
    ensures Transmitted(before, before + Torn(frame, cuts), frame, maxRetries, false)
  {
    hide Torn;
  }

  /** What the next response, or a loss before it, means for a wait that has come to `from`. */
  lemma ResponseStep(events: seq<Event>, from: nat, id: u32, r: Result<Packet>, to: nat)
    requires from <= |events|
    requires var k := First(events, from, OfKind(ResponseBlock));
             r == OutcomeAt(events, k) && to == Past(events, k)
    ensures from <= to <= |events| && (r.Ok? ==> from < to)
    ensures var end := First(events, from, ResponseTo(id));
            if r.Err? || r.value.id == id then OutcomeAt(events, end) == r && to == Past(events, end)
            else First(events, to, ResponseTo(id)) == end
  {
    hide First;
    var k := First(events, from, OfKind(ResponseBlock));
    assert k < |events| ==> Stops(events[k], OfKind(ResponseBlock));
    forall j | from <= j < k ensures !Stops(events[j], ResponseTo(id)) {
      assert !Stops(events[j], OfKind(ResponseBlock));
    }
    if k == |events| || Stops(events[k], ResponseTo(id)) {
      FirstIs(events, from, ResponseTo(id), k);
    } else {
      FirstSkips(events, from, k + 1, ResponseTo(id));
    }
  }

  /** What the next data block, or a loss before it, means for a collection that began at `start`. */
  lemma DataStep(events: seq<Event>, start: nat, from: nat, id: u32, r: Result<Packet>, to: nat)
    requires start <= from <= |events|
    requires var k := First(events, from, OfKind(DataBlock));
             r == OutcomeAt(events, k) && to == Past(events, k)
    ensures from <= to <= |events| && (r.Ok? ==> from < to)
    ensures var end := First(events, from, EndOfData(id));
            if r.Err? then
              && OutcomeAt(events, end) == Err(r.error) && to == Past(events, end)
            else if r.value.id == id && r.value.payload == [] then
              && to == end + 1 && OutcomeAt(events, end) == r
              && Payloads(events, start, end, id) == Payloads(events, start, from, id)
            else
              && First(events, to, EndOfData(id)) == end
              && Payloads(events, start, to, id)
              == Payloads(events, start, from, id) + if r.value.id == id then r.value.payload else []
  {
    hide First, Payloads;
    var k := First(events, from, OfKind(DataBlock));
    PayloadsSplit(events, start, from, k, id);
    NoPayloads(events, from, k, id);
    if k == |events| || Stops(events[k], EndOfData(id)) {
      FirstIs(events, from, EndOfData(id), k);
    } else {
      FirstSkips(events, from, k + 1, EndOfData(id));
      PayloadsSnoc(events, start, k, id);
    }
  }

  /**
   The answer to a transaction, found from outcome `from` on, with the stream consumed up to `to`: the
   first response with its id if that has 8 bytes and says 0x2001, or what is wrong with it, or the
   loss that came before it.
   */
  ghost predicate FirstAnswer(events: seq<Event>, from: nat, id: u32, r: Result<Packet>, to: nat) {
    exists k | from <= k <= |events| :: AnswerAt(events, from, k, id, r) && to == Past(events, k)
  }

  ghost predicate AnswerAt(events: seq<Event>, from: nat, k: nat, id: u32, r: Result<Packet>)
    requires from <= k <= |events|
  {
    && (forall j | from <= j < k ::
          events[j].Got? && !(events[j].packet.kind == ResponseBlock && events[j].packet.id == id))
    && if k == |events| then r == Err(Io(TimedOut)) else
       match events[k]
       case Lost(RanDry) => r == Err(Io(TimedOut))
       case Lost(BadType) => r == Err(ProtocolError(UnknownMessageType))
       case Got(p) =>
         && p.kind == ResponseBlock && p.id == id
         && if |p.payload| < 8 then r == Err(ProtocolError(TooShort))
            else if U16At(p.payload, 2) != 0x2001 then r == Err(DeviceError(U16At(p.payload, 2)))
            else r == Ok(p)
  }

  lemma AnswerIsFirst(events: seq<Event>, from: nat, id: u32)
    requires from <= |events|
    ensures var k := First(events, from, ResponseTo(id));
            FirstAnswer(events, from, id, Verdict(OutcomeAt(events, k)), Past(events, k))
  {
    hide First;
    var k := First(events, from, ResponseTo(id));
    assert AnswerAt(events, from, k, id, Verdict(OutcomeAt(events, k)));
  }

  /**
   The data collected for a transaction from outcome `from` on: the payloads of its own data blocks,
   in order, if its empty block comes before any loss.
   */
  ghost predicate Collected(events: seq<Event>, from: nat, id: u32, r: Result<bytes>, to: nat) {
    exists k | from <= k <= |events| :: CollectedAt(events, from, k, id, r) && to == Past(events, k)
  }

  ghost predicate CollectedAt(events: seq<Event>, from: nat, k: nat, id: u32, r: Result<bytes>)
    requires from <= k <= |events|
  {
    && (forall j | from <= j < k :: events[j].Got? && events[j] != Got(Packet(DataBlock, id, [])))
    && if k == |events| then r == Err(Io(TimedOut)) else
       match events[k]
       case Lost(RanDry) => r == Err(Io(TimedOut))
       case Lost(BadType) => r == Err(ProtocolError(UnknownMessageType))
       case Got(p) => p == Packet(DataBlock, id, []) && r == Ok(Cat(BlocksOf(events[from..k], id)))
  }

  lemma DataIsCollected(events: seq<Event>, from: nat, id: u32)
    requires from <= |events|
    ensures var k := First(events, from, EndOfData(id));
            var outcome := OutcomeAt(events, k);
            Collected(events, from, id,
                      if outcome.Ok? then Ok(Payloads(events, from, k, id)) else Err(outcome.error), Past(events, k))
  {
    hide First, Payloads, Cat, BlocksOf;
    var k := First(events, from, EndOfData(id));
    PayloadsAreBlocks(events, from, k, id);
    var outcome := OutcomeAt(events, k);
    assert CollectedAt(events, from, k, id,
                       if outcome.Ok? then Ok(Payloads(events, from, k, id)) else Err(outcome.error));
  }

  /** The first packet of a type from outcome `from` on, or the loss that came before it. */
  ghost predicate FirstOfKind(events: seq<Event>, from: nat, kind: MessageType, r: Result<Packet>, to: nat) {
    exists k | from <= k <= |events| :: OfKindAt(events, from, k, kind, r) && to == Past(events, k)
  }

  ghost predicate OfKindAt(events: seq<Event>, from: nat, k: nat, kind: MessageType, r: Result<Packet>)
    requires from <= k <= |events|
  {
    && (forall j | from <= j < k :: events[j].Got? && events[j].packet.kind != kind)
    && if k == |events| then r == Err(Io(TimedOut)) else
       match events[k]
       case Lost(RanDry) => r == Err(Io(TimedOut))
       case Lost(BadType) => r == Err(ProtocolError(UnknownMessageType))
       case Got(p) => p.kind == kind && r == Ok(p)
  }

  lemma KindIsFirst(events: seq<Event>, from: nat, kind: MessageType)
    requires from <= |events|
    ensures var k := First(events, from, OfKind(kind));
            FirstOfKind(events, from, kind, OutcomeAt(events, k), Past(events, k))
  {
    hide First;
    var k := First(events, from, OfKind(kind));
    assert OfKindAt(events, from, k, kind, OutcomeAt(events, k));
  }

  /** What is made of a response, or of the failure that came in its place. */
  function Verdict(outcome: Result<Packet>): (r: Result<Packet>)
  {
    match outcome
    case Err(e) => Err(e)
    case Ok(p) =>
      if |p.payload| < 8 then Err(ProtocolError(TooShort))
      else if U16At(p.payload, 2) != 0x2001 then Err(DeviceError(U16At(p.payload, 2)))
      else Ok(p)
  }

  /** `check_response_error`. */
  method CheckResponseError(p: Packet) returns (r: Result<()>)
    ensures r.Ok? <==> |p.payload| >= 8 && U16At(p.payload, 2) == 0x2001
    ensures r.Err? ==> r.error == if |p.payload| < 8 then ProtocolError(TooShort)
                                  else DeviceError(U16At(p.payload, 2))
  {
    if |p.payload| < 8 {
      return Err(ProtocolError(TooShort));
    }
    var code := U16At(p.payload, 2);
    if code != 0x2001 {
      return Err(DeviceError(code));
    }
    return Ok(());
  }
}
