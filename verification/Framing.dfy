/**
 The frame layout of src/transport.rs: an 8-byte header (type, reserved, transaction id), a length
 only where the type calls for one, then the payload.  `SentBytes` is what the sender writes,
 `Decode` what the receiver makes of the bytes before it.
 */
module Framing {
  import opened Types
  import opened BigEndian

  function TypeCode(kind: MessageType): (code: u16)
  {
    match kind
    case CommandBlock => 0x0003
    case DataBlock => 0x0004
    case ResponseBlock => 0x0005
    case EventBlock => 0x0006
  }

  /** A header; only data blocks carry a length, truncated to 32 bits. */
  function HeaderBytes(kind: MessageType, id: u32, payloadLength: nat): (s: bytes)
    ensures |s| == if kind.DataBlock? then 12 else 8
  {
    Write16(TypeCode(kind)) + Write16(0) + Write32(id)
    + if kind.DataBlock? then Write32(payloadLength % 0x1_0000_0000) else []
  }

  function SentBytes(p: Packet): bytes
  {
    HeaderBytes(p.kind, p.id, |p.payload|) + p.payload
  }

  /** What one receive makes of a run of bytes after which the socket falls silent. */
  datatype Decoded =
    | Frame(packet: Packet, size: nat)  // a packet, using the first `size` bytes
    | UnknownType                       // rejected after its 8-byte header
    | Dry                               // the bytes end inside the frame
    | DryResponse(packet: Packet)       // a response ending inside its length field passes as empty

  function Decode(s: bytes): (d: Decoded)
    ensures d.Frame? ==> 8 <= d.size <= |s|
    ensures d.UnknownType? ==> 8 <= |s|
  {
    if |s| < 8 then Dry else
    var code, id := U16At(s, 0), U32At(s, 4);
    if code == 0x0004 then
      if |s| < 12 || |s| < 12 + U32At(s, 8) then Dry
      else Frame(Packet(DataBlock, id, s[12..12 + U32At(s, 8)]), 12 + U32At(s, 8))
    else if code == 0x0005 then
      if |s| < 12 then DryResponse(Packet(ResponseBlock, id, []))
      else if U32At(s, 8) < 4 then Frame(Packet(ResponseBlock, id, []), 12)
      else if |s| < 8 + U32At(s, 8) then Dry
      else Frame(Packet(ResponseBlock, id, s[12..8 + U32At(s, 8)]), 8 + U32At(s, 8))
    else if code == 0x0003 then Frame(Packet(CommandBlock, id, []), 8)
    else if code == 0x0006 then Frame(Packet(EventBlock, id, []), 8)
    else UnknownType
  }

  // ---------- the layout, byte by byte ----------

  /** Type, two zeros, transaction id; for data blocks a length; then the payload. */
  lemma SentLayout(p: Packet)
    ensures var s := SentBytes(p);
            var code := if p.kind == CommandBlock then 3 else if p.kind == DataBlock then 4
                        else if p.kind == ResponseBlock then 5 else 6;
            && |s| >= 8
            && s[..8] == [0, code, 0, 0, p.id / 16777216, p.id / 65536 % 256, p.id / 256 % 256, p.id % 256]
            && if p.kind.DataBlock? then
                 |s| >= 12 && s[8..12] == Write32(|p.payload| % 4294967296) && s[12..] == p.payload
               else s[8..] == p.payload
  {
    HeaderLayout(p.kind, p.id, |p.payload|);
    hide HeaderBytes, Write32;
    var header := HeaderBytes(p.kind, p.id, |p.payload|);
    assert SentBytes(p)[..8] == header[..8];
    assert p.kind.DataBlock? ==> SentBytes(p)[8..12] == header[8..];
  }

  lemma HeaderLayout(kind: MessageType, id: u32, n: nat)
    ensures var s := HeaderBytes(kind, id, n);
            var code := if kind == CommandBlock then 3 else if kind == DataBlock then 4
                        else if kind == ResponseBlock then 5 else 6;
            && s[..8] == [0, code, 0, 0, id / 16777216, id / 65536 % 256, id / 256 % 256, id % 256]
            && s[8..] == if kind.DataBlock? then Write32(n % 4294967296) else []
  {
    Write32Means(id);
    hide Write32;
    var a, b, c := Write16(TypeCode(kind)), Write32(id), if kind.DataBlock? then Write32(n % 0x1_0000_0000) else [];
    assert HeaderBytes(kind, id, n) == a + [0, 0] + b + c;
  }

  /** What a frame says is what its packet holds; a response says its length plus 4, or less than 4. */
  lemma DecodedLayout(s: bytes)
    requires Decode(s).Frame?
    ensures var Frame(p, n) := Decode(s);
            && s[0] == 0 && p.id == U32At(s, 4)
            && match p.kind
               case CommandBlock => s[1] == 3 && n == 8 && p.payload == []
               case EventBlock => s[1] == 6 && n == 8 && p.payload == []
               case DataBlock => s[1] == 4 && n >= 12 && U32At(s, 8) == |p.payload| && p.payload == s[12..n]
               case ResponseBlock =>
                 && s[1] == 5 && n >= 12 && p.payload == s[12..n]
                 && (U32At(s, 8) == |p.payload| + 4 || (U32At(s, 8) < 4 && n == 12))
  {
    assert U16At(s, 0) == s[0] as int * 256 + s[1] as int;
  }

  /** What is no frame, and which responses count although they are too short. */
  lemma UndecodedLayout(s: bytes)
    ensures Decode(s).UnknownType? <==> |s| >= 8 && !(s[0] == 0 && 3 <= s[1] <= 6)
    ensures Decode(s).DryResponse? <==> 8 <= |s| < 12 && s[0] == 0 && s[1] == 5
    ensures Decode(s).DryResponse? ==> Decode(s).packet == Packet(ResponseBlock, U32At(s, 4), [])
    ensures |s| >= 12 && s[0] == 0 && s[1] == 5 && U32At(s, 8) < 4 ==>
              Decode(s) == Frame(Packet(ResponseBlock, U32At(s, 4), []), 12)
  {
    assert |s| >= 2 ==> U16At(s, 0) == s[0] as int * 256 + s[1] as int;
  }

  // ---------- decoding is stable, and inverts encoding ----------

  /** A decoded frame depends on its own bytes only: whatever follows them is irrelevant. */
  lemma DecodeExact(s: bytes, t: bytes)
    requires Decode(s).Frame?
    ensures Decode(s[..Decode(s).size] + t) == Decode(s)
  {
    var n := Decode(s).size;
    var u := s[..n] + t;
    forall i | 0 <= i < n ensures u[i] == s[i] {}
    if n >= 12 {
      assert U32At(u, 8) == U32At(s, 8);
      assert u[12..n] == s[12..n];
    }
  }

  /** The outcomes that more bytes cannot change are exactly a whole frame and an unknown type. */
  lemma DecodeStable(s: bytes)
    ensures (forall t :: Decode(s + t) == Decode(s)) <==> Decode(s).Frame? || Decode(s).UnknownType?
  {
    if Decode(s).Frame? {
      forall t ensures Decode(s + t) == Decode(s) {
        var n := Decode(s).size;
        DecodeExact(s, s[n..] + t);
        assert s[..n] + (s[n..] + t) == s + t;
      }
    } else if Decode(s).UnknownType? {
      forall t ensures Decode(s + t) == Decode(s) {
        var u := s + t;
        assert U16At(u, 0) == U16At(s, 0);
      }
    } else {
      // Enough zeros complete any frame.
      var t := seq(0x2_0000_0000, _ => 0);
      assert |s + t| >= 0x2_0000_0000;
      assert !Decode(s + t).Dry? && !Decode(s + t).DryResponse?;
    }
  }

  lemma DecodeHeader(s: bytes, kind: MessageType, id: u32, payloadLength: nat)
    requires HeaderBytes(kind, id, payloadLength) <= s
    ensures |s| >= 8 && U16At(s, 0) == TypeCode(kind) && U32At(s, 4) == id
    ensures kind.DataBlock? ==> |s| >= 12 && U32At(s, 8) == payloadLength % 0x1_0000_0000
  {
    var h := HeaderBytes(kind, id, payloadLength);
    assert s[0..2] == h[0..2] == Write16(TypeCode(kind));
    Read16(s, 0, TypeCode(kind));
    assert s[4..8] == h[4..8] == Write32(id);
    Read32(s, 4, id);
    if kind.DataBlock? {
      assert s[8..12] == h[8..12] == Write32(payloadLength % 0x1_0000_0000);
      Read32(s, 8, payloadLength % 0x1_0000_0000);
    }
  }

  /** What the receiver gets back from `send_packet` as it is. */
  predicate Recoverable(p: Packet) {
    match p.kind
    case DataBlock => |p.payload| < 0x1_0000_0000
    case ResponseBlock => false
    case CommandBlock | EventBlock => p.payload == []
  }

  /** `recv_packet` inverts `send_packet` on exactly the recoverable packets. */
  lemma RoundTrip(p: Packet)
    ensures (forall rest :: Decode(SentBytes(p) + rest) == Frame(p, |SentBytes(p)|)) <==> Recoverable(p)
  {
    if Recoverable(p) {
      forall rest ensures Decode(SentBytes(p) + rest) == Frame(p, |SentBytes(p)|) {
        var s := SentBytes(p) + rest;
        DecodeHeader(s, p.kind, p.id, |p.payload|);
        if p.kind.DataBlock? {
          assert s[12..12 + |p.payload|] == p.payload;
        }
      }
    } else {
      var s := SentBytes(p) + [];
      DecodeHeader(s, p.kind, p.id, |p.payload|);
      assert Decode(s) != Frame(p, |SentBytes(p)|);
    }
  }

  /** The packets a peer can make the receiver see. */
  predicate Framable(p: Packet) {
    match p.kind
    case DataBlock => |p.payload| < 0x1_0000_0000
    case ResponseBlock => |p.payload| + 4 < 0x1_0000_0000
    case CommandBlock | EventBlock => p.payload == []
  }

  /** A response is sent with its length, itself included, in front of its body. */
  function Framed(p: Packet): bytes
    requires Framable(p)
  {
    if p.kind.ResponseBlock? then SentBytes(p.(payload := Write32(|p.payload| + 4) + p.payload))
    else SentBytes(p)
  }

  lemma DecodeFramed(p: Packet, rest: bytes)
    requires Framable(p)
    ensures Decode(Framed(p) + rest) == Frame(p, |Framed(p)|)
  {
    if p.kind.ResponseBlock? {
      var s := Framed(p) + rest;
      var n := |p.payload| + 4;
      DecodeHeader(s, p.kind, p.id, |Write32(n) + p.payload|);
      assert s[8..12] == Write32(n);
      Read32(s, 8, n);
      assert s[12..8 + n] == p.payload;
    } else {
      RoundTrip(p);
    }
  }

  // ---------- streams ----------

  /** Incoming bytes in bursts: a read that needs more than is left of a burst times out. */
  type Wire = seq<bytes>

  datatype Loss = RanDry | BadType

  /** The outcome of one receive. */
  datatype Event = Got(packet: Packet) | Lost(loss: Loss)

  function ErrorOf(loss: Loss): Error
  {
    match loss
    case RanDry => Io(TimedOut)
    case BadType => ProtocolError(UnknownMessageType)
  }

  ghost function Size(wire: Wire): nat
  {
    if wire == [] then 0 else |wire[0]| + 1 + Size(wire[1..])
  }

  /** One receive: what it reports and the bytes it leaves. */
  ghost function Receive(wire: Wire): (r: (Event, Wire))
    requires wire != []
    ensures Size(r.1) < Size(wire)
  {
    match Decode(wire[0])
    case Frame(p, n) => (Got(p), [wire[0][n..]] + wire[1..])
    case UnknownType => (Lost(BadType), [wire[0][8..]] + wire[1..])
    case Dry => (Lost(RanDry), wire[1..])
    case DryResponse(p) => (Got(p), wire[1..])
  }

  /** All that repeated receives will ever report on a wire. */
  ghost function Events(wire: Wire): seq<Event>
    decreases Size(wire)
  {
    if wire == [] then [] else [Receive(wire).0] + Events(Receive(wire).1)
  }

  /** An unknown type costs its header; running dry costs what is left of the burst. */
  lemma LossCosts(s: bytes, later: Wire)
    ensures Decode(s).UnknownType? ==> Events([s] + later) == [Lost(BadType)] + Events([s[8..]] + later)
    ensures Decode(s).Dry? ==> Events([s] + later) == [Lost(RanDry)] + Events(later)
    ensures Decode(s).DryResponse? ==> Events([s] + later) == [Got(Decode(s).packet)] + Events(later)
  {
    hide Decode;
    assert ([s] + later)[0] == s && ([s] + later)[1..] == later;
  }

  predicate AllFramable(packets: seq<Packet>) {
    forall i | 0 <= i < |packets| :: Framable(packets[i])
  }

  function FramedAll(packets: seq<Packet>): bytes
    requires AllFramable(packets)
  {
    if packets == [] then [] else Framed(packets[0]) + FramedAll(packets[1..])
  }

  function Gots(packets: seq<Packet>): (events: seq<Event>)
    ensures |events| == |packets|
  {
    seq(|packets|, i requires 0 <= i < |packets| => Got(packets[i]))
  }

  lemma ReceiveFramed(p: Packet, rest: bytes, later: Wire)
    requires Framable(p)
    ensures Receive([Framed(p) + rest] + later) == (Got(p), [rest] + later)
  {
    hide Framed, Decode;
    DecodeFramed(p, rest);
    var wire := [Framed(p) + rest] + later;
    assert wire[1..] == later;
    assert wire[0][|Framed(p)|..] == rest;
  }

  lemma GotsStep(packets: seq<Packet>)
    requires packets != []
    ensures Gots(packets) == [Got(packets[0])] + Gots(packets[1..])
  {
  }

  /** Framing a list of packets and receiving gives the list back in order, then one timeout. */
  lemma {:induction false} EventsOfFramedAll(packets: seq<Packet>, later: Wire)
    requires AllFramable(packets)
    ensures Events([FramedAll(packets)] + later) == Gots(packets) + [Lost(RanDry)] + Events(later)
  {
    var wire := [FramedAll(packets)] + later;
    if packets == [] {
      assert wire[1..] == later;
      assert Receive(wire) == (Lost(RanDry), later);
    } else {
      hide Receive, Framed, Gots;
      ReceiveFramed(packets[0], FramedAll(packets[1..]), later);
      EventsOfFramedAll(packets[1..], later);
      GotsStep(packets);
    }
  }

  /** A wire made of bursts, each the framing of a list of packets. */
  function FramedBursts(bursts: seq<seq<Packet>>): Wire
    requires forall i | 0 <= i < |bursts| :: AllFramable(bursts[i])
  {
    if bursts == [] then [] else [FramedAll(bursts[0])] + FramedBursts(bursts[1..])
  }

  ghost function Timeline(bursts: seq<seq<Packet>>): seq<Event>
  {
    if bursts == [] then [] else Gots(bursts[0]) + [Lost(RanDry)] + Timeline(bursts[1..])
  }

  lemma {:induction false} EventsOfFramedBursts(bursts: seq<seq<Packet>>)
    requires forall i | 0 <= i < |bursts| :: AllFramable(bursts[i])
    ensures Events(FramedBursts(bursts)) == Timeline(bursts)
  {
    if bursts != [] {
      EventsOfFramedBursts(bursts[1..]);
      EventsOfFramedAll(bursts[0], FramedBursts(bursts[1..]));
    }
  }
}
