/**
 What the filters by type and transaction id pick out of a stream of receive outcomes, and when
 the picked bytes are one transaction's own.
 */
module Demux {
  import opened Types
  import opened Framing

  /** What a receive loop waits for. */
  datatype Interest =
    | Any
    | OfKind(kind: MessageType)
    | ResponseTo(id: u32)
    | EndOfData(id: u32)     // the empty data block that ends a data phase

  predicate Matches(p: Packet, i: Interest) {
    match i
    case Any => true
    case OfKind(kind) => p.kind == kind
    case ResponseTo(id) => p.kind == ResponseBlock && p.id == id
    case EndOfData(id) => p == Packet(DataBlock, id, [])
  }

  predicate Stops(e: Event, i: Interest) {
    e.Lost? || Matches(e.packet, i)
  }

  /** The first outcome at or after `from` that ends the wait, or the end of the stream. */
  function First(events: seq<Event>, from: nat, i: Interest): (k: nat)
    requires from <= |events|
    ensures from <= k <= |events|
    ensures k < |events| ==> Stops(events[k], i)
    ensures forall j | from <= j < k :: !Stops(events[j], i)
    decreases |events| - from
  {
    if from == |events| || Stops(events[from], i) then from else First(events, from + 1, i)
  }

  lemma FirstIs(events: seq<Event>, from: nat, i: Interest, k: nat)
    requires from <= k <= |events|
    requires k < |events| ==> Stops(events[k], i)
    requires forall j | from <= j < k :: !Stops(events[j], i)
    ensures First(events, from, i) == k
  {
    var f := First(events, from, i);
    assert !(f < k) && !(k < f);
  }

  /** A wait that skipped `from..to` ends where a wait from `to` ends. */
  lemma FirstSkips(events: seq<Event>, from: nat, to: nat, i: Interest)
    requires from <= to <= |events|
    requires forall j | from <= j < to :: !Stops(events[j], i)
    ensures First(events, from, i) == First(events, to, i)
  {
    FirstIs(events, from, i, First(events, to, i));
  }

  /** What a receive loop that ends at `k` reports. */
  function OutcomeAt(events: seq<Event>, k: nat): Result<Packet>
  {
    if k >= |events| then Err(ErrorOf(RanDry)) else
    match events[k]
    case Got(p) => Ok(p)
    case Lost(loss) => Err(ErrorOf(loss))
  }

  /** How far a receive loop that ends at `k` has consumed the stream. */
  function Past(events: seq<Event>, k: nat): nat
  {
    if k < |events| then k + 1 else k
  }

  /** Whether an outcome is a data block of a transaction. */
  predicate IsDataOf(e: Event, id: u32) {
    e.Got? && e.packet.kind == DataBlock && e.packet.id == id
  }

  /** The data a transaction sent between two points of the stream, put together. */
  function Payloads(events: seq<Event>, from: nat, to: nat, id: u32): bytes
    requires from <= to <= |events|
  {
    if from == to then [] else
    Payloads(events, from, to - 1, id) + if IsDataOf(events[to - 1], id) then events[to - 1].packet.payload else []
  }

  lemma PayloadsSnoc(events: seq<Event>, from: nat, to: nat, id: u32)
    requires from <= to < |events|
    ensures Payloads(events, from, to + 1, id)
         == Payloads(events, from, to, id) + if IsDataOf(events[to], id) then events[to].packet.payload else []
  {
  }

  lemma {:induction false} PayloadsSplit(events: seq<Event>, from: nat, mid: nat, to: nat, id: u32)
    requires from <= mid <= to <= |events|
    ensures Payloads(events, from, to, id) == Payloads(events, from, mid, id) + Payloads(events, mid, to, id)
  {
    if mid < to {
      PayloadsSplit(events, from, mid, to - 1, id);
    }
  }

  lemma {:induction false} NoPayloads(events: seq<Event>, from: nat, to: nat, id: u32)
    requires from <= to <= |events|
    requires forall j | from <= j < to :: !IsDataOf(events[j], id)
    ensures Payloads(events, from, to, id) == []
  {
    if from < to {
      NoPayloads(events, from, to - 1, id);
    }
  }

  lemma {:induction false} PayloadsShift(events: seq<Event>, to: nat, id: u32)
    requires 1 + to <= |events|
    ensures Payloads(events, 1, 1 + to, id) == Payloads(events[1..], 0, to, id)
  {
    if to > 0 {
      PayloadsShift(events, to - 1, id);
    }
  }

  // ---------- one transaction's own data ----------

  /** A GetPartialObject command, and how many outcomes had been consumed when it went out. */
  datatype Request = Request(id: u32, handle: u32, offset: u64, length: u32, at: nat)

  /** The end of the collection that `receive_data_block` makes for a request. */
  ghost predicate Delivered(events: seq<Event>, q: Request, data: bytes) {
    && q.at <= |events|
    && var k := First(events, q.at, EndOfData(q.id));
    && k < |events| && events[k].Got?
    && data == Payloads(events, q.at, k, q.id)
  }

  /** The first empty data block of a transaction in the whole stream, or the end of it. */
  function Terminator(events: seq<Event>, id: u32): (k: nat)
    ensures k <= |events|
    ensures k < |events| ==> events[k] == Got(Packet(DataBlock, id, []))
    ensures forall j | 0 <= j < k :: events[j] != Got(Packet(DataBlock, id, []))
  {
    if events == [] || events[0] == Got(Packet(DataBlock, id, [])) then 0
    else 1 + Terminator(events[1..], id)
  }

  /** Everything a transaction ever sends, up to its first empty block. */
  function Reply(events: seq<Event>, id: u32): bytes
  {
    Payloads(events, 0, Terminator(events, id), id)
  }

  /** No data of a transaction arrives before its command has gone out. */
  predicate Causal(events: seq<Event>, q: Request) {
    q.at <= |events| && forall j | 0 <= j < q.at :: !IsDataOf(events[j], q.id)
  }

  /**
   A successful collection is the transaction's whole reply: packets of other types and of other
   transactions, and the timeouts of earlier attempts, contribute and withhold nothing.
   */
  lemma DeliveredIsReply(events: seq<Event>, q: Request, data: bytes)
    requires Delivered(events, q, data) && Causal(events, q)
    ensures data == Reply(events, q.id)
  {
    var k := First(events, q.at, EndOfData(q.id));
    var t := Terminator(events, q.id);
    assert q.at <= t;
    assert t == k;
    PayloadsSplit(events, 0, q.at, k, q.id);
    NoPayloads(events, 0, q.at, q.id);
  }

  /** The data blocks of a transaction in the stream, in order. */
  function BlocksOf(events: seq<Event>, id: u32): seq<bytes>
  {
    if events == [] then [] else
    (if IsDataOf(events[0], id) then [events[0].packet.payload] else []) + BlocksOf(events[1..], id)
  }

  /** What a list of data blocks carries: the blocks before the first empty one. */
  function Content(blocks: seq<bytes>): bytes
  {
    if blocks == [] || blocks[0] == [] then [] else blocks[0] + Content(blocks[1..])
  }

  lemma {:induction false} PayloadsAreBlocks(events: seq<Event>, from: nat, to: nat, id: u32)
    requires from <= to <= |events|
    ensures Payloads(events, from, to, id) == Cat(BlocksOf(events[from..to], id))
    decreases |events| - from
  {
    if from < to {
      PayloadsSplit(events, from, from + 1, to, id);
      PayloadsAreBlocks(events, from + 1, to, id);
      BlocksFirst(events, from, to, id);
      assert Payloads(events, from, from, id) == [];
    }
  }

  lemma BlocksFirst(events: seq<Event>, from: nat, to: nat, id: u32)
    requires from < to <= |events|
    ensures Cat(BlocksOf(events[from..to], id))
         == (if IsDataOf(events[from], id) then events[from].packet.payload else [])
            + Cat(BlocksOf(events[from + 1..to], id))
  {
    var part := events[from..to];
    assert part[0] == events[from] && part[1..] == events[from + 1..to];
    var rest := BlocksOf(part[1..], id);
    assert IsDataOf(part[0], id) ==> BlocksOf(part, id)[1..] == rest;
    assert !IsDataOf(part[0], id) ==> BlocksOf(part, id) == rest;
  }

  /** `picks` are the places of a transaction's data packets, and `blocks` their payloads. */
  predicate Picked(events: seq<Event>, id: u32, picks: seq<nat>, blocks: seq<bytes>) {
    && Rising(picks, |events|) && |blocks| == |picks|
    && (forall j: nat | j < |events| ::
          j in picks <==> events[j].Got? && events[j].packet.kind == DataBlock && events[j].packet.id == id)
    && forall i | 0 <= i < |picks| :: events[picks[i]].Got? && blocks[i] == events[picks[i]].packet.payload
  }

  /** A transaction's blocks are the payloads of exactly the data packets with its id, in their order. */
  lemma {:induction false} BlocksAre(events: seq<Event>, id: u32) returns (picks: seq<nat>)
    ensures Picked(events, id, picks, BlocksOf(events, id))
  {
    if events == [] {
      picks := [];
    } else {
      hide BlocksOf, Picked;
      var n := |events| - 1;
      var before := BlocksAre(events[..n], id);
      BlocksSnoc(events, id);
      PickedNext(events, id, before, BlocksOf(events[..n], id));
      picks := before + if IsDataOf(events[n], id) then [n] else [];
    }
  }

  lemma {:induction false} BlocksSnoc(events: seq<Event>, id: u32)
    requires events != []
    ensures var e := events[|events| - 1];
            BlocksOf(events, id)
            == BlocksOf(events[..|events| - 1], id) + if IsDataOf(e, id) then [e.packet.payload] else []
  {
    if |events| > 1 {
      BlocksSnoc(events[1..], id);
      assert events[..|events| - 1][1..] == events[1..][..|events| - 2];
    }
  }

  lemma PickedNext(events: seq<Event>, id: u32, before: seq<nat>, blocks: seq<bytes>)
    requires events != [] && Picked(events[..|events| - 1], id, before, blocks)
    ensures var n := |events| - 1;
            Picked(events, id, before + (if IsDataOf(events[n], id) then [n] else []),
                   blocks + if IsDataOf(events[n], id) then [events[n].packet.payload] else [])
  {
    var n := |events| - 1;
    assert n !in before;
    forall j: nat | j < n ensures j in before <==> IsDataOf(events[j], id) {
      assert events[..n][j] == events[j];
    }
    forall i | 0 <= i < |before| ensures events[before[i]].Got? && blocks[i] == events[before[i]].packet.payload {
      assert events[..n][before[i]] == events[before[i]];
    }
  }

  lemma ReplyStep(events: seq<Event>, id: u32)
    requires events != [] && events[0] != Got(Packet(DataBlock, id, []))
    ensures Reply(events, id)
         == (if IsDataOf(events[0], id) then events[0].packet.payload else []) + Reply(events[1..], id)
  {
    var t := Terminator(events[1..], id);
    PayloadsSplit(events, 0, 1, 1 + t, id);
    PayloadsShift(events, t, id);
  }

  /** The reply is the content of the transaction's own blocks: how they are interleaved is invisible. */
  lemma {:induction false} ReplyIsContent(events: seq<Event>, id: u32)
    ensures Reply(events, id) == Content(BlocksOf(events, id))
  {
    if events != [] {
      hide Reply;
      ReplyIsContent(events[1..], id);
      if events[0] == Got(Packet(DataBlock, id, [])) {
        assert Reply(events, id) == [] by {
          EmptyFirst(events, id);
        }
      } else {
        ReplyStep(events, id);
        if IsDataOf(events[0], id) {
          assert BlocksOf(events, id)[1..] == BlocksOf(events[1..], id);
        } else {
          assert BlocksOf(events, id) == BlocksOf(events[1..], id);
        }
      }
    } else {
      assert Terminator(events, id) == 0;
    }
  }

  lemma EmptyFirst(events: seq<Event>, id: u32)
    requires events != [] && events[0] == Got(Packet(DataBlock, id, []))
    ensures Reply(events, id) == []
  {
  }
}
