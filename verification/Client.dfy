/**
 `CameraClient::download_photo` of src/commands.rs, from the bytes of the socket to the file on
 disk, and what "an honest camera" means on the wire.
 */
module Client {
  import opened Types
  import opened BigEndian
  import opened Framing
  import opened Demux
  import opened Transport
  import opened Commands
  import opened ResumeMachine
  import opened ChunkPlan
  import opened Download
  import R = ResponseParsers
  import W = Workspace

  // ---------- the camera ----------

  /** The blocks sent in answer to all the commands that carry an id, in the order of the commands. */
  function AnswersTo(log: seq<Request>, answers: seq<seq<bytes>>, id: u32): seq<bytes>
    requires |answers| == |log|
  {
    if log == [] then [] else
    var n := |log| - 1;
    AnswersTo(log[..n], answers[..n], id) + if log[n].id == id then answers[n] else []
  }

  /**
   The data blocks in the stream are the camera's answers, `answers[i]` to command `log[i]`, and
   none comes before its command.  How the answers are interleaved with each other, with packets
   of other types and with timeouts is left open; an answer need not be complete.
   */
  ghost predicate Serves(events: seq<Event>, log: seq<Request>, answers: seq<seq<bytes>>) {
    && |answers| == |log|
    && forall i | 0 <= i < |log| ::
         Causal(events, log[i]) && BlocksOf(events, log[i].id) == AnswersTo(log, answers, log[i].id)
  }

  /** An answer carries the object at the range asked for, or a beginning of it. */
  predicate HonestAnswer(q: Request, blocks: seq<bytes>, photo: bytes) {
    var content := Content(blocks);
    && |content| <= q.length
    && q.offset + |content| <= |photo|
    && content == photo[q.offset..q.offset + |content|]
  }

  predicate DistinctIds(log: seq<Request>) {
    forall i, j | 0 <= i < j < |log| :: log[i].id != log[j].id
  }

  lemma {:induction false} OnlyAnswer(log: seq<Request>, answers: seq<seq<bytes>>, i: nat)
    requires |answers| == |log| && DistinctIds(log) && i < |log|
    ensures AnswersTo(log, answers, log[i].id) == answers[i]
    decreases |log|
  {
    var n := |log| - 1;
    if i < n {
      OnlyAnswer(log[..n], answers[..n], i);
    } else {
      NoAnswer(log[..n], answers[..n], log[n].id);
    }
  }

  lemma {:induction false} NoAnswer(log: seq<Request>, answers: seq<seq<bytes>>, id: u32)
    requires |answers| == |log| && forall i | 0 <= i < |log| :: log[i].id != id
    ensures AnswersTo(log, answers, id) == []
  {
    if log != [] {
      var n := |log| - 1;
      NoAnswer(log[..n], answers[..n], id);
    }
  }

  predicate AnsweredHonestly(log: seq<Request>, answers: seq<seq<bytes>>, photo: bytes) {
    |answers| == |log| && forall i | 0 <= i < |log| :: HonestAnswer(log[i], answers[i], photo)
  }

  /** With pairwise distinct ids, honest answers are honest replies, however late they come. */
  lemma ServedHonestly(events: seq<Event>, log: seq<Request>, answers: seq<seq<bytes>>, photo: bytes)
    requires Serves(events, log, answers) && DistinctIds(log) && AnsweredHonestly(log, answers, photo)
    ensures Honest(events, log, photo)
  {
    hide Reply, BlocksOf, Content, Causal, AnswersTo;
    forall i | 0 <= i < |log| ensures HonestReply(events, log[i], photo) {
      ReplyIsContent(events, log[i].id);
      OnlyAnswer(log, answers, i);
      assert HonestAnswer(log[i], answers[i], photo);
    }
  }

  // ---------- a camera that answers in time ----------

  lemma {:induction false} PayloadsWithin(events: seq<Event>, from: nat, part: seq<Event>, to: nat, id: u32)
    requires from + |part| <= |events| && events[from..from + |part|] == part && to <= |part|
    ensures Payloads(events, from, from + to, id) == Payloads(part, 0, to, id)
  {
    if to > 0 {
      PayloadsWithin(events, from, part, to - 1, id);
      assert events[from + to - 1] == part[to - 1];
    }
  }

  lemma {:induction false} TerminatorFound(events: seq<Event>, id: u32)
    requires [] in BlocksOf(events, id)
    ensures Terminator(events, id) < |events|
  {
    if events[0] != Got(Packet(DataBlock, id, [])) {
      assert [] in BlocksOf(events[1..], id);
      TerminatorFound(events[1..], id);
    }
  }

  /**
   A command is answered in full if the packets received next, before any timeout, hold all its
   data and the empty block, whatever else is among them.
   */
  lemma AnswerInTime(events: seq<Event>, q: Request, packets: seq<Packet>)
    requires q.at + |packets| <= |events| && events[q.at..q.at + |packets|] == Gots(packets)
    requires [] in BlocksOf(Gots(packets), q.id)
    requires |Content(BlocksOf(Gots(packets), q.id))| == q.length
    ensures FullyAnswered(events, q)
  {
    hide BlocksOf, Content;
    var part := Gots(packets);
    TerminatorFound(part, q.id);
    var t := Terminator(part, q.id);
    forall j | 0 <= j <= t ensures events[q.at + j] == part[j] {
      assert events[q.at..q.at + |packets|][j] == part[j];
    }
    FirstIs(events, q.at, EndOfData(q.id), q.at + t);
    PayloadsWithin(events, q.at, part, t, q.id);
    ReplyIsContent(part, q.id);
    assert Delivered(events, q, Payloads(events, q.at, q.at + t, q.id));
  }

  // ---------- why ids must differ ----------

  /** Whatever is collected for a command at the length it asked for, and so kept, is the object there. */
  ghost predicate RightBytes(events: seq<Event>, log: seq<Request>, photo: bytes) {
    forall i, data | 0 <= i < |log| && Delivered(events, log[i], data) && |data| == log[i].length ::
      log[i].offset + |data| <= |photo| && data == photo[log[i].offset..log[i].offset + |data|]
  }

  lemma HonestIsRight(events: seq<Event>, log: seq<Request>, photo: bytes)
    requires Honest(events, log, photo)
    ensures RightBytes(events, log, photo)
  {
    hide Delivered, HonestReply;
    forall i, data | 0 <= i < |log| && Delivered(events, log[i], data) && |data| == log[i].length
      ensures log[i].offset + |data| <= |photo| && data == photo[log[i].offset..log[i].offset + |data|]
    {
      HonestData(events, log[i], photo, data);
    }
  }

  function LatestAt(log: seq<Request>): (n: nat)
    ensures forall i | 0 <= i < |log| :: log[i].at <= n
  {
    if log == [] then 0 else
    var n := LatestAt(log[..|log| - 1]);
    if n < log[|log| - 1].at then log[|log| - 1].at else n
  }

  /** Only commands `i` and `j` are answered. */
  function TwoAnswers(n: nat, i: nat, a: seq<bytes>, j: nat, b: seq<bytes>): (answers: seq<seq<bytes>>)
    ensures |answers| == n
  {
    seq(n, k => if k == i then a else if k == j then b else [])
  }

  lemma {:induction false} TwoAnswersTo(log: seq<Request>, i: nat, a: seq<bytes>, j: nat, b: seq<bytes>, id: u32)
    requires i < j
    ensures AnswersTo(log, TwoAnswers(|log|, i, a, j, b), id)
         == (if i < |log| && log[i].id == id then a else []) + (if j < |log| && log[j].id == id then b else [])
  {
    if log != [] {
      var n := |log| - 1;
      TwoAnswersTo(log[..n], i, a, j, b, id);
      assert TwoAnswers(|log|, i, a, j, b)[..n] == TwoAnswers(n, i, a, j, b);
    }
  }

  function DataEvents(id: u32, blocks: seq<bytes>): (events: seq<Event>)
    ensures |events| == |blocks|
  {
    seq(|blocks|, k requires 0 <= k < |blocks| => Got(Packet(DataBlock, id, blocks[k])))
  }

  lemma {:induction false} BlocksOfData(id: u32, blocks: seq<bytes>, x: u32)
    ensures BlocksOf(DataEvents(id, blocks), x) == if x == id then blocks else []
  {
    if blocks != [] {
      BlocksOfData(id, blocks[1..], x);
      assert DataEvents(id, blocks)[1..] == DataEvents(id, blocks[1..]);
    }
  }

  /** No data: timeouts up to `at`, then events. */
  function NoData(at: nat, n: nat): (events: seq<Event>)
    ensures |events| == n
  {
    seq(n, k => if k < at then Lost(RanDry) else Got(Packet(EventBlock, 0, [])))
  }

  lemma {:induction false} BlocksBehind(before: seq<Event>, rest: seq<Event>, x: u32)
    requires forall k | 0 <= k < |before| :: !IsDataOf(before[k], x)
    ensures BlocksOf(before + rest, x) == BlocksOf(rest, x)
  {
    if before == [] {
      assert before + rest == rest;
    } else {
      BlocksBehind(before[1..], rest, x);
      assert (before + rest)[1..] == before[1..] + rest;
    }
  }

  /** The data is collected whole if its last block is the only empty one and the wait meets no loss. */
  lemma CollectsBehind(q: Request, n: nat, blocks: seq<bytes>) returns (data: bytes)
    requires q.at <= n && blocks != [] && blocks[|blocks| - 1] == []
    requires forall k | 0 <= k < |blocks| - 1 :: blocks[k] != []
    ensures var events := NoData(q.at, n) + DataEvents(q.id, blocks);
            Delivered(events, q, data) && data == Content(blocks)
  {
    var events := NoData(q.at, n) + DataEvents(q.id, blocks);
    var last := n + |blocks| - 1;
    FirstIs(events, q.at, EndOfData(q.id), last);
    data := Payloads(events, q.at, last, q.id);
    hide First, Payloads, BlocksOf, Content, Reply;
    assert Delivered(events, q, data);
    DeliveredIsReply(events, q, data);
    ReplyIsContent(events, q.id);
    BlocksBehind(NoData(q.at, n), DataEvents(q.id, blocks), q.id);
    BlocksOfData(q.id, blocks, q.id);
  }

  /** The blocks of an answer that carries `data` and ends. */
  function Closed(data: bytes): seq<bytes>
  {
    (if data == [] then [] else [data]) + [[]]
  }

  lemma ContentOfClosed(a: bytes, b: bytes)
    requires a != []
    ensures Content(Closed(b)) == b && Content([a]) == a && Content([a] + Closed(b)) == a + b && Content([]) == []
  {
    assert [a][1..] == [] && ([a] + Closed(b))[1..] == Closed(b);
    assert b != [] ==> Closed(b)[1..] == [[]];
  }

  /** An object that tells offset `o` from all others. */
  function Marked(total: nat, o: nat): (photo: bytes)
    ensures |photo| == total
  {
    seq(total, k => if k == o then 1 else 0)
  }

  /**
   Two commands under one id, both answered honestly and after both went out, the first one with its
   first byte, the second with all but its last: the second collects data of the right length that
   is not the object's, unless it asks only for the byte that the first begins with.
   */
  lemma SharedIdMisleads(log: seq<Request>, total: nat, i: nat, j: nat)
    returns (photo: bytes, events: seq<Event>, answers: seq<seq<bytes>>)
    requires forall k | 0 <= k < |log| :: log[k].offset + log[k].length <= total
    requires i < j < |log| && log[i].id == log[j].id && log[i].length >= 1 && log[j].length >= 1
    requires log[j].length >= 2 || log[i].offset != log[j].offset
    ensures |photo| == total && Serves(events, log, answers) && AnsweredHonestly(log, answers, photo)
    ensures !RightBytes(events, log, photo)
  {
    hide RightBytes, Delivered, Content, Serves, AnsweredHonestly, Marked, Closed, NoData, DataEvents, TwoAnswers,
      LatestAt;
    var p, q := log[i], log[j];
    photo := Marked(total, q.offset);
    var a, b := photo[p.offset..p.offset + 1], photo[q.offset..q.offset + q.length - 1];
    events := NoData(q.at, LatestAt(log)) + DataEvents(q.id, [a] + Closed(b));
    answers := TwoAnswers(|log|, i, [a], j, Closed(b));
    ServesTwo(log, i, [a], j, Closed(b));
    HonestTwo(log, photo, i, a, j, b);
    ContentOfClosed(a, b);
    ClosedEnds(a, b);
    var data := CollectsBehind(q, LatestAt(log), [a] + Closed(b));
    WrongBytes(total, p.offset, q.offset, q.length);
    WrongDelivery(events, log, photo, j, data);
  }

  lemma WrongDelivery(events: seq<Event>, log: seq<Request>, photo: bytes, j: nat, data: bytes)
    requires j < |log| && log[j].offset + log[j].length <= |photo|
    requires Delivered(events, log[j], data) && |data| == log[j].length
    requires data != photo[log[j].offset..log[j].offset + log[j].length]
    ensures !RightBytes(events, log, photo)
  {
    hide Delivered;
  }

  lemma HonestTwo(log: seq<Request>, photo: bytes, i: nat, a: bytes, j: nat, b: bytes)
    requires forall k | 0 <= k < |log| :: log[k].offset + log[k].length <= |photo|
    requires i < j < |log| && 1 <= |a| <= log[i].length && |b| <= log[j].length
    requires a == photo[log[i].offset..log[i].offset + |a|] && b == photo[log[j].offset..log[j].offset + |b|]
    ensures AnsweredHonestly(log, TwoAnswers(|log|, i, [a], j, Closed(b)), photo)
  {
    hide Content;
    ContentOfClosed(a, b);
  }

  lemma ClosedEnds(a: bytes, b: bytes)
    requires a != []
    ensures var blocks := [a] + Closed(b);
            blocks[|blocks| - 1] == [] && forall k | 0 <= k < |blocks| - 1 :: blocks[k] != []
  {
  }

  lemma ServesTwo(log: seq<Request>, i: nat, a: seq<bytes>, j: nat, b: seq<bytes>)
    requires i < j < |log| && log[i].id == log[j].id
    ensures Serves(NoData(log[j].at, LatestAt(log)) + DataEvents(log[j].id, a + b), log, TwoAnswers(|log|, i, a, j, b))
  {
    hide BlocksOf, AnswersTo, NoData, DataEvents, TwoAnswers, Causal, LatestAt;
    var at, n := log[j].at, LatestAt(log);
    var before, rest := NoData(at, n), DataEvents(log[j].id, a + b);
    forall k | 0 <= k < |log|
      ensures Causal(before + rest, log[k])
      ensures BlocksOf(before + rest, log[k].id) == AnswersTo(log, TwoAnswers(|log|, i, a, j, b), log[k].id)
    {
      OnlyNoData(at, n, rest, log[k]);
      BlocksBehind(before, rest, log[k].id);
      BlocksOfData(log[j].id, a + b, log[k].id);
      TwoAnswersTo(log, i, a, j, b, log[k].id);
    }
  }

  lemma OnlyNoData(at: nat, n: nat, rest: seq<Event>, q: Request)
    ensures forall k | 0 <= k < n :: !IsDataOf(NoData(at, n)[k], q.id)
    ensures q.at <= n ==> Causal(NoData(at, n) + rest, q)
  {
  }

  lemma WrongBytes(total: nat, o: nat, offset: nat, length: nat)
    requires o < total && 1 <= length && offset + length <= total && (length >= 2 || o != offset)
    ensures var photo := Marked(total, offset);
            photo[o..o + 1] + photo[offset..offset + length - 1] != photo[offset..offset + length]
  {
    var photo := Marked(total, offset);
    var data, part := photo[o..o + 1] + photo[offset..offset + length - 1], photo[offset..offset + length];
    if o == offset {
      assert data[1] == photo[offset] == 1 && part[1] == photo[offset + 1] == 0;
    } else {
      assert data[0] == photo[o] == 0 && part[0] == photo[offset] == 1;
    }
  }

  /** Distinct ids are exactly what it takes for an honest camera's answers to be kept as the right bytes. */
  lemma IdsMustDiffer(log: seq<Request>, total: nat)
    requires forall k | 0 <= k < |log| :: log[k].length >= 2 && log[k].offset + log[k].length <= total
    ensures DistinctIds(log) <==>
            forall photo: bytes, events, answers
              | |photo| == total && Serves(events, log, answers) && AnsweredHonestly(log, answers, photo) ::
              RightBytes(events, log, photo)
  {
    hide Serves, AnsweredHonestly, RightBytes, Honest;
    if DistinctIds(log) {
      forall photo: bytes, events, answers
        | |photo| == total && Serves(events, log, answers) && AnsweredHonestly(log, answers, photo)
        ensures RightBytes(events, log, photo)
      {
        ServedHonestly(events, log, answers, photo);
        HonestIsRight(events, log, photo);
      }
    } else {
      var i: nat, j: nat :| i < j < |log| && log[i].id == log[j].id;
      var photo, events, answers := SharedIdMisleads(log, total, i, j);
    }
  }

  // ---------- the client ----------

  /** The frame of a GetObjectInfo command. */
  function InfoFrame(id: u32, handle: u32): bytes
  {
    CommandFrame(GET_OBJECT_INFO, id, Write32(handle))
  }

  /**
   Asking for an object's info under an id: the command is sent, as far as writes allow, and if it
   is, the first response to it decides.
   */
  ghost predicate Questioned(id: u32, handle: u32, session: SessionConfig, before: bytes, after: bytes,
                             events: seq<Event>, from: nat, to: nat, r: Result<R.ObjectInfo>) {
    var sent := r != Err(SendFailed);
    && Transmitted(before, after, InfoFrame(id, handle), session.maxRetries, sent)
    && (sent ==> exists answer | FirstAnswer(events, from, id, answer, to) ::
          r == if answer.Ok? then R.ObjectInfoAt(answer.value.payload, handle) else Err(answer.error))
  }

  /** `CameraClient::get_object_info`. */
  method GetObjectInfo(conn: Connection, handle: u32, session: SessionConfig) returns (r: Result<R.ObjectInfo>)
    requires conn.Valid()
    modifies conn
    ensures conn.Valid() && conn.log == old(conn.log) && conn.idsDrawn == old(conn.idsDrawn) + 1
    ensures Questioned(conn.ids(old(conn.idsDrawn)), handle, session, old(conn.outgoing), conn.outgoing, conn.timeline,
                       old(conn.consumed), conn.consumed, r)
    ensures NeverBreaks(conn) ==>
              && r != Err(SendFailed)
              && conn.outgoing == old(conn.outgoing) + InfoFrame(conn.ids(old(conn.idsDrawn)), handle)
  {
    hide R.ObjectInfoAt, Transmitted, First, FirstAnswer, Events;
    var id := conn.DrawId();
    var sent := SendCommand(conn, GET_OBJECT_INFO, id, Write32(handle), session);
    if sent.Err? {
      return Err(sent.error);
    }
    var response :- conn.GetResponse(id);
    r := R.ParseObjectInfo(response.payload, handle);
  }

  /**
   What is received, from the first byte to the last, is the framing of bursts of packets in which
   the camera answers the commands in `log` honestly, each under an id of its own.
   */
  ghost predicate Converses(timeline: seq<Event>, bursts: seq<seq<Packet>>, log: seq<Request>,
                            answers: seq<seq<bytes>>, photo: bytes) {
    && (forall i | 0 <= i < |bursts| :: AllFramable(bursts[i]))
    && timeline == Events(FramedBursts(bursts))
    && Serves(Timeline(bursts), log, answers) && DistinctIds(log) && AnsweredHonestly(log, answers, photo)
  }

  ghost predicate HonestCamera(timeline: seq<Event>, log: seq<Request>, photo: bytes) {
    exists bursts, answers :: Converses(timeline, bursts, log, answers, photo)
  }

  lemma HonestCameraIsHonest(timeline: seq<Event>, log: seq<Request>, photo: bytes)
    requires HonestCamera(timeline, log, photo)
    ensures Honest(timeline, log, photo)
  {
    hide Serves, AnsweredHonestly, Honest, Events;
    var bursts, answers :| Converses(timeline, bursts, log, answers, photo);
    EventsOfFramedBursts(bursts);
    ServedHonestly(timeline, log, answers, photo);
  }

  lemma ServesPart(events: seq<Event>, log: seq<Request>, answers: seq<seq<bytes>>, from: nat, to: nat)
    requires Serves(events, log, answers) && DistinctIds(log) && from <= to <= |log|
    ensures Serves(events, log[from..to], answers[from..to]) && DistinctIds(log[from..to])
  {
    hide BlocksOf, AnswersTo, Causal;
    var part := log[from..to];
    forall i | 0 <= i < |part|
      ensures Causal(events, part[i]) && BlocksOf(events, part[i].id) == AnswersTo(part, answers[from..to], part[i].id)
    {
      assert part[i] == log[from + i] && answers[from..to][i] == answers[from + i];
      OnlyAnswer(log, answers, from + i);
      OnlyAnswer(part, answers[from..to], i);
    }
  }

  /** A camera that is honest about all commands is honest about those of each attempt. */
  lemma HonestCameraParts(timeline: seq<Event>, a: seq<Request>, b: seq<Request>, photo: bytes)
    requires HonestCamera(timeline, a + b, photo)
    ensures HonestCamera(timeline, a, photo) && HonestCamera(timeline, b, photo)
  {
    hide Serves, Events, HonestAnswer, DistinctIds;
    var log := a + b;
    var bursts, answers :| Converses(timeline, bursts, log, answers, photo);
    assert log[0..|a|] == a && log[|a|..|log|] == b;
    ServesPart(Timeline(bursts), log, answers, 0, |a|);
    ServesPart(Timeline(bursts), log, answers, |a|, |log|);
    assert Converses(timeline, bursts, a, answers[0..|a|], photo);
    assert Converses(timeline, bursts, b, answers[|a|..|log|], photo);
  }

  ghost predicate AllSafe(ws: seq<World>, photo: bytes) {
    forall i | 0 <= i < |ws| :: Safe(ws[i].dir, photo)
  }

  /** The states of a directory while attempts, crashes between them included, download a photo. */
  ghost predicate Story(ws: seq<World>, photo: bytes) {
    Run(|photo|, ws) && TruthfulRun(photo, ws)
  }

  lemma StoryStarts(w: World, total: nat, photo: bytes)
    requires w.phase.Idle?
    ensures Run(total, [w]) && TruthfulRun(photo, [w])
  {
  }

  lemma StoryIsSafe(ws: seq<World>, photo: bytes)
    requires Story(ws, photo) && Safe(ws[0].dir, photo)
    ensures AllSafe(ws, photo)
  {
    forall i | 0 <= i < |ws| ensures Safe(ws[i].dir, photo) {
      RunIsSafe(photo, ws, i);
    }
  }

  predicate Finished(d: Dir, photo: bytes) {
    d.target == Some(photo) && d.temp.None?
  }

  /**
   Where an attempt that found `d` and left `d'` fetches from, and where the next one goes on if
   the camera or the network ended it.
   */
  predicate Progressed(job: Job, d: Dir, d': Dir, t: Tally, failure: Option<Error>) {
    var start := StartOf(d, job.total);
    && Ranges(t.issued) == Issued(job.handle, start, job.total, job.config, t.attempts)
    && (failure.Some? && Interrupted(failure.value) ==>
          StartOf(d', job.total) == Off(start, job.total, job.config, t.n))
  }

  /** When an attempt leaves the object behind: if it answers Ok, and, undisturbed, exactly if it can. */
  ghost predicate Delivers(job: Job, d: Dir, d': Dir, t: Tally, failure: Option<Error>, photo: bytes, conn: Connection,
                           ws: W.Workspace) {
    && (failure.None? ==> Finished(d', photo))
    && (Undisturbed(t, job.session, conn, ws) ==>
          (d'.target == Some(photo) <==> Completes(d, job.total, job.config)))
  }

  /** What the contract of a download says of an attempt. */
  lemma DownloadSays(job: Job, b: Before, t: Tally, r: Result<()>, photo: bytes, conn: Connection, ws: W.Workspace,
                     stats: DownloadStats)
    requires BooksKept(job, b, t, r, conn, stats) && LeftSafe(job, b, t, r, photo, conn, ws)
    requires LeftResumable(job, b, t, r, conn, ws, stats) && b.trace == [World(b.dir, Idle)]
    ensures conn.log == b.log + t.issued && (NeverBreaks(conn) ==> Wired(b.outgoing, conn.outgoing, t.issued))
    ensures ws.At(job.total, Idle) && ws.trace[0] == World(b.dir, Idle)
    ensures Progressed(job, b.dir, ws.CurrentDir(), t, Failure(r)) && stats.chunks == b.chunks + t.n
    ensures r.Ok? ==> && stats.downloadedBytes == job.total
                      && Booked(t, job.handle, StartOf(b.dir, job.total), job.total, job.config, job.session,
                                job.checkpoints, job.total, stats.retries - b.retries, None)
    ensures |photo| == job.total && Honest(conn.timeline, t.issued, photo) && Safe(b.dir, photo) ==>
              && Story(ws.trace, photo) && AllSafe(ws.trace, photo)
              && Delivers(job, b.dir, ws.CurrentDir(), t, Failure(r), photo, conn, ws)
  {
    hide Honest, Safe, Run, TruthfulRun, StartOf, Off, Undisturbed, Completes, Wired, AllSafe, Issued, Ranges;
    StoryStarts(b.trace[0], job.total, photo);
    if |photo| == job.total && Honest(conn.timeline, t.issued, photo) && Safe(b.dir, photo) {
      StoryIsSafe(ws.trace, photo);
    }
  }

  /** The download behind `download_photo`. */
  method DownloadObject(conn: Connection, ws: W.Workspace, stats: DownloadStats, progress: ProgressCallback, job: Job,
                        ghost photo: bytes)
    returns (r: Result<()>, ghost t: Tally)
    requires conn.Valid() && ws.trace == [World(ws.CurrentDir(), Idle)]
    requires stats.chunks == 0 && stats.retries == 0
    modifies conn, ws, stats`downloadedBytes, stats`chunks, stats`retries, progress
    ensures conn.Valid() && conn.log == old(conn.log) + t.issued
    ensures NeverBreaks(conn) ==> Wired(old(conn.outgoing), conn.outgoing, t.issued)
    ensures ws.At(job.total, Idle) && ws.trace[0] == World(old(ws.CurrentDir()), Idle)
    ensures Progressed(job, old(ws.CurrentDir()), ws.CurrentDir(), t, Failure(r)) && stats.chunks == t.n
    ensures old(progress.calls) <= progress.calls
    ensures Told(progress.calls[|old(progress.calls)|..], StartOf(old(ws.CurrentDir()), job.total), job.total,
                 job.config, t.n, r.Ok?)
    ensures r.Ok? ==> && stats.downloadedBytes == job.total
                      && Booked(t, job.handle, StartOf(old(ws.CurrentDir()), job.total), job.total, job.config,
                                job.session, job.checkpoints, job.total, stats.retries, None)
    ensures (&& |photo| == job.total && HonestCamera(conn.timeline, t.issued, photo)
             && Safe(old(ws.CurrentDir()), photo)) ==>
              && Story(ws.trace, photo) && AllSafe(ws.trace, photo)
              && Delivers(job, old(ws.CurrentDir()), ws.CurrentDir(), t, Failure(r), photo, conn, ws)
  {
    hide BooksKept, LeftSafe, LeftResumable, Told, Delivers, Progressed, Booked, StartOf, HonestCamera, Honest, Safe,
      Story, AllSafe, Run, Events, Wired, CallsOf;
    ghost var b := Snapshot(conn, ws, stats, progress);
    StoryStarts(ws.trace[0], job.total, photo);
    r, t := DownloadObjectWithResume(conn, ws, stats, progress, job, photo);
    DownloadSays(job, b, t, r, photo, conn, ws, stats);
    if HonestCamera(conn.timeline, t.issued, photo) {
      HonestCameraIsHonest(conn.timeline, t.issued, photo);
    }
  }

  predicate Spoke(before: bytes, after: bytes, said: seq<Heard>) {
    before <= after && Hear(after[|before|..]) == said
  }

  /** The camera hears the question for the object's size, and then the requests. */
  lemma HeardFromPhoto(before: bytes, mid: bytes, after: bytes, id: u32, handle: u32, log: seq<Request>)
    requires mid == before + InfoFrame(id, handle) && Wired(mid, after, log)
    ensures Spoke(before, after, [Heard(id, GET_OBJECT_INFO, [handle])] + AllSaid(log))
  {
    assert WordsAt(Write32(handle), 0, 1) == [handle] by {
      assert Write32(handle)[0..4] == Write32(handle);
      Read32(Write32(handle), 0, handle);
    }
    hide Hear, SentBytes, CommandBytes, FramesOf, AllSaid, WordsAt, Write32;
    var frame := SentBytes(Packet(CommandBlock, id, CommandBytes(GET_OBJECT_INFO, [handle])));
    HearCommand(id, GET_OBJECT_INFO, [handle], FramesOf(log));
    HearFrames(log);
    Joined(before, frame, FramesOf(log));
    assert after[|before|..] == frame + FramesOf(log);
  }

  /**
   `CameraClient::download_photo`, end to end: if what the socket brings is the framing of an
   honest camera's packets, the size it reports is right, and the directory starts safe, then Ok
   means the target is the object, byte for byte; every state the directory goes through on the
   way, where a crash could leave it, is safe; and if nothing disturbs the download the target ends
   up as the object exactly if the saved offset was not unreadable and no chunk too wide.  The
   connection and the directory may have been used before, by earlier attempts too.  If no write
   breaks, the camera hears exactly the commands that the books hold.
   */
  method DownloadPhoto(conn: Connection, ws: W.Workspace, handle: u32, session: SessionConfig, config: ChunkConfig,
                       checkpoints: seq<nat>, progress: ProgressCallback, ghost photo: bytes)
    returns (r: Result<DownloadStats>, ghost info: Result<R.ObjectInfo>, ghost t: Tally)
    requires conn.Valid()
    modifies conn, ws, progress
    ensures conn.Valid() && conn.log == old(conn.log) + t.issued
    ensures NeverBreaks(conn) ==>
              Spoke(old(conn.outgoing), conn.outgoing,
                    [Heard(conn.ids(old(conn.idsDrawn)), GET_OBJECT_INFO, [handle])] + AllSaid(t.issued))
    ensures ws.trace != [] && ws.trace[0] == World(old(ws.CurrentDir()), Idle)
    ensures LastOf(ws.trace) == World(ws.CurrentDir(), Idle)
    ensures info.Err? ==> && r == Err(info.error) && |ws.trace| == 1 && t.issued == []
                          && progress.calls == old(progress.calls)
    ensures info.Ok? ==>
              && old(progress.calls) <= progress.calls
              && Told(progress.calls[|old(progress.calls)|..], StartOf(old(ws.CurrentDir()), info.value.objectSize),
                      info.value.objectSize, config, t.n, r.Ok?)
    ensures info.Ok? ==>
              var job := Job(handle, session, config, checkpoints, info.value.objectSize);
              Run(job.total, ws.trace) && Progressed(job, old(ws.CurrentDir()), ws.CurrentDir(), t, Failure(r))
    ensures r.Ok? ==>
              var start := StartOf(old(ws.CurrentDir()), info.value.objectSize);
              && info.Ok? && fresh(r.value)
              && r.value.totalBytes == info.value.objectSize == r.value.downloadedBytes
              && r.value.chunks == t.n
              && Booked(t, handle, start, info.value.objectSize, config, session, checkpoints,
                        info.value.objectSize, r.value.retries, None)
    ensures (&& info.Ok? && info.value.objectSize == |photo|
             && HonestCamera(conn.timeline, t.issued, photo) && Safe(old(ws.CurrentDir()), photo)) ==>
              var job := Job(handle, session, config, checkpoints, |photo|);
              && Story(ws.trace, photo) && AllSafe(ws.trace, photo)
              && Delivers(job, old(ws.CurrentDir()), ws.CurrentDir(), t, Failure(r), photo, conn, ws)
  {
    hide Delivers, Progressed, Spoke, Told, Booked, StartOf, HonestCamera, Safe, Story, AllSafe, Run, Events,
      Questioned, Wired, InfoFrame;
    t := Tally([], [], 0, []);
    var stats := new DownloadStats();
    ws.Open();
    var got := GetObjectInfo(conn, handle, session);
    info := got;
    ghost var asked := conn.outgoing;
    WiredOne(asked, [], Request(0, 0, 0, 0, 0));
    if got.Err? {
      if NeverBreaks(conn) {
        HeardFromPhoto(old(conn.outgoing), asked, asked, conn.ids(old(conn.idsDrawn)), handle, []);
      }
      return Err(got.error), info, t;
    }
    stats.totalBytes := got.value.objectSize;
    var job := Job(handle, session, config, checkpoints, got.value.objectSize);
    var done;
    done, t := DownloadObject(conn, ws, stats, progress, job, photo);
    if NeverBreaks(conn) {
      HeardFromPhoto(old(conn.outgoing), asked, conn.outgoing, conn.ids(old(conn.idsDrawn)), handle, t.issued);
    }
    r := if done.Err? then Err(done.error) else Ok(stats);
  }

  // ---------- trying again ----------

  /** What a caller may change from one attempt to the next. */
  datatype Settings = Settings(config: ChunkConfig, checkpoints: seq<nat>)

  /** An attempt: what the camera reported, the directory before and after, the books, how it failed. */
  datatype Attempt = Attempt(settings: Settings, info: Result<R.ObjectInfo>, before: Dir, after: Dir, t: Tally,
                             failure: Option<Error>)

  function JobOf(a: Attempt, handle: u32, session: SessionConfig): Job
    requires a.info.Ok?
  {
    Job(handle, session, a.settings.config, a.settings.checkpoints, a.info.value.objectSize)
  }

  function AllIssued(made: seq<Attempt>): seq<Request>
  {
    if made == [] then [] else AllIssued(made[..|made| - 1]) + made[|made| - 1].t.issued
  }

  /** Each attempt finds what the one before has left, and goes on where that one says. */
  predicate GoOn(made: seq<Attempt>, handle: u32, session: SessionConfig) {
    && (forall k | 0 <= k < |made| && made[k].info.Ok? ::
          Progressed(JobOf(made[k], handle, session), made[k].before, made[k].after, made[k].t, made[k].failure))
    && (forall k | 0 < k < |made| :: made[k].before == made[k - 1].after)
  }

  predicate SizesRight(made: seq<Attempt>, photo: bytes) {
    forall k | 0 <= k < |made| && made[k].info.Ok? :: made[k].info.value.objectSize == |photo|
  }

  ghost predicate AllDeliver(made: seq<Attempt>, handle: u32, session: SessionConfig, photo: bytes, conn: Connection,
                             ws: W.Workspace) {
    forall k | 0 <= k < |made| && made[k].info.Ok? ::
      Delivers(JobOf(made[k], handle, session), made[k].before, made[k].after, made[k].t, made[k].failure, photo,
               conn, ws)
  }

  /** One of the attempts has left the target complete. */
  predicate AnyComplete(made: seq<Attempt>, photo: bytes) {
    exists k | 0 <= k < |made| :: made[k].after.target == Some(photo)
  }

  lemma MoreIssued(made: seq<Attempt>, a: Attempt)
    ensures AllIssued(made + [a]) == AllIssued(made) + a.t.issued
  {
    assert (made + [a])[..|made|] == made;
  }

  lemma MoreSizes(made: seq<Attempt>, a: Attempt, photo: bytes)
    requires SizesRight(made + [a], photo)
    ensures SizesRight(made, photo) && (a.info.Ok? ==> a.info.value.objectSize == |photo|)
  {
    var more := made + [a];
    assert more[|made|] == a && forall k | 0 <= k < |made| :: more[k] == made[k];
  }

  lemma MoreComplete(made: seq<Attempt>, a: Attempt, photo: bytes)
    requires AnyComplete(made + [a], photo)
    ensures AnyComplete(made, photo) || a.after.target == Some(photo)
  {
    var more := made + [a];
    var k :| 0 <= k < |more| && more[k].after.target == Some(photo);
    assert k < |made| ==> more[k] == made[k];
  }

  lemma MoreGoOn(made: seq<Attempt>, a: Attempt, handle: u32, session: SessionConfig)
    requires GoOn(made, handle, session) && (made != [] ==> made[|made| - 1].after == a.before)
    requires a.info.Ok? ==> Progressed(JobOf(a, handle, session), a.before, a.after, a.t, a.failure)
    ensures GoOn(made + [a], handle, session)
  {
    hide Progressed;
    var more := made + [a];
    assert more[|made|] == a && forall k | 0 <= k < |made| :: more[k] == made[k];
  }

  lemma MoreDeliver(made: seq<Attempt>, a: Attempt, handle: u32, session: SessionConfig, photo: bytes,
                    conn: Connection, ws: W.Workspace)
    requires AllDeliver(made, handle, session, photo, conn, ws)
    requires a.info.Ok? ==> Delivers(JobOf(a, handle, session), a.before, a.after, a.t, a.failure, photo, conn, ws)
    ensures AllDeliver(made + [a], handle, session, photo, conn, ws)
  {
    hide Delivers;
    var more := made + [a];
    assert more[|made|] == a && forall k | 0 <= k < |made| :: more[k] == made[k];
  }

  /** Once complete, the target is the object in every later state. */
  ghost predicate CompletedStays(ws: seq<World>, photo: bytes) {
    forall i, j | 0 <= i <= j < |ws| && Complete(ws[i].dir.target, |photo|) :: ws[j].dir.target == Some(photo)
  }

  /** One more attempt, from the directory the earlier ones have left. */
  lemma StoryGoesOn(states: seq<World>, trace: seq<World>, photo: bytes)
    requires Story(states, photo) && Story(trace, photo) && Safe(states[0].dir, photo)
    requires LastOf(states).dir == trace[0].dir
    ensures Story(states + trace, photo)
    ensures LastOf(states).dir.target == Some(photo) || LastOf(trace).dir.target == Some(photo) ==>
              Finished(LastOf(trace).dir, photo)
  {
    RunsJoin(photo, states, trace);
    RunIsSafe(photo, states, |states| - 1);
    RunIsSafe(photo, trace, |trace| - 1);
    if LastOf(states).dir.target == Some(photo) {
      CompletedTargetStays(photo, trace, 0, |trace| - 1);
    }
  }

  lemma StoryEnds(ws: seq<World>, photo: bytes)
    requires Story(ws, photo) && Safe(ws[0].dir, photo)
    ensures AllSafe(ws, photo) && CompletedStays(ws, photo)
  {
    StoryIsSafe(ws, photo);
    forall i, j | 0 <= i <= j < |ws| && Complete(ws[i].dir.target, |photo|)
      ensures ws[j].dir.target == Some(photo)
    {
      CompletedTargetStays(photo, ws, i, j);
    }
  }

  /** What the results rest on: an honest camera that reports the right size, and a safe start. */
  ghost predicate Sound(timeline: seq<Event>, made: seq<Attempt>, d: Dir, photo: bytes) {
    HonestCamera(timeline, AllIssued(made), photo) && SizesRight(made, photo) && Safe(d, photo)
  }

  /** What holds of a series of attempts so far. */
  ghost predicate Series(made: seq<Attempt>, states: seq<World>, handle: u32, session: SessionConfig, photo: bytes,
                         conn: Connection, ws: W.Workspace)
    requires states != []
  {
    && Story(states, photo) && AllDeliver(made, handle, session, photo, conn, ws)
    && (AnyComplete(made, photo) ==> Finished(LastOf(states).dir, photo))
  }

  lemma AttemptJoins(made: seq<Attempt>, a: Attempt, states: seq<World>, trace: seq<World>, handle: u32,
                     session: SessionConfig, photo: bytes, conn: Connection, ws: W.Workspace)
    requires states != [] && trace != [] && LastOf(states).dir == trace[0].dir == a.before && trace[0].phase.Idle?
    requires LastOf(trace).dir == a.after
    requires Sound(conn.timeline, made, states[0].dir, photo) ==>
               Series(made, states, handle, session, photo, conn, ws)
    requires a.info.Err? ==> |trace| == 1
    requires (&& a.info.Ok? && a.info.value.objectSize == |photo|
              && HonestCamera(conn.timeline, a.t.issued, photo) && Safe(a.before, photo)) ==>
               && Story(trace, photo)
               && Delivers(JobOf(a, handle, session), a.before, a.after, a.t, a.failure, photo, conn, ws)
    ensures Sound(conn.timeline, made + [a], states[0].dir, photo) ==>
              Series(made + [a], states + trace, handle, session, photo, conn, ws)
  {
    hide HonestCamera, Safe, Run, TruthfulRun, AllIssued, SizesRight, AllDeliver, AnyComplete, Delivers;
    MoreIssued(made, a);
    if Sound(conn.timeline, made + [a], states[0].dir, photo) {
      MoreSizes(made, a, photo);
      HonestCameraParts(conn.timeline, AllIssued(made), a.t.issued, photo);
      RunIsSafe(photo, states, |states| - 1);
      StoryStarts(trace[0], |photo|, photo);
      assert |trace| == 1 ==> trace == [trace[0]];
      StoryGoesOn(states, trace, photo);
      MoreDeliver(made, a, handle, session, photo, conn, ws);
      if AnyComplete(made + [a], photo) {
        MoreComplete(made, a, photo);
      }
    }
  }

  lemma NoneMade(handle: u32, session: SessionConfig, photo: bytes, conn: Connection, ws: W.Workspace)
    ensures AllIssued([]) == [] && GoOn([], handle, session) && AllDeliver([], handle, session, photo, conn, ws)
    ensures !AnyComplete([], photo)
  {
  }

  /**
   A caller who tries again, any number of times, over one connection and one directory, and with
   other settings each time.  Attempts may fail; late answers to one may arrive during the next.
   An attempt after an interrupted one goes on where that one stopped.  If the camera is honest about
   all their commands and all of these have distinct ids, every state of the directory over all
   attempts is safe; each attempt that answers Ok leaves the object, and so does, undisturbed, exactly
   each that can; and once the target has become complete it is the object and stays it.
   */
  method DownloadInAttempts(conn: Connection, ws: W.Workspace, handle: u32, session: SessionConfig,
                            attempts: seq<Settings>, progress: ProgressCallback, ghost photo: bytes)
    returns (results: seq<Result<DownloadStats>>, ghost made: seq<Attempt>, ghost states: seq<World>)
    requires conn.Valid()
    modifies conn, ws, progress
    ensures |results| == |made| == |attempts|
    ensures forall k | 0 <= k < |attempts| :: made[k].settings == attempts[k] && made[k].failure == Failure(results[k])
    ensures conn.Valid() && conn.log == old(conn.log) + AllIssued(made)
    ensures GoOn(made, handle, session)
    ensures made != [] ==> made[0].before == old(ws.CurrentDir()) && made[|made| - 1].after == ws.CurrentDir()
    ensures states != [] && states[0].dir == old(ws.CurrentDir()) && LastOf(states).dir == ws.CurrentDir()
    ensures Sound(conn.timeline, made, old(ws.CurrentDir()), photo) ==>
              && Story(states, photo) && AllSafe(states, photo) && CompletedStays(states, photo)
              && AllDeliver(made, handle, session, photo, conn, ws)
              && (AnyComplete(made, photo) ==> Finished(ws.CurrentDir(), photo))
  {
    hide HonestCamera, SizesRight, Safe, Run, TruthfulRun, AllIssued, GoOn, Progressed, AllDeliver, AnyComplete,
      Delivers, AllSafe, CompletedStays, Booked, StartOf, Off, Events, Spoke, Series, Story, Connection.Valid;
    results, made, states := [], [], [World(ws.CurrentDir(), Idle)];
    NoneMade(handle, session, photo, conn, ws);
    SeriesStarts(states[0], handle, session, photo, conn, ws);
    for k := 0 to |attempts|
      invariant |results| == |made| == k
      invariant forall i | 0 <= i < k :: made[i].settings == attempts[i] && made[i].failure == Failure(results[i])
      invariant conn.Valid() && conn.log == old(conn.log) + AllIssued(made)
      invariant GoOn(made, handle, session)
      invariant made != [] ==> made[0].before == old(ws.CurrentDir()) && made[|made| - 1].after == ws.CurrentDir()
      invariant states != [] && states[0].dir == old(ws.CurrentDir()) && LastOf(states).dir == ws.CurrentDir()
      invariant made == [] ==> ws.CurrentDir() == old(ws.CurrentDir())
      invariant Sound(conn.timeline, made, states[0].dir, photo) ==>
                  Series(made, states, handle, session, photo, conn, ws)
    {
      ghost var before := ws.CurrentDir();
      var r;
      ghost var info, t;
      r, info, t := DownloadPhoto(conn, ws, handle, session, attempts[k].config, attempts[k].checkpoints, progress,
                                  photo);
      ghost var a := Attempt(attempts[k], info, before, ws.CurrentDir(), t, Failure(r));
      MoreIssued(made, a);
      MoreGoOn(made, a, handle, session);
      AttemptJoins(made, a, states, ws.trace, handle, session, photo, conn, ws);
      results, made, states := results + [r], made + [a], states + ws.trace;
    }
    if Sound(conn.timeline, made, states[0].dir, photo) {
      SeriesEnds(made, states, handle, session, photo, conn, ws);
    }
  }

  lemma SeriesStarts(w: World, handle: u32, session: SessionConfig, photo: bytes, conn: Connection, ws: W.Workspace)
    requires w.phase.Idle?
    ensures Series([], [w], handle, session, photo, conn, ws)
  {
    StoryStarts(w, |photo|, photo);
  }

  lemma SeriesEnds(made: seq<Attempt>, states: seq<World>, handle: u32, session: SessionConfig, photo: bytes,
                   conn: Connection, ws: W.Workspace)
    requires states != [] && Series(made, states, handle, session, photo, conn, ws) && Safe(states[0].dir, photo)
    ensures Story(states, photo) && AllSafe(states, photo) && CompletedStays(states, photo)
    ensures AllDeliver(made, handle, session, photo, conn, ws)
    ensures AnyComplete(made, photo) ==> Finished(LastOf(states).dir, photo)
  {
    hide AllDeliver, AnyComplete, Run, TruthfulRun;
    StoryEnds(states, photo);
  }
}
