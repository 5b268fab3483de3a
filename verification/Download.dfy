/** The resumable chunked download of src/commands.rs, over a connection and a directory. */
module Download {
  import opened Types
  import opened Framing
  import opened Demux
  import opened Transport
  import opened Commands
  import opened ResumeMachine
  import opened ChunkPlan
  import Decimal
  import Progress
  import W = Workspace

  /** The camera's reply to a command is the object at that range, or a beginning of it. */
  ghost predicate HonestReply(events: seq<Event>, q: Request, photo: bytes) {
    && Causal(events, q)
    && var reply := Reply(events, q.id);
    && |reply| <= q.length
    && q.offset + |reply| <= |photo|
    && reply == photo[q.offset..q.offset + |reply|]
  }

  ghost predicate Honest(events: seq<Event>, log: seq<Request>, photo: bytes) {
    forall i | 0 <= i < |log| :: HonestReply(events, log[i], photo)
  }

  /** A reply that is complete and as long as asked for. */
  ghost predicate FullyAnswered(events: seq<Event>, q: Request) {
    exists data :: Delivered(events, q, data) && |data| == q.length
  }

  /** What the camera completes in time, it sends in full. */
  ghost predicate FullOrNone(events: seq<Event>, log: seq<Request>) {
    forall i | 0 <= i < |log| && Answered(events, log[i]) :: FullyAnswered(events, log[i])
  }

  /** As many commands in a row as a chunk is tried, from the `i`th on, were not answered. */
  ghost predicate InVain(events: seq<Event>, log: seq<Request>, i: nat, session: SessionConfig) {
    var tries := session.maxRetries + 1;
    i + tries <= |log| && NoneAnswered(events, log[i..i + tries])
  }

  /** A camera that may leave commands unanswered, but never all tries for a chunk. */
  ghost predicate Responsive(events: seq<Event>, log: seq<Request>, session: SessionConfig) {
    FullOrNone(events, log) && forall i: nat :: !InVain(events, log, i, session)
  }

  /** The last tries were all in vain. */
  ghost predicate GivenUp(events: seq<Event>, log: seq<Request>, session: SessionConfig) {
    session.maxRetries < |log| && InVain(events, log, |log| - session.maxRetries - 1, session)
  }

  /** A camera that answers every command in full is responsive. */
  lemma AlwaysAnswering(events: seq<Event>, log: seq<Request>, session: SessionConfig)
    requires forall i | 0 <= i < |log| :: FullyAnswered(events, log[i])
    ensures Responsive(events, log, session)
  {
    var tries := session.maxRetries + 1;
    forall i: nat ensures !InVain(events, log, i, session) {
      if i + tries <= |log| {
        assert log[i..i + tries][0] == log[i];
        FullIsAnswered(events, log[i]);
      }
    }
  }

  lemma ResponsivePart(events: seq<Event>, a: seq<Request>, b: seq<Request>, session: SessionConfig)
    requires Responsive(events, a + b, session)
    ensures Responsive(events, a, session) && FullOrNone(events, b)
  {
    hide Answered, FullyAnswered, NoneAnswered;
    var c, tries := a + b, session.maxRetries + 1;
    forall i | 0 <= i < |a| ensures a[i] == c[i] {}
    forall i | 0 <= i < |b| ensures b[i] == c[|a| + i] {}
    forall i: nat ensures !InVain(events, a, i, session) {
      if i + tries <= |a| {
        assert a[i..i + tries] == c[i..i + tries];
        assert !InVain(events, c, i, session);
      }
    }
  }

  lemma GivenUpIsNotResponsive(events: seq<Event>, log: seq<Request>, session: SessionConfig)
    requires GivenUp(events, log, session)
    ensures !Responsive(events, log, session)
  {
  }

  lemma GivenUpAfter(events: seq<Event>, log: seq<Request>, tried: seq<Request>, session: SessionConfig)
    requires |tried| == session.maxRetries + 1 && NoneAnswered(events, tried)
    ensures GivenUp(events, log + tried, session)
  {
    assert (log + tried)[|log|..|log| + |tried|] == tried;
  }

  lemma HonestSplit(events: seq<Event>, a: seq<Request>, b: seq<Request>, photo: bytes)
    ensures Honest(events, a + b, photo) <==> Honest(events, a, photo) && Honest(events, b, photo)
  {
    var c := a + b;
    forall i | 0 <= i < |c| ensures c[i] == if i < |a| then a[i] else b[i - |a|] {}
    forall i | 0 <= i < |a| ensures a[i] == c[i] {}
    forall i | 0 <= i < |b| ensures b[i] == c[|a| + i] {}
  }

  /** A chunk that an honest camera delivers at full length is the object's bytes. */
  lemma HonestData(events: seq<Event>, q: Request, photo: bytes, data: bytes)
    requires HonestReply(events, q, photo) && Delivered(events, q, data)
    ensures |data| <= q.length && q.offset + |data| <= |photo|
    ensures data == photo[q.offset..q.offset + |data|]
  {
    DeliveredIsReply(events, q, data);
  }

  /**
   A chunk is asked for with its length cut to 32 bits.  What an honest camera delivers for a chunk
   of 2^32 bytes or more never has the right length; a full answer has it exactly below that.
   */
  lemma WideChunkNeverFits(events: seq<Event>, q: Request, photo: bytes, data: bytes, n: nat)
    requires HonestReply(events, q, photo) && Delivered(events, q, data) && q.length == n % WIDE
    ensures n >= WIDE ==> |data| != n
    ensures FullyAnswered(events, q) ==> (|data| == n <==> n < WIDE)
  {
    HonestData(events, q, photo, data);
  }

  lemma FullIsAnswered(events: seq<Event>, q: Request)
    ensures FullyAnswered(events, q) ==> Answered(events, q)
  {
  }

  lemma DeliveredIsAnswered(events: seq<Event>, q: Request, data: bytes)
    requires Delivered(events, q, data)
    ensures Answered(events, q)
  {
  }

  lemma FullLength(events: seq<Event>, q: Request, data: bytes)
    requires Delivered(events, q, data)
    ensures FullyAnswered(events, q) ==> |data| == q.length
  {
  }

  /** One call of the progress callback. */
  datatype Call = Call(current: nat, total: nat, complete: bool)

  class ProgressCallback {
    var calls: seq<Call>

    constructor ()
      ensures calls == []
    {
      calls := [];
    }

    method Invoke(current: nat, total: nat, complete: bool)
      modifies this
      ensures calls == old(calls) + [Call(current, total, complete)]
    {
      calls := calls + [Call(current, total, complete)];
    }
  }

  function CallsOf(reports: seq<Progress.Report>, total: nat): (calls: seq<Call>)
    ensures |calls| == |reports|
  {
    seq(|reports|, i requires 0 <= i < |reports| => Call(reports[i].offset, total, false))
  }

  /**
   What the callback is told in `calls`: for chunks among the first `n`, where they end, against the
   total and never as complete; later chunks later; and in the end, if the download is `done`, that
   it is complete, and that alone and once.
   */
  predicate Told(calls: seq<Call>, start: nat, total: nat, config: ChunkConfig, n: nat, done: bool)
    requires start <= total
  {
    var m := |calls| - if done then 1 else 0;
    && 0 <= m <= n
    && (forall k | 0 <= k < m ::
          && calls[k].total == total && !calls[k].complete
          && exists i | 0 < i <= n :: calls[k].current == Off(start, total, config, i))
    && (Finite(total - start, config) ==> forall k, l | 0 <= k < l < m :: calls[k].current < calls[l].current)
    && (done ==> calls[m].current == calls[m].total == total && calls[m].complete)
  }

  /** Where the first `n` chunks end. */
  function Ends(start: nat, total: nat, config: ChunkConfig, n: nat): (offsets: seq<nat>)
    requires start <= total
    ensures |offsets| == n
  {
    seq(n, i requires 0 <= i < n => Off(start, total, config, i + 1))
  }

  lemma {:induction false} EndsIncrease(start: nat, total: nat, config: ChunkConfig, n: nat)
    requires start <= total && Finite(total - start, config)
    requires n > 0 ==> Off(start, total, config, n - 1) < total
    ensures Progress.Increasing(Ends(start, total, config, n))
  {
    forall i, j | 0 <= i < j < n
      ensures Ends(start, total, config, n)[i] < Ends(start, total, config, n)[j]
    {
      OffMonotone(start, total, config, i + 1, j);
      OffMonotone(start, total, config, j, n - 1);
      CountIsExact(start, total, config, j);
      ChunkAdvances(total - Off(start, total, config, j), config);
    }
  }

  /** `write_all` of a chunk of the right size. */
  method WriteChunk(ws: W.Workspace, ghost config: ChunkConfig, total: u64, offset: u64, data: bytes,
                    ghost photo: bytes)
    returns (r: Result<()>)
    requires offset < total && ws.At(total, Loop(offset))
    requires ws.temp.Some? && |ws.temp.value| == offset
    requires |data| == ChunkLen(total - offset, config)
    modifies ws
    ensures old(ws.trace) <= ws.trace
    ensures offset + |data| <= |photo| && data == photo[offset..offset + |data|] ==>
              TruthfulRun(photo, old(ws.trace)) ==> TruthfulRun(photo, ws.trace)
    ensures ws.temp.Some? && ws.target == old(ws.target)
    ensures r.Ok? ==> ws.At(total, Saving(offset + |data|)) && |ws.temp.value| == offset + |data|
    ensures r.Err? ==> ws.At(total, Idle) && r.error == Io(Storage) && !ws.NeverFails()
  {
    ghost var written := ws.temp.value;
    r := ws.AppendTemp(data);
    if r.Err? {
      ghost var cut: nat :| cut <= |data| && ws.temp.value == written + data[..cut];
      assert ws.temp.value[offset..] == data[..cut];
      assert Appends(total, config, offset, LastOf(ws.trace).dir, World(ws.CurrentDir(), Idle));
      ws.Step(total, Idle, photo);
      return;
    }
    assert ws.temp.value[offset..] == data;
    assert Appends(total, config, offset, LastOf(ws.trace).dir, World(ws.CurrentDir(), Saving(offset + |data|)));
    ws.Step(total, Saving(offset + |data|), photo);
  }

  // ---------- accounting ----------

  /** What is asked for in chunk `i`; the length is cast to 32 bits. */
  function RangeAt(handle: u32, start: nat, total: nat, config: ChunkConfig, i: nat): Range
    requires start <= total
  {
    var o := Off(start, total, config, i);
    Range(handle, o, ChunkLen(total - o, config) % WIDE)
  }

  /** The ranges asked for when chunk `i` takes `attempts[i]` commands. */
  function Issued(handle: u32, start: nat, total: nat, config: ChunkConfig, attempts: seq<nat>): (ranges: seq<Range>)
    requires start <= total
    ensures |ranges| == Sum(attempts)
  {
    if attempts == [] then [] else
    var n := |attempts| - 1;
    Issued(handle, start, total, config, attempts[..n]) + Repeat(RangeAt(handle, start, total, config, n), attempts[n])
  }

  /**
   The commands of an attempt, chunk by chunk.  `n` chunks are done; a further entry of `attempts`
   belongs to a chunk that failed.  Every command but a chunk's last counts as a retry, and so does
   the last if it failed too.
   */
  ghost predicate Accounted(log: seq<Request>, handle: u32, start: nat, total: nat, config: ChunkConfig,
                            session: SessionConfig, attempts: seq<nat>, n: nat, retries: int, failure: Option<Error>)
    requires start <= total
  {
    var exhausted := failure.Some? && NetworkError(failure.value);
    && Ranges(log) == Issued(handle, start, total, config, attempts)
    && n <= |attempts| <= n + 1
    && (forall i | 0 <= i < |attempts| :: 1 <= attempts[i] <= session.maxRetries + 1)
    && (failure.None? ==> |attempts| == n)
    && (exhausted ==> |attempts| == n + 1 && attempts[n] == session.maxRetries + 1)
    && retries == Sum(attempts) - |attempts| + (if exhausted then 1 else 0)
  }

  /** The reports of the first `n` chunks. */
  function ReportsUpTo(checkpoints: seq<nat>, start: nat, total: nat, config: ChunkConfig, n: nat): seq<Progress.Report>
    requires start <= total
  {
    Progress.Reports(checkpoints, Ends(start, total, config, n))
  }

  lemma ReportsStep(checkpoints: seq<nat>, start: nat, total: nat, config: ChunkConfig, n: nat)
    requires start <= total
    ensures ReportsUpTo(checkpoints, start, total, config, n + 1)
         == Progress.After(checkpoints, ReportsUpTo(checkpoints, start, total, config, n),
                           Off(start, total, config, n + 1))
  {
    assert Ends(start, total, config, n + 1)[..n] == Ends(start, total, config, n);
  }

  /** The books of the chunk loop: its commands, the tries of each chunk, chunks done, reports made. */
  datatype Tally = Tally(issued: seq<Request>, attempts: seq<nat>, n: nat, reports: seq<Progress.Report>)

  ghost predicate Booked(t: Tally, handle: u32, start: nat, total: nat, config: ChunkConfig, session: SessionConfig,
                         checkpoints: seq<nat>, downloaded: nat, retries: int, failure: Option<Error>)
    requires start <= total
  {
    && Accounted(t.issued, handle, start, total, config, session, t.attempts, t.n, retries, failure)
    && downloaded == Off(start, total, config, t.n)
    && (t.n > 0 ==> Off(start, total, config, t.n - 1) < total)
    && t.reports == ReportsUpTo(checkpoints, start, total, config, t.n)
  }

  lemma AccountedExtends(log: seq<Request>, handle: u32, start: nat, total: nat, config: ChunkConfig,
                         session: SessionConfig, attempts: seq<nat>, n: nat, retries: int,
                         tried: seq<Request>, done: bool, retries': int, failure: Option<Error>)
    requires start <= total && Accounted(log, handle, start, total, config, session, attempts, n, retries, None)
    requires 1 <= |tried| <= session.maxRetries + 1
    requires Ranges(tried) == Repeat(RangeAt(handle, start, total, config, n), |tried|)
    requires failure.None? ==> done
    requires failure.Some? && NetworkError(failure.value) ==> |tried| == session.maxRetries + 1 && !done
    requires retries' == retries + |tried| - (if failure.Some? && NetworkError(failure.value) then 0 else 1)
    ensures Accounted(log + tried, handle, start, total, config, session, attempts + [|tried|],
                      if done then n + 1 else n, retries', failure)
  {
    hide Repeat, RangeAt, Ranges, Issued, Sum;
    RangesConcat(log, tried);
    IssuedSnoc(handle, start, total, config, attempts, |tried|);
  }

  lemma RangesConcat(a: seq<Request>, b: seq<Request>)
    ensures Ranges(a + b) == Ranges(a) + Ranges(b)
  {
  }

  lemma IssuedSnoc(handle: u32, start: nat, total: nat, config: ChunkConfig, attempts: seq<nat>, tries: nat)
    requires start <= total
    ensures Issued(handle, start, total, config, attempts + [tries])
         == Issued(handle, start, total, config, attempts)
          + Repeat(RangeAt(handle, start, total, config, |attempts|), tries)
    ensures Sum(attempts + [tries]) == Sum(attempts) + tries
  {
    hide Repeat, RangeAt;
    assert (attempts + [tries])[..|attempts|] == attempts;
  }

  lemma BookedExtends(t: Tally, handle: u32, start: nat, total: nat, config: ChunkConfig, session: SessionConfig,
                      checkpoints: seq<nat>, downloaded: nat, retries: int,
                      tried: seq<Request>, done: bool, downloaded': nat, retries': int, failure: Option<Error>,
                      reports': seq<Progress.Report>)
    requires start <= total && Booked(t, handle, start, total, config, session, checkpoints, downloaded, retries, None)
    requires downloaded < total && 1 <= |tried| <= session.maxRetries + 1
    requires Ranges(tried) == Repeat(Range(handle, downloaded, ChunkLen(total - downloaded, config) % WIDE), |tried|)
    requires downloaded' == downloaded + if done then ChunkLen(total - downloaded, config) else 0
    requires reports' == if done then Progress.After(checkpoints, t.reports, downloaded') else t.reports
    requires failure.None? ==> done
    requires failure.Some? && NetworkError(failure.value) ==> |tried| == session.maxRetries + 1 && !done
    requires retries' == retries + |tried| - (if failure.Some? && NetworkError(failure.value) then 0 else 1)
    ensures Booked(Tally(t.issued + tried, t.attempts + [|tried|], if done then t.n + 1 else t.n, reports'),
                   handle, start, total, config, session, checkpoints, downloaded', retries', failure)
  {
    hide Accounted, Ranges, Repeat, ReportsUpTo, Progress.After;
    AccountedExtends(t.issued, handle, start, total, config, session, t.attempts, t.n, retries, tried, done,
                     retries', failure);
    ReportsStep(checkpoints, start, total, config, t.n);
  }

  /**
   What the books say about the commands: as many as chunks and retries together, with at most
   `maxRetries` retries a chunk; a chunk given up on is charged with one more than that.
   */
  lemma CommandsAddUp(t: Tally, handle: u32, start: nat, total: nat, config: ChunkConfig, session: SessionConfig,
                      checkpoints: seq<nat>, downloaded: nat, retries: int, failure: Option<Error>)
    requires start <= total
    requires Booked(t, handle, start, total, config, session, checkpoints, downloaded, retries, failure)
    requires failure.None? || NetworkError(failure.value)
    ensures |t.issued| == t.n + retries
    ensures failure.None? ==> 0 <= retries <= t.n * session.maxRetries
    ensures failure.Some? ==> session.maxRetries + 1 <= retries <= t.n * session.maxRetries + session.maxRetries + 1
  {
    hide Off, ReportsUpTo, Issued, Ranges;
    assert |Ranges(t.issued)| == |t.issued|;
    SumBetween(t.attempts[..t.n], session.maxRetries);
    assert failure.None? ==> t.attempts[..t.n] == t.attempts;
  }

  /** A finished download has taken exactly the planned number of chunks. */
  lemma ChunksAsPlanned(t: Tally, handle: u32, start: nat, total: nat, config: ChunkConfig, session: SessionConfig,
                        checkpoints: seq<nat>, retries: int)
    requires start <= total
    requires Booked(t, handle, start, total, config, session, checkpoints, total, retries, None)
    ensures Finite(total - start, config) && t.n == Count(total - start, config)
  {
    hide Count, Accounted, ReportsUpTo, Finite;
    PlanFinishes(start, total, config);
    CountIsExact(start, total, config, t.n);
    if t.n > 0 {
      CountIsExact(start, total, config, t.n - 1);
    }
  }

  /** The progress reports of a download: at most one per chunk and per checkpoint, both rising. */
  lemma ReportsAreOrderly(t: Tally, handle: u32, start: nat, total: nat, config: ChunkConfig, session: SessionConfig,
                          checkpoints: seq<nat>, downloaded: nat, retries: int, failure: Option<Error>)
    requires start <= total && Finite(total - start, config) && Progress.NonDecreasing(checkpoints)
    requires Booked(t, handle, start, total, config, session, checkpoints, downloaded, retries, failure)
    ensures |t.reports| <= t.n && |t.reports| <= |checkpoints|
    ensures forall i, j | 0 <= i < j < |t.reports| ::
              t.reports[i].checkpoint < t.reports[j].checkpoint && t.reports[i].offset < t.reports[j].offset
  {
    hide Accounted, Off, Finite;
    EndsIncrease(start, total, config, t.n);
    Progress.ReportsRise(checkpoints, Ends(start, total, config, t.n));
    Progress.AtMostOnePerCheckpoint(checkpoints, Ends(start, total, config, t.n));
  }

  /** The calls that the books speak of are what the callback should be told. */
  lemma ReportsAreTold(t: Tally, handle: u32, start: nat, total: nat, config: ChunkConfig, session: SessionConfig,
                       checkpoints: seq<nat>, downloaded: nat, retries: int, failure: Option<Error>)
    requires start <= total
    requires Booked(t, handle, start, total, config, session, checkpoints, downloaded, retries, failure)
    ensures Told(CallsOf(t.reports, total), start, total, config, t.n, false)
    ensures Told(CallsOf(t.reports, total) + [Call(total, total, true)], start, total, config, t.n, true)
  {
    hide Accounted, Off, Finite;
    var ends := Ends(start, total, config, t.n);
    Progress.ReportsAtOffsets(checkpoints, ends);
    forall k | 0 <= k < |t.reports|
      ensures exists i | 0 < i <= t.n :: t.reports[k].offset == Off(start, total, config, i)
    {
      var i :| 0 <= i < |ends| && ends[i] == t.reports[k].offset;
      assert t.reports[k].offset == Off(start, total, config, i + 1);
    }
    if Finite(total - start, config) {
      EndsIncrease(start, total, config, t.n);
      Progress.ReportsRise(checkpoints, ends);
    }
  }

  /** The checkpoint test after a chunk, and its report. */
  method ReportProgress(progress: ProgressCallback, checkpoints: seq<nat>, last: nat, current: nat, total: nat,
                        ghost calls: seq<Call>, ghost reports: seq<Progress.Report>)
    returns (last': nat, ghost reports': seq<Progress.Report>)
    requires last == Progress.LastOf(reports) && progress.calls == calls + CallsOf(reports, total)
    modifies progress
    ensures reports' == Progress.After(checkpoints, reports, current)
    ensures last' == Progress.LastOf(reports') && progress.calls == calls + CallsOf(reports', total)
  {
    reports' := Progress.After(checkpoints, reports, current);
    last' := last;
    var due := Progress.FirstDue(checkpoints, last, current);
    if due.Some? {
      progress.Invoke(current, total, false);
      last' := due.value;
      assert CallsOf(reports', total) == CallsOf(reports, total) + [Call(current, total, false)];
    }
  }

  /**
   The second half of a round of the chunk loop: check the length of what arrived, append it,
   count it, report progress, and record the offset.  `done` says whether the chunk got as far
   as being counted.
   */
  method KeepChunk(ws: W.Workspace, config: ChunkConfig, stats: DownloadStats, checkpoints: seq<nat>,
                   progress: ProgressCallback, last: nat, total: u64, offset: u64, data: bytes,
                   ghost photo: bytes, ghost calls: seq<Call>, ghost reports: seq<Progress.Report>)
    returns (r: Result<()>, last': nat, ghost reports': seq<Progress.Report>, ghost done: bool)
    requires offset < total && ws.At(total, Loop(offset))
    requires ws.temp.Some? && |ws.temp.value| == offset == stats.downloadedBytes
    requires !Complete(ws.target, total)
    requires last == Progress.LastOf(reports) && progress.calls == calls + CallsOf(reports, total)
    modifies ws, stats`downloadedBytes, stats`chunks, progress
    ensures old(ws.trace) <= ws.trace
    ensures (|data| == ChunkLen(total - offset, config) ==>
               offset + |data| <= |photo| && data == photo[offset..offset + |data|]) ==>
              TruthfulRun(photo, old(ws.trace)) ==> TruthfulRun(photo, ws.trace)
    ensures stats.chunks == old(stats.chunks) + (if done then 1 else 0)
    ensures stats.downloadedBytes == offset + (if done then ChunkLen(total - offset, config) else 0)
    ensures reports' == if done then Progress.After(checkpoints, reports, stats.downloadedBytes) else reports
    ensures last' == Progress.LastOf(reports') && progress.calls == calls + CallsOf(reports', total)
    ensures ws.temp.Some? && ws.target == old(ws.target)
    ensures r.Ok? || r.error != Io(Storage) ==> && |ws.temp.value| == stats.downloadedBytes
                                                && StartOf(ws.CurrentDir(), total) == stats.downloadedBytes
    ensures r.Ok? ==> && done && ws.At(total, Loop(stats.downloadedBytes))
                      && |data| == ChunkLen(total - offset, config)
    ensures r.Err? ==> && ws.At(total, Idle)
                       && ((r.error == Io(Storage) && !ws.NeverFails())
                           || (r.error == ProtocolError(IncompleteChunk) && !done
                               && |data| != ChunkLen(total - offset, config)))
  {
    hide CallsOf, Progress.After, StartOf, Run, TruthfulRun;
    last', reports', done := last, reports, false;
    var chunkSize := ChunkLen(total - offset, config);
    if |data| != chunkSize {
      r := ws.RecordOffset(total, offset, photo);
      if r.Ok? {
        SavedOffsetHolds(ws.CurrentDir(), total, offset);
        r := Err(ProtocolError(IncompleteChunk));
      }
      return;
    }
    r := WriteChunk(ws, config, total, offset, data, photo);
    if r.Err? {
      return;
    }
    stats.downloadedBytes := offset + chunkSize;
    stats.chunks := stats.chunks + 1;
    done := true;
    last', reports' := ReportProgress(progress, checkpoints, last, offset + chunkSize, total, calls, reports);
    r := ws.RecordOffset(total, offset + chunkSize, photo);
    if r.Ok? {
      SavedOffsetHolds(ws.CurrentDir(), total, offset + chunkSize);
    }
  }

  /** The first half of a round: fetch the chunk with retries. */
  method FetchChunk(conn: Connection, handle: u32, session: SessionConfig, config: ChunkConfig,
                    stats: DownloadStats, total: u64, offset: u64, ghost photo: bytes)
    returns (r: Result<bytes>, ghost tried: seq<Request>)
    requires conn.Valid() && offset < total
    modifies conn, stats`retries
    ensures conn.Valid() && conn.log == old(conn.log) + tried
    ensures 1 <= |tried| <= session.maxRetries + 1
    ensures Ranges(tried) == Repeat(Range(handle, offset, ChunkLen(total - offset, config) % WIDE), |tried|)
    ensures stats.retries == old(stats.retries) + |tried| - (if r.Ok? then 1 else 0)
    ensures r.Ok? ==> old(conn.consumed) < conn.consumed
    ensures r.Ok? && Honest(conn.timeline, tried, photo) ==>
              |r.value| == ChunkLen(total - offset, config) ==>
              offset + |r.value| <= |photo| && r.value == photo[offset..offset + |r.value|]
    ensures r.Ok? && FullOrNone(conn.timeline, tried) ==>
              (|r.value| == ChunkLen(total - offset, config) <==> ChunkLen(total - offset, config) < WIDE)
    ensures r.Err? ==> NetworkError(r.error) && |tried| == session.maxRetries + 1
    ensures NeverBreaks(conn) ==> && Wired(old(conn.outgoing), conn.outgoing, tried)
                                  && (r.Err? ==> NoneAnswered(conn.timeline, tried))
  {
    hide Ranges, Repeat, Delivered, HonestReply, FullyAnswered, Answered, NoneAnswered, Wired;
    var chunkSize := ChunkLen(total - offset, config);
    r, tried := DownloadWithRetry(conn, handle, offset, chunkSize % WIDE, session, stats);
    ghost var q := tried[|tried| - 1];
    if r.Ok? {
      DeliveredIsAnswered(conn.timeline, q, r.value);
      FullLength(conn.timeline, q, r.value);
      if HonestReply(conn.timeline, q, photo) {
        HonestData(conn.timeline, q, photo, r.value);
      }
    }
  }

  /** The ways the chunk loop fails. */
  predicate LoopError(e: Error) {
    NetworkError(e) || e == ProtocolError(IncompleteChunk) || e == Io(Storage)
  }

  /** The failures that end an attempt cleanly: the camera's, not the disk's. */
  predicate Interrupted(e: Error) {
    NetworkError(e) || e == ProtocolError(IncompleteChunk)
  }

  /** One round of the chunk loop. */
  method ChunkRound(conn: Connection, handle: u32, ws: W.Workspace, session: SessionConfig, config: ChunkConfig,
                    stats: DownloadStats, checkpoints: seq<nat>, progress: ProgressCallback, last: nat, total: u64,
                    ghost photo: bytes, ghost calls: seq<Call>, ghost reports: seq<Progress.Report>)
    returns (r: Result<()>, last': nat, ghost reports': seq<Progress.Report>, ghost tried: seq<Request>,
             ghost done: bool)
    requires conn.Valid()
    requires stats.downloadedBytes < total && ws.At(total, Loop(stats.downloadedBytes))
    requires ws.temp.Some? && |ws.temp.value| == stats.downloadedBytes
    requires !Complete(ws.target, total) && StartOf(ws.CurrentDir(), total) == stats.downloadedBytes
    requires last == Progress.LastOf(reports) && progress.calls == calls + CallsOf(reports, total)
    modifies conn, ws, stats`downloadedBytes, stats`chunks, stats`retries, progress
    ensures conn.Valid() && conn.log == old(conn.log) + tried
    ensures 1 <= |tried| <= session.maxRetries + 1
    ensures var offset := old(stats.downloadedBytes);
            var n := ChunkLen(total - offset, config);
            && Ranges(tried) == Repeat(Range(handle, offset, n % WIDE), |tried|)
            && stats.downloadedBytes == offset + if done then n else 0
    ensures stats.chunks == old(stats.chunks) + (if done then 1 else 0)
    ensures stats.retries == old(stats.retries) + |tried| - (if r.Err? && NetworkError(r.error) then 0 else 1)
    ensures reports' == if done then Progress.After(checkpoints, reports, stats.downloadedBytes) else reports
    ensures last' == Progress.LastOf(reports') && progress.calls == calls + CallsOf(reports', total)
    ensures old(ws.trace) <= ws.trace && ws.temp.Some? && ws.target == old(ws.target)
    ensures r.Ok? || r.error != Io(Storage) ==> StartOf(ws.CurrentDir(), total) == stats.downloadedBytes
    ensures r.Ok? ==> && done && old(conn.consumed) < conn.consumed
                      && ws.At(total, Loop(stats.downloadedBytes))
                      && |ws.temp.value| == stats.downloadedBytes
    ensures r.Err? ==> && ws.At(total, Idle) && LoopError(r.error)
                       && (r.error != Io(Storage) ==> |ws.temp.value| == stats.downloadedBytes)
                       && (NetworkError(r.error) ==> |tried| == session.maxRetries + 1 && !done)
    ensures Honest(conn.timeline, tried, photo) ==>
              TruthfulRun(photo, old(ws.trace)) ==> TruthfulRun(photo, ws.trace)
    ensures NeverBreaks(conn) ==> && Wired(old(conn.outgoing), conn.outgoing, tried)
                                  && (r.Err? && NetworkError(r.error) ==> NoneAnswered(conn.timeline, tried))
    ensures ws.NeverFails() && FullOrNone(conn.timeline, tried) && (r.Err? ==> !NetworkError(r.error)) ==>
              if ChunkLen(total - old(stats.downloadedBytes), config) < WIDE then r.Ok?
              else r == Err(ProtocolError(IncompleteChunk))
  {
    hide Run, TruthfulRun, Next, StartOf, Complete, CallsOf, Progress.After, Ranges, Repeat, Honest, FullOrNone,
      NoneAnswered, Wired;
    var offset := stats.downloadedBytes;
    var data;
    data, tried := FetchChunk(conn, handle, session, config, stats, total, offset, photo);
    if data.Err? {
      ws.Stop(total, photo);
      return Err(data.error), last, reports, tried, false;
    }
    r, last', reports', done := KeepChunk(ws, config, stats, checkpoints, progress, last, total, offset, data.value,
                                          photo, calls, reports);
  }

  /** The arguments of `download_object_with_resume` that stay as they are. */
  datatype Job = Job(handle: u32, session: SessionConfig, config: ChunkConfig, checkpoints: seq<nat>, total: u64)

  function Failure<T>(r: Result<T>): Option<Error>
  {
    if r.Err? then Some(r.error) else None
  }

  /** What a call finds. */
  datatype Before = Before(log: seq<Request>, outgoing: bytes, trace: seq<World>, chunks: nat, retries: nat,
                           calls: seq<Call>, dir: Dir)

  ghost function Snapshot(conn: Connection, ws: W.Workspace, stats: DownloadStats, progress: ProgressCallback): Before
    reads conn, ws, stats, progress
  {
    Before(conn.log, conn.outgoing, ws.trace, stats.chunks, stats.retries, progress.calls, ws.CurrentDir())
  }

  /**
   Everything that has happened since `b` is in the books `t`: the commands sent, and what of them
   is on the wire, the chunks and retries counted, the progress calls made.  The states of the
   directory are a run of the machine that an honest camera makes truthful.
   */
  ghost predicate Since(b: Before, t: Tally, job: Job, start: nat, photo: bytes, failure: Option<Error>,
                        conn: Connection, ws: W.Workspace, stats: DownloadStats, progress: ProgressCallback)
    reads conn, ws, stats, progress
    requires start <= job.total
  {
    && conn.Valid() && conn.log == b.log + t.issued
    && (NeverBreaks(conn) ==> Wired(b.outgoing, conn.outgoing, t.issued))
    && stats.chunks == b.chunks + t.n
    && Booked(t, job.handle, start, job.total, job.config, job.session, job.checkpoints, stats.downloadedBytes,
              stats.retries - b.retries, failure)
    && progress.calls == b.calls + CallsOf(t.reports, job.total)
    && b.trace <= ws.trace && ws.Valid(job.total)
    && (Honest(conn.timeline, t.issued, photo) ==> TruthfulRun(photo, b.trace) ==> TruthfulRun(photo, ws.trace))
  }

  /** Disk and socket writes are sound, and the camera answers one of the tries for each chunk. */
  ghost predicate Undisturbed(t: Tally, session: SessionConfig, conn: Connection, ws: W.Workspace) {
    ws.NeverFails() && NeverBreaks(conn) && Responsive(conn.timeline, t.issued, session)
  }

  /** Where the directory stands at the head of the chunk loop. */
  ghost predicate AtHead(b: Before, job: Job, start: nat, last: nat, t: Tally, conn: Connection, ws: W.Workspace,
                         stats: DownloadStats)
    reads conn, ws, stats
    requires start <= job.total
  {
    && ws.At(job.total, Loop(stats.downloadedBytes))
    && stats.downloadedBytes <= job.total
    && last == Progress.LastOf(t.reports)
    && (Undisturbed(t, job.session, conn, ws) ==>
          (PlanFits(job.total - start, job.config) <==> PlanFits(job.total - stats.downloadedBytes, job.config)))
    && if start < job.total then
         && ws.temp.Some? && |ws.temp.value| == stats.downloadedBytes && b.dir.temp.Some?
         && ws.target == b.dir.target && !Complete(ws.target, job.total)
         && StartOf(ws.CurrentDir(), job.total) == stats.downloadedBytes
       else stats.downloadedBytes == start && ws.CurrentDir() == b.dir
  }

  /** How the chunk loop can fail, and what it then leaves: unless the disk failed, a place to go on from. */
  ghost predicate Broken(b: Before, job: Job, t: Tally, start: nat, r: Result<()>, conn: Connection, ws: W.Workspace,
                         stats: DownloadStats)
    reads conn, ws, stats
    requires r.Err? && start <= job.total
  {
    && ws.At(job.total, Idle) && ws.temp.Some? && LoopError(r.error)
    && ws.target == b.dir.target && !Complete(ws.target, job.total)
    && (r.error != Io(Storage) ==> && |ws.temp.value| == stats.downloadedBytes
                                   && StartOf(ws.CurrentDir(), job.total) == stats.downloadedBytes)
    && (NetworkError(r.error) && NeverBreaks(conn) ==> GivenUp(conn.timeline, t.issued, job.session))
    && (Undisturbed(t, job.session, conn, ws) ==>
          r.error == ProtocolError(IncompleteChunk) && !PlanFits(job.total - start, job.config))
  }

  lemma Assoc<T>(a: seq<T>, b: seq<T>, c: seq<T>)
    ensures a + b + c == a + (b + c)
  {
  }

  lemma PrefixTransitive<T>(a: seq<T>, b: seq<T>, c: seq<T>)
    requires a <= b <= c
    ensures a <= c
  {
  }

  /** What a round means for the wire, and for what is known of the camera. */
  lemma RoundOnWire(b: Before, t: Tally, tried: seq<Request>, outgoing: bytes, r: Result<()>, session: SessionConfig,
                    conn: Connection)
    requires NeverBreaks(conn) ==> Wired(b.outgoing, outgoing, t.issued) && Wired(outgoing, conn.outgoing, tried)
    requires r.Err? && NetworkError(r.error) ==> |tried| == session.maxRetries + 1
    requires NeverBreaks(conn) && r.Err? && NetworkError(r.error) ==> NoneAnswered(conn.timeline, tried)
    ensures NeverBreaks(conn) ==> Wired(b.outgoing, conn.outgoing, t.issued + tried)
    ensures NeverBreaks(conn) && r.Err? && NetworkError(r.error) ==>
              && GivenUp(conn.timeline, t.issued + tried, session)
              && !Responsive(conn.timeline, t.issued + tried, session)
    ensures Responsive(conn.timeline, t.issued + tried, session) ==>
              Responsive(conn.timeline, t.issued, session) && FullOrNone(conn.timeline, tried)
  {
    hide Wired, NoneAnswered, Responsive, GivenUp, FullOrNone;
    if NeverBreaks(conn) {
      WiredOn(b.outgoing, outgoing, conn.outgoing, t.issued, tried);
      if r.Err? && NetworkError(r.error) {
        GivenUpAfter(conn.timeline, t.issued, tried, session);
        GivenUpIsNotResponsive(conn.timeline, t.issued + tried, session);
      }
    }
    if Responsive(conn.timeline, t.issued + tried, session) {
      ResponsivePart(conn.timeline, t.issued, tried, session);
    }
  }

  /** One round of the chunk loop and its entry in the books. */
  method BookedRound(conn: Connection, ws: W.Workspace, stats: DownloadStats, progress: ProgressCallback, job: Job,
                     last: nat, ghost b: Before, ghost t: Tally, ghost start: nat, ghost photo: bytes)
    returns (r: Result<()>, last': nat, ghost t': Tally)
    requires start <= job.total && stats.downloadedBytes < job.total
    requires Since(b, t, job, start, photo, None, conn, ws, stats, progress)
    requires AtHead(b, job, start, last, t, conn, ws, stats)
    modifies conn, ws, stats`downloadedBytes, stats`chunks, stats`retries, progress
    ensures Since(b, t', job, start, photo, Failure(r), conn, ws, stats, progress) && conn.Valid()
    ensures r.Ok? ==> AtHead(b, job, start, last', t', conn, ws, stats) && old(conn.consumed) < conn.consumed
                      && old(stats.downloadedBytes) <= stats.downloadedBytes
    ensures r.Err? ==> Broken(b, job, t', start, r, conn, ws, stats)
  {
    hide Booked, Honest, Responsive, CallsOf, PlanFits, StartOf, Run, TruthfulRun, Wired, FullOrNone, NoneAnswered,
      GivenUp;
    ghost var reports, tried, done;
    r, last', reports, tried, done :=
      ChunkRound(conn, job.handle, ws, job.session, job.config, stats, job.checkpoints, progress, last, job.total,
                 photo, b.calls, t.reports);
    Assoc(b.log, t.issued, tried);
    PrefixTransitive(b.trace, old(ws.trace), ws.trace);
    HonestSplit(conn.timeline, t.issued, tried, photo);
    RoundOnWire(b, t, tried, old(conn.outgoing), r, job.session, conn);
    BookedExtends(t, job.handle, start, job.total, job.config, job.session, job.checkpoints,
                  old(stats.downloadedBytes), old(stats.retries) - b.retries, tried, done,
                  stats.downloadedBytes, stats.retries - b.retries, Failure(r), reports);
    PlanFitsStep(job.total - old(stats.downloadedBytes), job.config);
    t' := Tally(t.issued + tried, t.attempts + [|tried|], if done then t.n + 1 else t.n, reports);
  }

  /** The chunk loop of `download_object_with_resume`. */
  method ChunkLoop(conn: Connection, ws: W.Workspace, stats: DownloadStats, progress: ProgressCallback, job: Job,
                   ghost b: Before, ghost start: nat, ghost photo: bytes)
    returns (r: Result<()>, ghost t: Tally)
    requires start <= job.total && stats.downloadedBytes == start && conn.Valid()
    requires Since(b, Tally([], [], 0, []), job, start, photo, None, conn, ws, stats, progress)
    requires AtHead(b, job, start, 0, Tally([], [], 0, []), conn, ws, stats) && b.dir == ws.CurrentDir()
    modifies conn, ws, stats`downloadedBytes, stats`chunks, stats`retries, progress
    ensures Since(b, t, job, start, photo, Failure(r), conn, ws, stats, progress)
    ensures conn.Valid()
    ensures r.Ok? ==> && ws.At(job.total, Loop(job.total)) && stats.downloadedBytes == job.total
                      && (ws.temp.Some? <==> b.dir.temp.Some?)
                      && (Undisturbed(t, job.session, conn, ws) ==> PlanFits(job.total - start, job.config))
    ensures r.Err? ==> Broken(b, job, t, start, r, conn, ws, stats)
  {
    hide Since, AtHead, Broken, Booked, PlanFits, Run;
    var last := 0;
    t := Tally([], [], 0, []);
    while stats.downloadedBytes < job.total
      invariant Since(b, t, job, start, photo, None, conn, ws, stats, progress)
      invariant AtHead(b, job, start, last, t, conn, ws, stats)
      invariant conn.Valid()
      decreases job.total - stats.downloadedBytes, |conn.timeline| - conn.consumed
    {
      r, last, t := BookedRound(conn, ws, stats, progress, job, last, b, t, start, photo);
      if r.Err? {
        return;
      }
    }
    HeadAtEnd(b, job, start, last, t, conn, ws, stats);
    return Ok(()), t;
  }

  /** What the head of the loop says when everything is there. */
  lemma HeadAtEnd(b: Before, job: Job, start: nat, last: nat, t: Tally, conn: Connection, ws: W.Workspace,
                  stats: DownloadStats)
    requires start <= job.total && AtHead(b, job, start, last, t, conn, ws, stats)
    requires stats.downloadedBytes >= job.total
    ensures ws.At(job.total, Loop(job.total)) && stats.downloadedBytes == job.total
    ensures ws.temp.Some? <==> b.dir.temp.Some?
    ensures Undisturbed(t, job.session, conn, ws) ==> PlanFits(job.total - start, job.config)
  {
    hide Run, Responsive;
  }

  /** The end of `download_object_with_resume`: rename, then drop the resume file if possible. */
  method Finish(ws: W.Workspace, job: Job, ghost photo: bytes) returns (r: Result<()>)
    requires ws.At(job.total, Loop(job.total))
    modifies ws
    ensures ws.At(job.total, Idle) && old(ws.trace) <= ws.trace
    ensures TruthfulRun(photo, old(ws.trace)) ==> TruthfulRun(photo, ws.trace)
    ensures r.Ok? ==> && old(ws.temp).Some? && ws.target == old(ws.temp) && ws.temp.None?
                      && (ws.NeverFails() ==> ws.resume.None?)
    ensures r.Err? ==> && ws.CurrentDir() == old(ws.CurrentDir())
                       && ((r.error == Io(NotFound) && ws.temp.None?) || (r.error == Io(Storage) && !ws.NeverFails()))
  {
    r := ws.RenameTemp();
    if r.Err? {
      ws.Stop(job.total, photo);
      return;
    }
    ws.Step(job.total, Cleanup, photo);
    var _ := ws.RemoveResume();
    ws.Step(job.total, Idle, photo);
  }

  lemma IncompleteIsNotPhoto(target: Option<bytes>, photo: bytes)
    ensures !Complete(target, |photo|) ==> target != Some(photo)
  {
  }

  lemma EmptyBooks(job: Job, start: nat, failure: Option<Error>)
    requires start <= job.total && (failure.Some? ==> !NetworkError(failure.value))
    ensures Booked(Tally([], [], 0, []), job.handle, start, job.total, job.config, job.session, job.checkpoints,
                   start, 0, failure)
    ensures Off(start, job.total, job.config, 0) == start
    ensures CallsOf([], job.total) == []
  {
  }

  /** Where the chunk loop begins, after `check_resume_state`. */
  lemma LoopStarts(b: Before, job: Job, start: nat, photo: bytes, conn: Connection, ws: W.Workspace,
                   stats: DownloadStats, progress: ProgressCallback)
    requires conn.Valid() && conn.log == b.log && conn.outgoing == b.outgoing
    requires stats.chunks == b.chunks && stats.retries == b.retries
    requires progress.calls == b.calls && stats.downloadedBytes == start <= job.total
    requires b.trace <= ws.trace && ws.At(job.total, Loop(start))
    requires TruthfulRun(photo, b.trace) ==> TruthfulRun(photo, ws.trace)
    requires !Unreadable(b.dir, job.total) && (start, ws.CurrentDir()) == Checked(b.dir, job.total)
    ensures var b' := b.(dir := ws.CurrentDir());
            && Since(b', Tally([], [], 0, []), job, start, photo, None, conn, ws, stats, progress)
            && AtHead(b', job, start, 0, Tally([], [], 0, []), conn, ws, stats)
  {
    hide Booked, Run, TruthfulRun, CallsOf, Checked, StartOf, PlanFits, Decimal.Read, Unreadable, Wired;
    WiredOne(conn.outgoing, [], Request(0, 0, 0, 0, 0));
    CheckedHead(b.dir, job.total);
    EmptyBooks(job, start, None);
  }

  /** The books do not depend on a failure after the chunk loop. */
  lemma BookedAs(t: Tally, job: Job, start: nat, downloaded: nat, retries: int, was: Option<Error>,
                 failure: Option<Error>)
    requires start <= job.total
    requires Booked(t, job.handle, start, job.total, job.config, job.session, job.checkpoints, downloaded, retries, was)
    requires failure == was || (was.None? && failure.Some? && !NetworkError(failure.value))
    ensures downloaded == Off(start, job.total, job.config, t.n)
    ensures Booked(t, job.handle, start, job.total, job.config, job.session, job.checkpoints, downloaded, retries,
                   failure)
  {
  }

  /** What `check_resume_state` hands to the chunk loop. */
  lemma CheckedHead(d: Dir, total: nat)
    requires !Unreadable(d, total)
    ensures var (start, d') := Checked(d, total);
            && start == StartOf(d, total)
            && (start < total ==> && d'.temp.Some? && |d'.temp.value| == start
                                  && !Complete(d'.target, total) && StartOf(d', total) == start)
  {
    hide Decimal.Read;
  }

  /** It leaves a temporary file to be renamed exactly if the download was not finished already. */
  lemma CheckedLeavesTemp(d: Dir, total: nat, photo: bytes)
    requires !Unreadable(d, total) && Safe(d, photo) && |photo| == total
    ensures Checked(d, total).1.temp.Some? <==> !Complete(d.target, total) && !Unrenamed(d, total)
  {
  }

  /** The honest camera, the safe start and the right size: what safety rests on. */
  ghost predicate Trusted(job: Job, b: Before, t: Tally, photo: bytes, conn: Connection) {
    && |photo| == job.total && b.trace != []
    && Honest(conn.timeline, t.issued, photo)
    && TruthfulRun(photo, b.trace) && Safe(b.trace[0].dir, photo)
  }

  /** The saved offset cannot be read, because it is not text or not a number. */
  predicate RejectsResume(e: Error) {
    e == Io(InvalidText) || e == InvalidResumeData
  }

  /** An undisturbed attempt completes the file: the saved offset, if needed, is readable, and no chunk is too wide. */
  predicate Completes(d: Dir, total: nat, config: ChunkConfig) {
    !Unreadable(d, total) && PlanFits(total - StartOf(d, total), config)
  }

  /** How an undisturbed attempt that found the directory `d` ends, and with what target. */
  predicate RecoversExactly(job: Job, d: Dir, r: Result<()>, target: Option<bytes>, photo: bytes) {
    var fits := PlanFits(job.total - StartOf(d, job.total), job.config);
    && (r.Err? && RejectsResume(r.error) <==> Unreadable(d, job.total))
    && (Unreadable(d, job.total) ==> r == Err(Decimal.Read(d.resume.value).error))
    && (r == Err(ProtocolError(IncompleteChunk)) <==> !Unreadable(d, job.total) && !fits)
    && (target == Some(photo) <==> Completes(d, job.total, job.config))
    && (r.Ok? <==> && Completes(d, job.total, job.config)
                   && !Complete(d.target, job.total) && !Unrenamed(d, job.total))
  }

  lemma RecoveryOfUnreadable(job: Job, d: Dir, r: Result<()>, photo: bytes)
    requires |photo| == job.total && Unreadable(d, job.total) && r == Err(Decimal.Read(d.resume.value).error)
    ensures RecoversExactly(job, d, r, d.target, photo)
  {
    hide Decimal.Read, PlanFits, StartOf;
  }

  lemma RecoveryOfLoop(job: Job, d: Dir, r: Result<()>, target: Option<bytes>, photo: bytes)
    requires |photo| == job.total && Safe(d, photo) && !Unreadable(d, job.total)
    requires if !PlanFits(job.total - StartOf(d, job.total), job.config) then
               r == Err(ProtocolError(IncompleteChunk)) && !Complete(target, job.total)
             else (r.Ok? || r.error == Io(NotFound)) && (r.Ok? <==> Checked(d, job.total).1.temp.Some?)
    requires r.Ok? || r.error == Io(NotFound) ==> target == Some(photo)
    ensures RecoversExactly(job, d, r, target, photo)
  {
    hide Decimal.Read, PlanFits, StartOf, Checked, Safe, Unreadable, Unrenamed, Complete;
    CheckedLeavesTemp(d, job.total, photo);
    IncompleteIsNotPhoto(target, photo);
  }

  /** How the chunk loop and the renaming end. */
  ghost predicate LoopDone(b: Before, job: Job, t: Tally, start: nat, r: Result<()>, photo: bytes, conn: Connection,
                           ws: W.Workspace, stats: DownloadStats)
    reads ws, stats
    requires start <= job.total
  {
    && ws.At(job.total, Idle)
    && (r.Ok? ==> stats.downloadedBytes == job.total)
    && (r.Err? ==> LoopError(r.error) || r.error == Io(NotFound))
    && (r.Err? && Interrupted(r.error) ==> StartOf(ws.CurrentDir(), job.total) == stats.downloadedBytes)
    && (r.Err? && NetworkError(r.error) && NeverBreaks(conn) ==> GivenUp(conn.timeline, t.issued, job.session))
    && (Trusted(job, b, t, photo, conn) && (r.Ok? || r.error == Io(NotFound)) ==>
          ws.target == Some(photo) && ws.temp.None?)
    && (Undisturbed(t, job.session, conn, ws) ==>
          if !PlanFits(job.total - start, job.config) then
            && r == Err(ProtocolError(IncompleteChunk))
            && ws.target == b.dir.target && !Complete(ws.target, job.total)
          else (r.Ok? || r.error == Io(NotFound)) && (r.Ok? <==> b.dir.temp.Some?))
  }

  /**
   A file of another length at the target, with no temporary file beside it, does not count: the
   whole object is fetched and takes its place.
   */
  lemma OtherLengthIsReplaced(job: Job, d: Dir, r: Result<()>, target: Option<bytes>, photo: bytes)
    requires d.target.Some? && |d.target.value| != job.total && d.temp.None?
    requires RecoversExactly(job, d, r, target, photo)
    ensures StartOf(d, job.total) == 0
    ensures if PlanFits(job.total, job.config) then r.Ok? && target == Some(photo)
            else r == Err(ProtocolError(IncompleteChunk)) && target != Some(photo)
  {
    hide PlanFits;
    CheckedCases(d, job.total);
  }

  /** The chunk loop and the end of `download_object_with_resume`, up to the final callback. */
  method LoopAndFinish(conn: Connection, ws: W.Workspace, stats: DownloadStats, progress: ProgressCallback, job: Job,
                       ghost b: Before, ghost start: nat, ghost photo: bytes)
    returns (r: Result<()>, ghost t: Tally)
    requires start <= job.total && stats.downloadedBytes == start && b.dir == ws.CurrentDir() && conn.Valid()
    requires Since(b, Tally([], [], 0, []), job, start, photo, None, conn, ws, stats, progress)
    requires AtHead(b, job, start, 0, Tally([], [], 0, []), conn, ws, stats)
    modifies conn, ws, stats`downloadedBytes, stats`chunks, stats`retries, progress
    ensures conn.Valid() && Since(b, t, job, start, photo, Failure(r), conn, ws, stats, progress)
    ensures LoopDone(b, job, t, start, r, photo, conn, ws, stats)
  {
    hide Since, AtHead, Broken, Trusted, Responsive, GivenUp, Booked, Run, PlanFits, StartOf;
    r, t := ChunkLoop(conn, ws, stats, progress, job, b, start, photo);
    if r.Err? {
      BrokenEnds(b, job, t, start, r, conn, ws, stats);
      return;
    }
    r := FinishBooked(conn, ws, stats, progress, job, b, t, start, photo);
  }

  lemma BrokenEnds(b: Before, job: Job, t: Tally, start: nat, r: Result<()>, conn: Connection, ws: W.Workspace,
                   stats: DownloadStats)
    requires r.Err? && start <= job.total && Broken(b, job, t, start, r, conn, ws, stats)
    ensures ws.At(job.total, Idle) && LoopError(r.error)
    ensures Interrupted(r.error) ==> StartOf(ws.CurrentDir(), job.total) == stats.downloadedBytes
    ensures NetworkError(r.error) && NeverBreaks(conn) ==> GivenUp(conn.timeline, t.issued, job.session)
    ensures Undisturbed(t, job.session, conn, ws) ==>
              && !PlanFits(job.total - start, job.config) && r == Err(ProtocolError(IncompleteChunk))
              && ws.target == b.dir.target && !Complete(ws.target, job.total)
  {
    hide Run, Responsive, GivenUp, PlanFits, StartOf;
  }

  /** The end of the download, with the books as they are. */
  method FinishBooked(ghost conn: Connection, ws: W.Workspace, ghost stats: DownloadStats,
                      ghost progress: ProgressCallback, job: Job, ghost b: Before, ghost t: Tally, ghost start: nat,
                      ghost photo: bytes)
    returns (r: Result<()>)
    requires start <= job.total && Since(b, t, job, start, photo, None, conn, ws, stats, progress)
    requires ws.At(job.total, Loop(job.total))
    modifies ws
    ensures Since(b, t, job, start, photo, Failure(r), conn, ws, stats, progress) && ws.At(job.total, Idle)
    ensures r.Err? ==> r.error == Io(Storage) || r.error == Io(NotFound)
    ensures Trusted(job, b, t, photo, conn) && (r.Ok? || r.error == Io(NotFound)) ==>
              ws.target == Some(photo) && ws.temp.None?
    ensures ws.NeverFails() ==> (r.Ok? || r.error == Io(NotFound)) && (r.Ok? <==> old(ws.temp).Some?)
  {
    hide Booked, Honest, Responsive, CallsOf, Off, Run, TruthfulRun, Events, PlanFits, StartOf, Wired;
    if Trusted(job, b, t, photo, conn) {
      RunIsSafe(photo, ws.trace, |ws.trace| - 1);
      assert photo[..job.total] == photo;
    }
    PrefixTransitive(b.trace, ws.trace, ws.trace);
    r := Finish(ws, job, photo);
    BookedAs(t, job, start, stats.downloadedBytes, stats.retries - b.retries, None, Failure(r));
  }

  // ---------- the contract of a download ----------

  /**
   Accounting.  The books hold every command issued since `b`, and these alone are on the wire; the
   counters agree with them, and with where the chunks end.
   */
  ghost predicate BooksKept(job: Job, b: Before, t: Tally, r: Result<()>, conn: Connection, stats: DownloadStats)
    reads conn, stats
  {
    var start := StartOf(b.dir, job.total);
    && conn.log == b.log + t.issued
    && (NeverBreaks(conn) ==> Wired(b.outgoing, conn.outgoing, t.issued))
    && stats.chunks == b.chunks + t.n
    && Booked(t, job.handle, start, job.total, job.config, job.session, job.checkpoints,
              Off(start, job.total, job.config, t.n), stats.retries - b.retries, Failure(r))
    && (r.Ok? || t.attempts != [] ==> stats.downloadedBytes == Off(start, job.total, job.config, t.n))
    && (r.Ok? ==> stats.downloadedBytes == job.total)
  }

  /**
   Refinement: the states the directory goes through continue the run of the machine, so a crash
   at any point is covered by `ResumeMachine.RunIsSafe`.
   Safety: if the answer is Ok, the target is the object, byte for byte; if the rename finds no
   temporary file, the target was the object already.
   Recovery: undisturbed, retries allowed for, the attempt ends with the target equal to the object
   exactly if the saved offset is not unreadable and no chunk of the plan too wide; and it then
   answers Ok exactly if the file was not finished before the chunk loop.
   */
  ghost predicate LeftSafe(job: Job, b: Before, t: Tally, r: Result<()>, photo: bytes, conn: Connection,
                           ws: W.Workspace)
    reads ws
  {
    && ws.At(job.total, Idle) && b.trace <= ws.trace
    && (Trusted(job, b, t, photo, conn) ==>
          && TruthfulRun(photo, ws.trace)
          && (r.Ok? || r.error == Io(NotFound) ==> ws.target == Some(photo) && ws.temp.None?)
          && (Undisturbed(t, job.session, conn, ws) ==> RecoversExactly(job, b.dir, r, ws.target, photo)))
  }

  /**
   Resumption: when the camera or the network ends the attempt, the next one starts behind the
   chunks kept.  A network error means that the last tries were all in vain.
   */
  ghost predicate LeftResumable(job: Job, b: Before, t: Tally, r: Result<()>, conn: Connection, ws: W.Workspace,
                                stats: DownloadStats)
    reads ws, stats
  {
    && (r.Err? && Interrupted(r.error) ==>
          StartOf(ws.CurrentDir(), job.total) == stats.downloadedBytes
          == Off(StartOf(b.dir, job.total), job.total, job.config, t.n))
    && (r.Err? && NetworkError(r.error) && NeverBreaks(conn) ==> GivenUp(conn.timeline, t.issued, job.session))
  }

  /** An attempt that `check_resume_state` ends. */
  lemma SettleRejected(b: Before, job: Job, e: Error, photo: bytes, conn: Connection, ws: W.Workspace,
                       stats: DownloadStats)
    requires b.log == conn.log && b.outgoing == conn.outgoing && b.chunks == stats.chunks && b.retries == stats.retries
    requires ws.At(job.total, Idle) && b.trace <= ws.trace && b.trace != []
    requires TruthfulRun(photo, b.trace) ==> TruthfulRun(photo, ws.trace)
    requires if Unreadable(b.dir, job.total) then
               || (e == Decimal.Read(b.dir.resume.value).error && ws.CurrentDir() == b.dir)
               || (e == Io(Storage) && !ws.NeverFails())
             else e == Io(Storage) && !ws.NeverFails()
    ensures var t := Tally([], [], 0, []);
            && BooksKept(job, b, t, Err(e), conn, stats)
            && LeftSafe(job, b, t, Err(e), photo, conn, ws) && LeftResumable(job, b, t, Err(e), conn, ws, stats)
            && CallsOf(t.reports, job.total) == []
  {
    hide Booked, Run, TruthfulRun, Honest, Off, StartOf, Safe, Responsive, RecoversExactly, Decimal.Read, Wired,
      CallsOf;
    EmptyBooks(job, StartOf(b.dir, job.total), Some(e));
    WiredOne(conn.outgoing, [], Request(0, 0, 0, 0, 0));
    if |photo| == job.total && e != Io(Storage) {
      RecoveryOfUnreadable(job, b.dir, Err(e), photo);
    }
  }

  /** An attempt that got as far as the chunk loop. */
  lemma SettleLoop(b: Before, dir: Dir, job: Job, t: Tally, r: Result<()>, photo: bytes, conn: Connection,
                   ws: W.Workspace, stats: DownloadStats, progress: ProgressCallback)
    requires var start := StartOf(b.dir, job.total);
             && Since(b.(dir := dir), t, job, start, photo, Failure(r), conn, ws, stats, progress)
             && LoopDone(b.(dir := dir), job, t, start, r, photo, conn, ws, stats)
    requires !Unreadable(b.dir, job.total) && dir == Checked(b.dir, job.total).1
    requires b.trace != [] && Run(job.total, b.trace) && LastOf(b.trace).dir == b.dir
    ensures BooksKept(job, b, t, r, conn, stats)
    ensures LeftSafe(job, b, t, r, photo, conn, ws) && LeftResumable(job, b, t, r, conn, ws, stats)
    ensures progress.calls == b.calls + CallsOf(t.reports, job.total)
  {
    hide Booked, Run, TruthfulRun, Honest, Off, StartOf, Safe, Responsive, GivenUp, RecoversExactly, PlanFits,
      Unreadable, Checked, Complete, CallsOf, Wired;
    var start := StartOf(b.dir, job.total);
    BookedAs(t, job, start, stats.downloadedBytes, stats.retries - b.retries, Failure(r), Failure(r));
    if Trusted(job, b, t, photo, conn) {
      RunIsSafe(photo, b.trace, |b.trace| - 1);
      if Undisturbed(t, job.session, conn, ws) {
        RecoveryOfLoop(job, b.dir, r, ws.target, photo);
      }
    }
  }

  lemma BooksTold(job: Job, b: Before, t: Tally, r: Result<()>, conn: Connection, stats: DownloadStats)
    requires BooksKept(job, b, t, r, conn, stats)
    ensures var calls := CallsOf(t.reports, job.total) + if r.Ok? then [Call(job.total, job.total, true)] else [];
            Told(calls, StartOf(b.dir, job.total), job.total, job.config, t.n, r.Ok?)
  {
    hide Booked, Told, CallsOf, StartOf, Off, Wired;
    var start := StartOf(b.dir, job.total);
    ReportsAreTold(t, job.handle, start, job.total, job.config, job.session, job.checkpoints,
                   Off(start, job.total, job.config, t.n), stats.retries - b.retries, Failure(r));
    assert CallsOf(t.reports, job.total) + [] == CallsOf(t.reports, job.total);
  }

  lemma NewCalls(before: seq<Call>, made: seq<Call>, last: seq<Call>)
    ensures before <= before + made + last && (before + made + last)[|before|..] == made + last
  {
  }

  /** `download_object_with_resume`. */
  method DownloadObjectWithResume(conn: Connection, ws: W.Workspace, stats: DownloadStats, progress: ProgressCallback,
                                  job: Job, ghost photo: bytes)
    returns (r: Result<()>, ghost t: Tally)
    requires conn.Valid() && ws.At(job.total, Idle)
    modifies conn, ws, stats`downloadedBytes, stats`chunks, stats`retries, progress
    ensures conn.Valid()
    ensures BooksKept(job, old(Snapshot(conn, ws, stats, progress)), t, r, conn, stats)
    ensures LeftSafe(job, old(Snapshot(conn, ws, stats, progress)), t, r, photo, conn, ws)
    ensures LeftResumable(job, old(Snapshot(conn, ws, stats, progress)), t, r, conn, ws, stats)
    ensures progress.calls == old(progress.calls) + CallsOf(t.reports, job.total)
                            + if r.Ok? then [Call(job.total, job.total, true)] else []
    ensures old(progress.calls) <= progress.calls
    ensures Told(progress.calls[|old(progress.calls)|..], StartOf(old(ws.CurrentDir()), job.total), job.total,
                 job.config, t.n, r.Ok?)
  {
    hide Since, AtHead, LoopDone, BooksKept, Told, LeftSafe, LeftResumable, CallsOf, Run, TruthfulRun, Events, Checked,
      StartOf, Decimal.Read;
    ghost var b := Snapshot(conn, ws, stats, progress);
    t := Tally([], [], 0, []);
    var checked := ws.CheckResumeState(job.total, photo);
    if checked.Err? {
      SettleRejected(b, job, checked.error, photo, conn, ws, stats);
      BooksTold(job, b, t, Err(checked.error), conn, stats);
      NewCalls(b.calls, [], []);
      return Err(checked.error), t;
    }
    CheckedHead(b.dir, job.total);
    var start: u64 := checked.value;
    stats.downloadedBytes := start;
    LoopStarts(b, job, start, photo, conn, ws, stats, progress);
    ghost var dir := ws.CurrentDir();
    r, t := LoopAndFinish(conn, ws, stats, progress, job, b.(dir := dir), start, photo);
    SettleLoop(b, dir, job, t, r, photo, conn, ws, stats, progress);
    BooksTold(job, b, t, r, conn, stats);
    NewCalls(b.calls, CallsOf(t.reports, job.total), if r.Ok? then [Call(job.total, job.total, true)] else []);
    if r.Ok? {
      progress.Invoke(job.total, job.total, true);
    }
  }
}
