/**
 The resumable download as a state machine over the three files of src/commands.rs: the target,
 the temporary file, and the resume file.  A run is any sequence of attempts; an attempt can
 break off after any step, by a crash or an error, and then the machine is idle again.
 */
module ResumeMachine {
  import opened Types
  import Decimal

  datatype Dir = Dir(target: Option<bytes>, temp: Option<bytes>, resume: Option<bytes>)

  /** Where an attempt stands.  `Loop(offset)` is the head of the chunk loop. */
  datatype Phase =
    | Idle
    | ResumeRemoved          // starting over: the mismatched resume file is gone
    | TempRemoved            // starting over: the old temporary file is gone
    | RenamedEarly           // a finished temporary file has been found and renamed
    | Loop(offset: nat)
    | Saving(offset: nat)    // a chunk is written, its offset not yet recorded
    | Cleanup                // renamed; the resume file is still to be removed

  datatype World = World(dir: Dir, phase: Phase)

  /** The size of the next chunk. */
  function ChunkLen(remaining: nat, config: ChunkConfig): (n: nat)
    ensures n <= remaining
  {
    var wanted := if remaining < config.minChunkSize then remaining else config.chunkSize;
    if wanted < remaining then wanted else remaining
  }

  predicate Complete(target: Option<bytes>, total: nat) {
    target.Some? && |target.value| == total
  }

  /** `check_resume_state` rejects the directory: both files are there and the offset is unreadable. */
  predicate Unreadable(d: Dir, total: nat) {
    && !Complete(d.target, total)
    && d.resume.Some? && d.temp.Some?
    && Decimal.Read(d.resume.value).Err?
  }

  /** The temporary file holds everything and its offset is recorded, but it was never renamed. */
  predicate Unrenamed(d: Dir, total: nat) {
    && !Complete(d.target, total)
    && d.resume.Some? && d.temp.Some?
    && Decimal.Read(d.resume.value) == Ok(|d.temp.value|)
    && |d.temp.value| >= total
  }

  /** What a completed `check_resume_state` answers and leaves on disk. */
  function Checked(d: Dir, total: nat): (nat, Dir)
    requires !Unreadable(d, total)
  {
    if Complete(d.target, total) then (total, d)
    else if Unrenamed(d, total) then (total, Dir(d.temp, None, None))
    else if d.resume.Some? && d.temp.Some? then
      if Decimal.Read(d.resume.value) == Ok(|d.temp.value|) then (|d.temp.value|, d)
      else (0, Dir(d.target, Some([]), None))
    else (0, d.(temp := Some([])))
  }

  /** Where the chunk loop of an attempt starts. */
  function StartOf(d: Dir, total: nat): (start: nat)
    ensures start <= total
  {
    if Unreadable(d, total) then 0 else Checked(d, total).0
  }

  /** What `check_resume_state` makes of the three files, case by case. */
  lemma CheckedCases(d: Dir, total: nat)
    ensures d.target.Some? && |d.target.value| == total ==> !Unreadable(d, total) && Checked(d, total) == (total, d)
    ensures d.target.None? || |d.target.value| != total ==>
              if d.resume.None? || d.temp.None? then
                !Unreadable(d, total) && Checked(d, total) == (0, Dir(d.target, Some([]), d.resume))
              else
                match Decimal.Read(d.resume.value)
                case Err(_) => Unreadable(d, total)
                case Ok(n) =>
                  && !Unreadable(d, total)
                  && if n != |d.temp.value| then Checked(d, total) == (0, Dir(d.target, Some([]), None))
                     else if n < total then Checked(d, total) == (n, d)
                     else Checked(d, total) == (total, Dir(d.temp, None, None))
  {
    hide Decimal.Read;
  }

  /** The first step of an attempt, from what `check_resume_state` finds. */
  predicate Begins(total: nat, d: Dir, w: World) {
    if Complete(d.target, total) then w == World(d, Loop(total))
    else if d.resume.Some? && d.temp.Some? then
      match Decimal.Read(d.resume.value)
      case Err(_) => false
      case Ok(n) =>
        if |d.temp.value| != n then w == World(d.(resume := None), ResumeRemoved)
        else if n >= total then w == World(d.(target := d.temp, temp := None), RenamedEarly)
        else w == World(d, Loop(n))
    else if d.temp.Some? then w == World(d.(temp := None), TempRemoved)
    else w == World(d.(temp := Some([])), Loop(0))
  }

  /** `write_all` of a chunk: the temporary file grows by some or all of it. */
  predicate Appends(total: nat, config: ChunkConfig, off: nat, d: Dir, w: World)
    requires off < total
  {
    && d.temp.Some? && w.dir.temp.Some?
    && d.temp.value <= w.dir.temp.value
    && w.dir == d.(temp := w.dir.temp)
    && var grown := |w.dir.temp.value| - |d.temp.value|;
    && var n := ChunkLen(total - off, config);
    && grown <= n
    && (w.phase == Idle || (w.phase == Saving(off + n) && grown == n))
  }

  /** `fs::write` of the resume file, whole or broken off. */
  predicate Records(off: nat, d: Dir, d': Dir) {
    d'.resume.Some? && d'.resume.value <= Decimal.Show(off) && d' == d.(resume := d'.resume)
  }

  /** One file operation of an attempt, or its end at any point.  Every attempt may have its own configuration. */
  ghost predicate Next(total: nat, w: World, w': World) {
    || (w'.phase.Idle? && w'.dir == w.dir)
    || match w.phase
       case Idle => Begins(total, w.dir, w')
       case ResumeRemoved => w' == World(w.dir.(temp := None), TempRemoved)
       case TempRemoved => w' == World(w.dir.(temp := Some([])), Loop(0))
       case RenamedEarly => w' == World(w.dir.(resume := None), Loop(total))
       case Loop(off) =>
         if off < total then
           // a chunk of the right size is written, or one of the wrong size sends the offset to disk
           || (exists config: ChunkConfig :: Appends(total, config, off, w.dir, w'))
           || (w'.phase.Idle? && Records(off, w.dir, w'.dir))
         else
           w.dir.temp.Some? && w' == World(w.dir.(target := w.dir.temp, temp := None), Cleanup)
       case Saving(off) =>
         && Records(off, w.dir, w'.dir)
         && (w'.phase.Idle? || (w'.phase == Loop(off) && w'.dir.resume == Some(Decimal.Show(off))))
       case Cleanup => w' == World(w.dir.(resume := None), Idle)
  }

  /** The bytes a step adds to the temporary file are the photo's own at that place. */
  predicate Truthful(photo: bytes, w: World, w': World) {
    w.dir.temp.Some? && w'.dir.temp.Some? ==>
      var a, b := |w.dir.temp.value|, |w'.dir.temp.value|;
      a < b ==> b <= |photo| && w'.dir.temp.value[a..] == photo[a..b]
  }

  // ---------- safety ----------

  /** What a user may rely on whatever happens. */
  predicate Safe(d: Dir, photo: bytes) {
    && (d.temp.Some? ==> d.temp.value <= photo)
    && (d.target.Some? && |d.target.value| == |photo| ==> d.target.value == photo && d.temp.None?)
  }

  predicate Inv(w: World, photo: bytes) {
    && Safe(w.dir, photo)
    && var total := |photo|;
    match w.phase
    case Idle => true
    case ResumeRemoved => !Complete(w.dir.target, total)
    case TempRemoved => !Complete(w.dir.target, total) && w.dir.temp.None?
    case RenamedEarly | Cleanup => w.dir.target == Some(photo)
    case Loop(off) =>
      || (off == total && w.dir.target == Some(photo))
      || (off <= total && !Complete(w.dir.target, total) && w.dir.temp == Some(photo[..off]))
    case Saving(off) =>
      off <= total && !Complete(w.dir.target, total) && w.dir.temp == Some(photo[..off])
  }

  /** Every step keeps the invariant, and a step never changes a completed target. */
  lemma NextKeepsInv(photo: bytes, w: World, w': World)
    requires Inv(w, photo) && Next(|photo|, w, w') && Truthful(photo, w, w')
    ensures Inv(w', photo)
    ensures Complete(w.dir.target, |photo|) ==>
              w'.dir.target == w.dir.target
  {
    if w.dir.temp.Some? {
      assert w.dir.temp.value == photo[..|w.dir.temp.value|];
    }
    assert photo[..|photo|] == photo;
    if w.phase.Loop? && w.phase.offset < |photo| && w'.dir.temp != w.dir.temp {
      var a, b := |w.dir.temp.value|, |w'.dir.temp.value|;
      assert w'.dir.temp.value == w'.dir.temp.value[..a] + w'.dir.temp.value[a..];
      assert photo[..b] == photo[..a] + photo[a..b];
      assert w'.dir.temp.value == photo[..b];
    }
  }

  // ---------- runs ----------

  ghost predicate StepAt(total: nat, ws: seq<World>, i: nat)
    requires 0 < i < |ws|
  {
    Next(total, ws[i - 1], ws[i])
  }

  predicate TruthfulAt(photo: bytes, ws: seq<World>, i: nat)
    requires 0 < i < |ws|
  {
    Truthful(photo, ws[i - 1], ws[i])
  }

  ghost predicate Run(total: nat, ws: seq<World>) {
    && ws != [] && ws[0].phase.Idle?
    && forall i: nat | 0 < i < |ws| :: StepAt(total, ws, i)
  }

  predicate TruthfulRun(photo: bytes, ws: seq<World>) {
    forall i: nat | 0 < i < |ws| :: TruthfulAt(photo, ws, i)
  }

  function LastOf(ws: seq<World>): World
    requires ws != []
  {
    ws[|ws| - 1]
  }

  /** Appending a step extends a run. */
  lemma RunExtends(total: nat, ws: seq<World>, w: World)
    requires Run(total, ws) && Next(total, LastOf(ws), w)
    ensures Run(total, ws + [w])
  {
    forall i: nat | 0 < i < |ws + [w]| ensures StepAt(total, ws + [w], i) {
      assert i < |ws| ==> StepAt(total, ws, i);
    }
  }

  lemma TruthfulExtends(photo: bytes, ws: seq<World>, w: World)
    requires ws != [] && TruthfulRun(photo, ws) && Truthful(photo, LastOf(ws), w)
    ensures TruthfulRun(photo, ws + [w])
  {
    forall i: nat | 0 < i < |ws + [w]| ensures TruthfulAt(photo, ws + [w], i) {
      assert i < |ws| ==> TruthfulAt(photo, ws, i);
    }
  }

  /** One run after another: whoever stopped, the next attempt starts from the directory as it is. */
  lemma RunsJoin(photo: bytes, a: seq<World>, b: seq<World>)
    requires Run(|photo|, a) && Run(|photo|, b) && LastOf(a).dir == b[0].dir
    ensures Run(|photo|, a + b)
    ensures TruthfulRun(photo, a) && TruthfulRun(photo, b) ==> TruthfulRun(photo, a + b)
  {
    var c := a + b;
    assert c[|a| - 1] == LastOf(a) && c[|a|] == b[0];
    forall i: nat | 0 < i < |c| ensures StepAt(|photo|, c, i) {
      if i < |a| {
        assert StepAt(|photo|, a, i);
      } else if i > |a| {
        assert StepAt(|photo|, b, i - |a|);
      }
    }
    if TruthfulRun(photo, a) && TruthfulRun(photo, b) {
      forall i: nat | 0 < i < |c| ensures TruthfulAt(photo, c, i) {
        if i < |a| {
          assert TruthfulAt(photo, a, i);
        } else if i > |a| {
          assert TruthfulAt(photo, b, i - |a|);
        }
      }
    }
  }

  /** Safety over whole runs: from a safe start every reachable state is safe, crashes included. */
  lemma {:induction false} RunIsSafe(photo: bytes, ws: seq<World>, i: nat)
    requires Run(|photo|, ws) && TruthfulRun(photo, ws) && Safe(ws[0].dir, photo) && i < |ws|
    ensures Inv(ws[i], photo)
  {
    if i > 0 {
      RunIsSafe(photo, ws, i - 1);
      assert StepAt(|photo|, ws, i) && TruthfulAt(photo, ws, i);
      NextKeepsInv(photo, ws[i - 1], ws[i]);
    }
  }

  /** Once the target is complete it is the object, and no later state of the run changes it. */
  lemma {:induction false} CompletedTargetStays(photo: bytes, ws: seq<World>, i: nat, j: nat)
    requires Run(|photo|, ws) && TruthfulRun(photo, ws) && Safe(ws[0].dir, photo)
    requires i <= j < |ws| && Complete(ws[i].dir.target, |photo|)
    ensures ws[j].dir.target == Some(photo) && ws[j].dir.temp.None?
  {
    if i == j {
      RunIsSafe(photo, ws, i);
    } else {
      CompletedTargetStays(photo, ws, i, j - 1);
      RunIsSafe(photo, ws, j - 1);
      assert StepAt(|photo|, ws, j) && TruthfulAt(photo, ws, j);
      NextKeepsInv(photo, ws[j - 1], ws[j]);
    }
  }

  /** A target that is there at the start stays as it is until the object takes its place, whole. */
  lemma {:induction false} TargetIsOldOrObject(photo: bytes, ws: seq<World>, i: nat)
    requires Run(|photo|, ws) && TruthfulRun(photo, ws) && Safe(ws[0].dir, photo) && i < |ws|
    ensures ws[i].dir.target == ws[0].dir.target || ws[i].dir.target == Some(photo)
  {
    if i > 0 {
      TargetIsOldOrObject(photo, ws, i - 1);
      RunIsSafe(photo, ws, i - 1);
      RunIsSafe(photo, ws, i);
      assert StepAt(|photo|, ws, i);
      RenamesObject(photo, ws[i - 1], ws[i]);
    }
  }

  lemma RenamesObject(photo: bytes, w: World, w': World)
    requires Inv(w, photo) && Next(|photo|, w, w')
    ensures w'.dir.target == w.dir.target || w'.dir.target == Some(photo)
  {
    hide Decimal.Read;
    assert photo[..|photo|] == photo;
    if w.dir.temp.Some? && |w.dir.temp.value| >= |photo| {
      assert w.dir.temp.value == photo;
    }
  }

  /** What the resume file can hold: nothing, a readable offset, or the empty file of a torn save. */
  predicate Legible(resume: Option<bytes>) {
    resume.Some? ==> resume.value == [] || Decimal.Read(resume.value).Ok?
  }

  /**
   From a start with a legible resume file the only state that `check_resume_state` rejects for
   good is a save of the offset that broke off before its first digit.
   */
  lemma {:induction false} UnreadableIsTorn(photo: bytes, ws: seq<World>, i: nat)
    requires Run(|photo|, ws) && TruthfulRun(photo, ws) && Safe(ws[0].dir, photo)
    requires |photo| < 0x1_0000_0000_0000_0000 && Legible(ws[0].dir.resume) && i < |ws|
    ensures Legible(ws[i].dir.resume)
    ensures Unreadable(ws[i].dir, |photo|) ==> ws[i].dir.resume == Some([])
  {
    if i > 0 {
      hide Decimal.Read, Inv, Next;
      RunIsSafe(photo, ws, i - 1);
      UnreadableIsTorn(photo, ws, i - 1);
      assert StepAt(|photo|, ws, i);
      LegibleStep(photo, ws[i - 1], ws[i]);
    }
  }

  /** Every step keeps the resume file legible. */
  lemma LegibleStep(photo: bytes, w: World, w': World)
    requires Inv(w, photo) && Next(|photo|, w, w') && Legible(w.dir.resume)
    requires |photo| < 0x1_0000_0000_0000_0000
    ensures Legible(w'.dir.resume)
  {
    NoneIsLegible();
    hide Decimal.Read, Decimal.Show, Legible;
    if w'.dir.resume.Some? && w'.dir.resume != w.dir.resume {
      TornIsLegible(w.phase.offset, w'.dir.resume.value);
    }
  }

  lemma NoneIsLegible()
    ensures Legible(None)
  {
  }

  /** `check_resume_state` answers such a directory with an error, attempt after attempt, and changes nothing. */
  lemma {:induction false} UnreadableIsPermanent(total: nat, ws: seq<World>, i: nat)
    requires Run(total, ws) && i < |ws| && Unreadable(ws[0].dir, total)
    ensures ws[i] == ws[0]
  {
    if i > 0 {
      UnreadableIsPermanent(total, ws, i - 1);
      assert StepAt(total, ws, i);
    }
  }

  /** A directory in which a download of `photo` has come to `offset`. */
  function Fresh(photo: bytes, offset: nat, resume: Option<bytes>): Dir
    requires offset <= |photo|
  {
    Dir(None, Some(photo[..offset]), resume)
  }

  /** A chunk appended whole is a truthful step. */
  lemma ChunkStep(photo: bytes, config: ChunkConfig, offset: nat, resume: Option<bytes>)
    requires offset < |photo|
    ensures var end := offset + ChunkLen(|photo| - offset, config);
            var w := World(Fresh(photo, offset, resume), Loop(offset));
            var w' := World(Fresh(photo, end, resume), Saving(end));
            Next(|photo|, w, w') && Truthful(photo, w, w')
  {
    var end := offset + ChunkLen(|photo| - offset, config);
    assert photo[..end][..offset] == photo[..offset];
    assert photo[..end][offset..] == photo[offset..end];
    assert Appends(|photo|, config, offset, Fresh(photo, offset, resume),
                   World(Fresh(photo, end, resume), Saving(end)));
  }

  // ---------- what is kept of an interrupted download ----------

  /**
   The next attempt goes on where the temporary file ends exactly if the resume file says so; if
   not, it starts over.
   */
  lemma KeepsProgress(d: Dir, total: nat)
    requires !Complete(d.target, total) && d.temp.Some? && |d.temp.value| <= total
    ensures var recorded := d.resume.Some? && Decimal.Read(d.resume.value) == Ok(|d.temp.value|);
            StartOf(d, total) == if recorded then |d.temp.value| else 0
  {
    hide Decimal.Read;
  }

  /** After a chunk was appended and its offset saved, the next attempt goes on behind it. */
  lemma SavedOffsetHolds(d: Dir, total: nat, offset: u64)
    requires !Complete(d.target, total) && d.temp.Some? && |d.temp.value| == offset <= total
    requires d.resume == Some(Decimal.Show(offset))
    ensures StartOf(d, total) == offset && !Unreadable(d, total)
  {
    Decimal.ReadShow(offset);
    hide Decimal.Read;
  }

  /** A truthful run that begins with an empty directory and leads to `w`. */
  ghost predicate LeadsTo(photo: bytes, ws: seq<World>, w: World) {
    && Run(|photo|, ws) && TruthfulRun(photo, ws)
    && ws[0] == World(Dir(None, None, None), Idle) && LastOf(ws) == w
  }

  lemma LeadsOn(photo: bytes, ws: seq<World>, v: World, w: World)
    requires LeadsTo(photo, ws, v) && Next(|photo|, v, w) && Truthful(photo, v, w)
    ensures LeadsTo(photo, ws + [w], w)
  {
    RunExtends(|photo|, ws, w);
    TruthfulExtends(photo, ws, w);
  }

  lemma LeadsToHead(photo: bytes) returns (ws: seq<World>)
    ensures LeadsTo(photo, ws, World(Fresh(photo, 0, None), Loop(0)))
  {
    var w0, w1 := World(Dir(None, None, None), Idle), World(Fresh(photo, 0, None), Loop(0));
    LeadsOn(photo, [w0], w0, w1);
    ws := [w0] + [w1];
  }

  lemma LeadsPastChunk(photo: bytes, config: ChunkConfig, ws: seq<World>, offset: nat, resume: Option<bytes>)
    returns (ws': seq<World>)
    requires offset < |photo| && LeadsTo(photo, ws, World(Fresh(photo, offset, resume), Loop(offset)))
    ensures var end := offset + ChunkLen(|photo| - offset, config);
            LeadsTo(photo, ws', World(Fresh(photo, end, resume), Saving(end)))
  {
    hide LeadsTo;
    var end := offset + ChunkLen(|photo| - offset, config);
    ChunkStep(photo, config, offset, resume);
    var w, w' := World(Fresh(photo, offset, resume), Loop(offset)), World(Fresh(photo, end, resume), Saving(end));
    LeadsOn(photo, ws, w, w');
    ws' := ws + [w'];
  }

  lemma LeadsPastSave(photo: bytes, ws: seq<World>, offset: nat, resume: Option<bytes>)
    returns (ws': seq<World>)
    requires offset <= |photo| && LeadsTo(photo, ws, World(Fresh(photo, offset, resume), Saving(offset)))
    ensures LeadsTo(photo, ws', World(Fresh(photo, offset, Some(Decimal.Show(offset))), Loop(offset)))
  {
    hide LeadsTo;
    var w := World(Fresh(photo, offset, resume), Saving(offset));
    var w' := World(Fresh(photo, offset, Some(Decimal.Show(offset))), Loop(offset));
    LeadsOn(photo, ws, w, w');
    ws' := ws + [w'];
  }

  lemma LeadsToStop(photo: bytes, ws: seq<World>, d: Dir, phase: Phase) returns (ws': seq<World>)
    requires LeadsTo(photo, ws, World(d, phase))
    ensures LeadsTo(photo, ws', World(d, Idle))
  {
    hide LeadsTo;
    LeadsOn(photo, ws, World(d, phase), World(d, Idle));
    ws' := ws + [World(d, Idle)];
  }

  /** A download into an empty directory can get there: the first save of the offset is cut off. */
  lemma TornSaveIsUnreadable(photo: bytes, config: ChunkConfig) returns (ws: seq<World>)
    requires photo != []
    ensures exists w :: LeadsTo(photo, ws, w) && Unreadable(w.dir, |photo|)
  {
    var n := ChunkLen(|photo|, config);
    ws := LeadsToHead(photo);
    hide LeadsTo, ChunkLen;
    ws := LeadsPastChunk(photo, config, ws, 0, None);
    var w := World(Fresh(photo, n, Some([])), Idle);
    LeadsOn(photo, ws, World(Fresh(photo, n, None), Saving(n)), w);
    ws := ws + [w];
  }

  /**
   A crash after a chunk was appended and before its offset was saved loses not that chunk alone:
   with two chunks on disk and the first of them recorded, the next attempt starts at 0.
   */
  lemma CrashBeforeSaveLosesAll(photo: bytes, config: ChunkConfig) returns (ws: seq<World>)
    requires |photo| < 0x1_0000_0000_0000_0000
    requires var n := ChunkLen(|photo|, config); 0 < n < |photo| && ChunkLen(|photo| - n, config) > 0
    ensures var n := ChunkLen(|photo|, config);
            var d := Fresh(photo, n + ChunkLen(|photo| - n, config), Some(Decimal.Show(n)));
            LeadsTo(photo, ws, World(d, Idle)) && StartOf(d, |photo|) == 0
  {
    hide LeadsTo, ChunkLen, Decimal.Show, Decimal.Read, StartOf;
    var n := ChunkLen(|photo|, config);
    var d := Fresh(photo, n + ChunkLen(|photo| - n, config), Some(Decimal.Show(n)));
    ws := LeadsToHead(photo);
    ws := LeadsPastChunk(photo, config, ws, 0, None);
    ws := LeadsPastSave(photo, ws, n, None);
    ws := LeadsPastChunk(photo, config, ws, n, Some(Decimal.Show(n)));
    ws := LeadsToStop(photo, ws, d, Saving(n + ChunkLen(|photo| - n, config)));
    Decimal.ReadShow(n);
    KeepsProgress(d, |photo|);
  }

  // ---------- the unconditional rename ----------

  lemma {:induction false} TargetKept(total: nat, ws: seq<World>, i: nat)
    requires Run(total, ws) && i < |ws| && Complete(ws[0].dir.target, total)
    requires ws[0].dir.temp.None? || ws[0].dir.temp == ws[0].dir.target
    ensures ws[i].dir.target == ws[0].dir.target
    ensures ws[i].dir.temp.None? || ws[i].dir.temp == ws[0].dir.target
    ensures ws[i].phase in {Idle, Loop(total), Cleanup}
  {
    if i > 0 {
      TargetKept(total, ws, i - 1);
      assert StepAt(total, ws, i);
    }
  }

  /**
   A finished target survives every run, whatever the camera sends, exactly if no temporary file
   with other content lies beside it: the last step renames whatever temporary file there is.
   */
  lemma FinishedTargetSurvives(total: nat, d: Dir)
    requires Complete(d.target, total)
    ensures (forall ws: seq<World>, i: nat | Run(total, ws) && ws[0] == World(d, Idle) && i < |ws| ::
               ws[i].dir.target == d.target)
            <==> d.temp.None? || d.temp == d.target
  {
    if d.temp.None? || d.temp == d.target {
      forall ws: seq<World>, i: nat | Run(total, ws) && ws[0] == World(d, Idle) && i < |ws|
        ensures ws[i].dir.target == d.target
      {
        TargetKept(total, ws, i);
      }
    } else {
      var w0, w1 := World(d, Idle), World(d, Loop(total));
      var w2 := World(d.(target := d.temp, temp := None), Cleanup);
      var ws := [w0, w1, w2];
      assert Next(total, w0, w1) && Next(total, w1, w2);
      forall i: nat | 0 < i < |ws| ensures StepAt(total, ws, i) {
        assert i == 1 || i == 2;
      }
      assert Run(total, ws) && ws[2].dir.target != d.target;
    }
  }

  lemma TornIsLegible(off: u64, text: bytes)
    requires text <= Decimal.Show(off)
    ensures Legible(Some(text))
  {
    assert text == Decimal.Show(off)[..|text|];
    Decimal.ReadTorn(off, |text|);
  }
}
