/** The three files of a download on disk, and the resume helpers of src/commands.rs. */
module Workspace {
  import opened Types
  import opened ResumeMachine
  import Decimal

  /**
   The directory.  `faults` fixes which file operations fail, and for writes after how many bytes;
   `trace` records every state the directory and the download have been in since it was opened.
   */
  class Workspace {
    var target: Option<bytes>
    var temp: Option<bytes>
    var resume: Option<bytes>
    const faults: nat -> Option<nat>
    var operations: nat
    ghost var trace: seq<World>

    constructor (d: Dir, faults: nat -> Option<nat>)
      ensures CurrentDir() == d && this.faults == faults && trace == [World(d, Idle)]
    {
      target, temp, resume := d.target, d.temp, d.resume;
      this.faults, operations := faults, 0;
      trace := [World(d, Idle)];
    }

    function CurrentDir(): Dir
      reads this
    {
      Dir(target, temp, resume)
    }

    ghost predicate Valid(total: nat)
      reads this
    {
      trace != [] && Run(total, trace) && LastOf(trace).dir == CurrentDir()
    }

    ghost predicate At(total: nat, phase: Phase)
      reads this
    {
      Valid(total) && LastOf(trace).phase == phase
    }

    /** A new record begins, with nothing under way. */
    ghost method Open()
      modifies this`trace
      ensures trace == [World(CurrentDir(), Idle)]
    {
      trace := [World(CurrentDir(), Idle)];
    }

    ghost predicate NeverFails() {
      forall n :: faults(n).None?
    }

    ghost method Step(total: nat, phase: Phase, photo: bytes)
      requires trace != [] && Run(total, trace)
      requires Next(total, LastOf(trace), World(CurrentDir(), phase))
      modifies this`trace
      ensures At(total, phase)
      ensures trace == old(trace) + [World(CurrentDir(), phase)]
      ensures TruthfulRun(photo, old(trace)) && Truthful(photo, LastOf(old(trace)), LastOf(trace)) ==>
                TruthfulRun(photo, trace)
    {
      var w := World(CurrentDir(), phase);
      RunExtends(total, trace, w);
      if TruthfulRun(photo, trace) && Truthful(photo, LastOf(trace), w) {
        TruthfulExtends(photo, trace, w);
      }
      trace := trace + [w];
    }

    /** The attempt ends here. */
    ghost method Stop(total: nat, photo: bytes)
      requires Valid(total)
      modifies this`trace
      ensures At(total, Idle) && old(trace) <= trace
      ensures TruthfulRun(photo, old(trace)) ==> TruthfulRun(photo, trace)
    {
      hide Run, TruthfulRun, Appends, Begins, Records;
      Step(total, Idle, photo);
    }

    // ---------- file operations ----------

    method Fails() returns (cut: Option<nat>)
      modifies this`operations
      ensures cut == faults(old(operations)) && operations == old(operations) + 1
    {
      cut := faults(operations);
      operations := operations + 1;
    }

    method RemoveResume() returns (r: Result<()>)
      modifies this`resume, this`operations
      ensures r.Ok? ==> resume.None?
      ensures r.Err? ==> resume == old(resume)
      ensures NeverFails() && old(resume).Some? ==> r.Ok?
      ensures r.Err? && old(resume).Some? ==> r.error == Io(Storage)
    {
      var fault := Fails();
      if fault.Some? {
        return Err(Io(Storage));
      }
      if resume.None? {
        return Err(Io(NotFound));
      }
      resume := None;
      return Ok(());
    }

    method RemoveTemp() returns (r: Result<()>)
      modifies this`temp, this`operations
      ensures r.Ok? ==> temp.None?
      ensures r.Err? ==> temp == old(temp)
      ensures NeverFails() && old(temp).Some? ==> r.Ok?
      ensures r.Err? && old(temp).Some? ==> r.error == Io(Storage)
    {
      var fault := Fails();
      if fault.Some? {
        return Err(Io(Storage));
      }
      if temp.None? {
        return Err(Io(NotFound));
      }
      temp := None;
      return Ok(());
    }

    /** `File::create`. */
    method CreateTemp() returns (r: Result<()>)
      modifies this`temp, this`operations
      ensures r.Ok? ==> temp == Some([])
      ensures r.Err? ==> temp == old(temp) && r.error == Io(Storage) && !NeverFails()
    {
      var fault := Fails();
      if fault.Some? {
        return Err(Io(Storage));
      }
      temp := Some([]);
      return Ok(());
    }

    /** Opening an existing file changes nothing. */
    method OpenFile() returns (r: Result<()>)
      modifies this`operations
      ensures r.Err? ==> r.error == Io(Storage) && !NeverFails()
    {
      var fault := Fails();
      if fault.Some? {
        return Err(Io(Storage));
      }
      return Ok(());
    }

    /** `fs::rename` of the temporary file over the target. */
    method RenameTemp() returns (r: Result<()>)
      modifies this`target, this`temp, this`operations
      ensures r.Ok? ==> old(temp).Some? && target == old(temp) && temp.None?
      ensures r.Err? ==> target == old(target) && temp == old(temp)
      ensures r.Err? ==> (r.error == Io(NotFound) && temp.None?) || (r.error == Io(Storage) && !NeverFails())
    {
      var fault := Fails();
      if fault.Some? {
        return Err(Io(Storage));
      }
      if temp.None? {
        return Err(Io(NotFound));
      }
      target, temp := temp, None;
      return Ok(());
    }

    /** `write_all` through the open handle: on failure any prefix may have been written. */
    method AppendTemp(data: bytes) returns (r: Result<()>)
      requires temp.Some?
      modifies this`temp, this`operations
      ensures temp.Some?
      ensures r.Ok? ==> temp.value == old(temp.value) + data
      ensures r.Err? ==> && r.error == Io(Storage) && !NeverFails()
                         && exists cut: nat | cut <= |data| :: temp.value == old(temp.value) + data[..cut]
    {
      var fault := Fails();
      if fault.Some? {
        var cut := if fault.value < |data| then fault.value else |data|;
        temp := Some(temp.value + data[..cut]);
        return Err(Io(Storage));
      }
      temp := Some(temp.value + data);
      return Ok(());
    }

    /**
     `save_resume_state`: a failure leaves the file as it was, if it could not be opened, or with
     any beginning of the number.
     */
    method SaveResumeState(offset: nat) returns (r: Result<()>)
      modifies this`resume, this`operations
      ensures r.Ok? ==> resume == Some(Decimal.Show(offset))
      ensures r.Err? ==> && r.error == Io(Storage) && !NeverFails()
                         && (resume == old(resume) || Records(offset, old(CurrentDir()), CurrentDir()))
    {
      var text := Decimal.Show(offset);
      var fault := Fails();
      if fault.Some? {
        if fault.value > 0 {
          var cut := if fault.value - 1 < |text| then fault.value - 1 else |text|;
          resume := Some(text[..cut]);
        }
        return Err(Io(Storage));
      }
      resume := Some(text);
      return Ok(());
    }

    /** Saving the offset at the end of a round, or when a chunk of the wrong size ends the attempt. */
    method RecordOffset(total: nat, offset: nat, ghost photo: bytes) returns (r: Result<()>)
      requires At(total, Saving(offset)) || (At(total, Loop(offset)) && offset < total)
      modifies this
      ensures old(trace) <= trace && temp == old(temp) && target == old(target)
      ensures TruthfulRun(photo, old(trace)) ==> TruthfulRun(photo, trace)
      ensures At(total, if r.Ok? && old(At(total, Saving(offset))) then Loop(offset) else Idle)
      ensures r.Ok? ==> resume == Some(Decimal.Show(offset))
      ensures r.Err? ==> r.error == Io(Storage) && !NeverFails()
    {
      ghost var saving := LastOf(trace).phase == Saving(offset);
      r := SaveResumeState(offset);
      Step(total, if r.Ok? && saving then Loop(offset) else Idle, photo);
    }

    /**
     `check_resume_state`.  A failure inside leaves the machine idle wherever it had got to; a
     success leaves it at the head of the chunk loop.
     */
    method CheckResumeState(total: nat, ghost photo: bytes) returns (r: Result<nat>)
      requires At(total, Idle)
      modifies this
      ensures r.Ok? ==>
                var d := old(CurrentDir());
                if d.target.Some? && |d.target.value| == total then r.value == total && CurrentDir() == d
                else if d.resume.None? || d.temp.None? then
                  r.value == 0 && CurrentDir() == Dir(d.target, Some([]), d.resume)
                else if Decimal.Read(d.resume.value) != Ok(|d.temp.value|) then
                  r.value == 0 && CurrentDir() == Dir(d.target, Some([]), None)
                else if |d.temp.value| < total then r.value == |d.temp.value| && CurrentDir() == d
                else r.value == total && CurrentDir() == Dir(d.temp, None, None)
      ensures old(trace) <= trace && At(total, if r.Ok? then Loop(r.value) else Idle)
      ensures TruthfulRun(photo, old(trace)) ==> TruthfulRun(photo, trace)
      ensures r.Ok? ==> !Unreadable(old(CurrentDir()), total)
                        && (r.value, CurrentDir()) == Checked(old(CurrentDir()), total)
      ensures r.Err? ==> if Unreadable(old(CurrentDir()), total)
                         then (r.error == Decimal.Read(old(resume).value).error && CurrentDir() == old(CurrentDir()))
                              || (r.error == Io(Storage) && !NeverFails())
                         else r.error == Io(Storage) && !NeverFails()
    {
      if target.Some? && |target.value| == total {
        var done := OpenFile();
        if done.Err? {
          Step(total, Idle, photo);
          return Err(done.error);
        }
        Step(total, Loop(total), photo);
        return Ok(total);
      }
      if resume.Some? && temp.Some? {
        r := CheckResumePoint(total, photo);
        return;
      }
      if temp.Some? {
        var removed := RemoveTemp();
        if removed.Err? {
          Step(total, Idle, photo);
          return Err(removed.error);
        }
        Step(total, TempRemoved, photo);
      }
      var created := CreateTemp();
      if created.Err? {
        Step(total, Idle, photo);
        return Err(created.error);
      }
      Step(total, Loop(0), photo);
      return Ok(0);
    }

    /** The branch of `check_resume_state` that finds both a resume file and a temporary file. */
    method CheckResumePoint(total: nat, ghost photo: bytes) returns (r: Result<nat>)
      requires At(total, Idle)
      requires !Complete(target, total) && resume.Some? && temp.Some?
      modifies this
      ensures old(trace) <= trace && At(total, if r.Ok? then Loop(r.value) else Idle)
      ensures TruthfulRun(photo, old(trace)) ==> TruthfulRun(photo, trace)
      ensures r.Ok? ==> !Unreadable(old(CurrentDir()), total)
                        && (r.value, CurrentDir()) == Checked(old(CurrentDir()), total)
      ensures r.Err? ==> if Unreadable(old(CurrentDir()), total)
                         then (r.error == Decimal.Read(old(resume).value).error && CurrentDir() == old(CurrentDir()))
                              || (r.error == Io(Storage) && !NeverFails())
                         else r.error == Io(Storage) && !NeverFails()
    {
      var done := OpenFile();  // `read_to_string`
      if done.Err? {
        Step(total, Idle, photo);
        return Err(done.error);
      }
      var parsed := Decimal.Read(resume.value);
      if parsed.Err? {
        Step(total, Idle, photo);
        return Err(parsed.error);
      }
      var offset := parsed.value;
      if |temp.value| != offset {
        r := StartOver(total, photo);
        return;
      }
      if offset >= total {
        r := FinishEarly(total, photo);
        return;
      }
      done := OpenFile();
      if done.Err? {
        Step(total, Idle, photo);
        return Err(done.error);
      }
      Step(total, Loop(offset), photo);
      return Ok(offset);
    }

    /** The resume file and the temporary file disagree: both go, and the download starts over. */
    method StartOver(total: nat, ghost photo: bytes) returns (r: Result<nat>)
      requires At(total, Idle)
      requires !Complete(target, total) && resume.Some? && temp.Some?
      requires Decimal.Read(resume.value).Ok? && Decimal.Read(resume.value).value != |temp.value|
      modifies this
      ensures old(trace) <= trace && At(total, if r.Ok? then Loop(r.value) else Idle)
      ensures TruthfulRun(photo, old(trace)) ==> TruthfulRun(photo, trace)
      ensures r.Ok? ==> r.value == 0 && CurrentDir() == Dir(old(target), Some([]), None)
      ensures r.Err? ==> r.error == Io(Storage) && !NeverFails()
    {
      hide Run, TruthfulRun, Appends, Decimal.Read;
      var done := RemoveResume();
      if done.Err? {
        Step(total, Idle, photo);
        return Err(done.error);
      }
      Step(total, ResumeRemoved, photo);
      done := RemoveTemp();
      if done.Err? {
        Step(total, Idle, photo);
        return Err(done.error);
      }
      Step(total, TempRemoved, photo);
      done := CreateTemp();
      if done.Err? {
        Step(total, Idle, photo);
        return Err(done.error);
      }
      Step(total, Loop(0), photo);
      return Ok(0);
    }

    /** Everything is there already, only the rename was missed. */
    method FinishEarly(total: nat, ghost photo: bytes) returns (r: Result<nat>)
      requires At(total, Idle) && Unrenamed(CurrentDir(), total)
      modifies this
      ensures old(trace) <= trace && At(total, if r.Ok? then Loop(r.value) else Idle)
      ensures TruthfulRun(photo, old(trace)) ==> TruthfulRun(photo, trace)
      ensures r.Ok? ==> r.value == total && CurrentDir() == Dir(old(temp), None, None)
      ensures r.Err? ==> r.error == Io(Storage) && !NeverFails()
    {
      hide Run, TruthfulRun, Appends, Decimal.Read;
      var done := RenameTemp();
      if done.Err? {
        Step(total, Idle, photo);
        return Err(done.error);
      }
      Step(total, RenamedEarly, photo);
      done := RemoveResume();
      if done.Err? {
        Step(total, Idle, photo);
        return Err(done.error);
      }
      Step(total, Loop(total), photo);
      done := OpenFile();
      if done.Err? {
        Step(total, Idle, photo);
        return Err(done.error);
      }
      return Ok(total);
    }
  }
}
