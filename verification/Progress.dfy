/** The progress reports of the download loop: at most one checkpoint per chunk. */
module Progress {
  import opened Types

  /** The first checkpoint in list order beyond the last reported one and reached by now. */
  function FirstDue(checkpoints: seq<nat>, last: nat, current: nat): Option<nat>
  {
    if checkpoints == [] then None
    else if checkpoints[0] > last && current >= checkpoints[0] then Some(checkpoints[0])
    else FirstDue(checkpoints[1..], last, current)
  }

  lemma {:induction false} FirstDueMeans(checkpoints: seq<nat>, last: nat, current: nat)
    ensures var r := FirstDue(checkpoints, last, current);
            && (r.Some? ==> r.value in checkpoints && last < r.value <= current)
            && (r.None? <==> forall p | p in checkpoints :: p > current || p <= last)
  {
    if checkpoints != [] {
      FirstDueMeans(checkpoints[1..], last, current);
      assert checkpoints == [checkpoints[0]] + checkpoints[1..];
    }
  }

  datatype Report = Report(offset: nat, checkpoint: nat)

  function LastOf(reports: seq<Report>): nat
  {
    if reports == [] then 0 else reports[|reports| - 1].checkpoint
  }

  /** The reports after one more chunk, ending at `current`. */
  function After(checkpoints: seq<nat>, reports: seq<Report>, current: nat): seq<Report>
  {
    match FirstDue(checkpoints, LastOf(reports), current)
    case None => reports
    case Some(p) => reports + [Report(current, p)]
  }

  /** The reports made when the chunks end at `offsets`. */
  function Reports(checkpoints: seq<nat>, offsets: seq<nat>): seq<Report>
  {
    if offsets == [] then [] else
    After(checkpoints, Reports(checkpoints, offsets[..|offsets| - 1]), offsets[|offsets| - 1])
  }

  predicate NonDecreasing(s: seq<nat>) {
    forall i, j | 0 <= i < j < |s| :: s[i] <= s[j]
  }

  predicate Increasing(s: seq<nat>) {
    forall i, j | 0 <= i < j < |s| :: s[i] < s[j]
  }

  /** On a sorted list the first due checkpoint is the least one not yet reported. */
  lemma {:induction false} FirstDueIsLeast(checkpoints: seq<nat>, last: nat, current: nat)
    requires NonDecreasing(checkpoints) && FirstDue(checkpoints, last, current).Some?
    ensures forall p | p in checkpoints && p > last :: FirstDue(checkpoints, last, current).value <= p
  {
    var first, rest := checkpoints[0], checkpoints[1..];
    assert checkpoints == [first] + rest;
    if first > last && current >= first {
      assert forall p | p in rest :: first <= p;
    } else {
      // The first checkpoint is not due: it is reported already, or lies beyond all that are due.
      FirstDueMeans(checkpoints, last, current);
      FirstDueIsLeast(rest, last, current);
    }
  }

  /** Reports name existing, reached checkpoints, each at most once, with rising offsets. */
  lemma {:induction false} ReportsRise(checkpoints: seq<nat>, offsets: seq<nat>)
    requires Increasing(offsets)
    ensures var rs := Reports(checkpoints, offsets);
            && |rs| <= |offsets|
            && (forall i | 0 <= i < |rs| :: rs[i].checkpoint in checkpoints && 0 < rs[i].checkpoint <= rs[i].offset
                                            && rs[i].offset in offsets)
            && (forall i, j | 0 <= i < j < |rs| :: rs[i].checkpoint < rs[j].checkpoint
                                                   && rs[i].offset < rs[j].offset)
  {
    if offsets != [] {
      var n := |offsets| - 1;
      ReportsRise(checkpoints, offsets[..n]);
      FirstDueMeans(checkpoints, LastOf(Reports(checkpoints, offsets[..n])), offsets[n]);
    }
  }

  /** Reports are made where chunks end, and there are no more of them than chunks. */
  lemma {:induction false} ReportsAtOffsets(checkpoints: seq<nat>, offsets: seq<nat>)
    ensures var rs := Reports(checkpoints, offsets);
            |rs| <= |offsets| && forall k | 0 <= k < |rs| :: rs[k].offset in offsets
  {
    if offsets != [] {
      ReportsAtOffsets(checkpoints, offsets[..|offsets| - 1]);
    }
  }

  /** No checkpoint is passed over: every positive one up to the last reported was reported. */
  lemma {:induction false} NoneSkipped(checkpoints: seq<nat>, offsets: seq<nat>, p: nat)
    requires NonDecreasing(checkpoints) && p in checkpoints
    requires 0 < p <= LastOf(Reports(checkpoints, offsets))
    ensures exists i | 0 <= i < |Reports(checkpoints, offsets)| :: Reports(checkpoints, offsets)[i].checkpoint == p
  {
    var n := |offsets| - 1;
    var before := Reports(checkpoints, offsets[..n]);
    var rs := Reports(checkpoints, offsets);
    if p <= LastOf(before) {
      NoneSkipped(checkpoints, offsets[..n], p);
      var i :| 0 <= i < |before| && before[i].checkpoint == p;
      assert rs[i].checkpoint == p;
    } else {
      FirstDueMeans(checkpoints, LastOf(before), offsets[n]);
      FirstDueIsLeast(checkpoints, LastOf(before), offsets[n]);
      assert rs[|rs| - 1].checkpoint == p;
    }
  }

  /** There are no more reports than checkpoints: the i-th one stands at index i or later. */
  lemma {:induction false} AtMostOnePerCheckpoint(checkpoints: seq<nat>, offsets: seq<nat>)
    requires NonDecreasing(checkpoints)
    ensures |Reports(checkpoints, offsets)| <= |checkpoints|
    ensures forall j | 0 <= j < |checkpoints| && j + 1 < |Reports(checkpoints, offsets)| ::
              checkpoints[j] < LastOf(Reports(checkpoints, offsets))
  {
    if offsets != [] {
      var n := |offsets| - 1;
      AtMostOnePerCheckpoint(checkpoints, offsets[..n]);
      var before := Reports(checkpoints, offsets[..n]);
      var due := FirstDue(checkpoints, LastOf(before), offsets[n]);
      FirstDueMeans(checkpoints, LastOf(before), offsets[n]);
      if due.Some? {
        var d :| 0 <= d < |checkpoints| && checkpoints[d] == due.value;
        if before != [] {
          var m := |before| - 1;
          assert forall j | 0 <= j < m :: checkpoints[j] < LastOf(before);
          LastIsCheckpoint(checkpoints, offsets[..n]);
          assert forall j | 0 <= j <= m :: checkpoints[j] <= LastOf(before) by {
            var e :| 0 <= e < |checkpoints| && checkpoints[e] == LastOf(before);
            assert e >= m;
          }
        }
      }
    }
  }

  lemma {:induction false} LastIsCheckpoint(checkpoints: seq<nat>, offsets: seq<nat>)
    ensures Reports(checkpoints, offsets) != [] ==> LastOf(Reports(checkpoints, offsets)) in checkpoints
  {
    if offsets != [] {
      var before := offsets[..|offsets| - 1];
      LastIsCheckpoint(checkpoints, before);
      FirstDueMeans(checkpoints, LastOf(Reports(checkpoints, before)), offsets[|offsets| - 1]);
    }
  }

  /** A chunk is silent exactly when it reaches no checkpoint beyond the last reported one. */
  lemma SilentChunk(checkpoints: seq<nat>, offsets: seq<nat>, current: nat)
    ensures Reports(checkpoints, offsets + [current]) == Reports(checkpoints, offsets) <==>
            forall p | p in checkpoints && p <= current :: p <= LastOf(Reports(checkpoints, offsets))
  {
    assert (offsets + [current])[..|offsets|] == offsets;
    FirstDueMeans(checkpoints, LastOf(Reports(checkpoints, offsets)), current);
  }
}
