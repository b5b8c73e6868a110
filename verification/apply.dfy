/**
 * Apply engine (`apply_changes`): the planned pairs are taken in order over a
 * filesystem that each earlier rename has already changed. A pair whose
 * destination exists is skipped; otherwise a rename is attempted, and a rename
 * that fails does not stop the pairs after it.
 */
module Apply {
  import opened Planner

  /** What a path holds (its inode): renaming moves it, overwriting would replace it. */
  type FileId = nat

  /** The filesystem: the existing paths and what each holds. */
  type Files = map<string, FileId>

  /** What is reported for one pair. */
  datatype Outcome = AlreadyExists | Moved | RenameFailed

  /**
   * One pair. The destination exists: nothing changes. Otherwise the rename
   * either fails (the source is gone, or the operating system refuses, as
   * `refused` says) and nothing changes, or the source's content moves to the
   * destination and no other path is touched.
   */
  function Step(files: Files, change: ChangePair, refused: bool): (r: (Files, Outcome))
    ensures r.1 == AlreadyExists <==> change.1 in files
    ensures r.1 == Moved <==> change.1 !in files && change.0 in files && !refused
    ensures r.1 != Moved ==> r.0 == files
  {
    var (source, destination) := change;
    if destination in files then
      (files, AlreadyExists)
    else if source !in files || refused then
      (files, RenameFailed)
    else
      ((files - {source})[destination := files[source]], Moved)
  }

  /**
   * A rename that goes ahead takes the source's content to the destination,
   * which did not exist, and leaves every other path as it was.
   */
  lemma StepMoves(files: Files, change: ChangePair, refused: bool)
    requires Step(files, change, refused).1 == Moved
    ensures var after := Step(files, change, refused).0;
      && change.0 != change.1
      && after.Keys == files.Keys - {change.0} + {change.1}
      && after[change.1] == files[change.0]
      && (forall p :: p in after && p != change.1 ==> p in files && after[p] == files[p])
  {
  }

  /**
   * The pairs from position `i` on, each on the filesystem the pairs before it
   * left; `refused(j)` is the operating system's verdict on the j-th rename.
   */
  function ApplyFrom(files: Files, changes: seq<ChangePair>, refused: nat -> bool, i: nat): (r: (Files, seq<Outcome>))
    requires i <= |changes|
    ensures |r.1| == |changes| - i
    decreases |changes| - i
  {
    if i == |changes| then
      (files, [])
    else
      var step := Step(files, changes[i], refused(i));
      var rest := ApplyFrom(step.0, changes, refused, i + 1);
      (rest.0, [step.1] + rest.1)
  }

  /** The filesystem just before the i-th pair is handled. */
  ghost function Before(files: Files, changes: seq<ChangePair>, refused: nat -> bool, i: nat): Files
    requires i <= |changes|
  {
    if i == 0 then files else Step(Before(files, changes, refused, i - 1), changes[i - 1], refused(i - 1)).0
  }

  /** One pair handled, then the rest. */
  lemma ApplyFromUnfold(files: Files, changes: seq<ChangePair>, refused: nat -> bool, i: nat)
    requires i < |changes|
    ensures var step := Step(files, changes[i], refused(i));
      ApplyFrom(files, changes, refused, i)
        == (ApplyFrom(step.0, changes, refused, i + 1).0, [step.1] + ApplyFrom(step.0, changes, refused, i + 1).1)
  {
  }

  /** One pair handled, seen from a report that already holds the earlier outcomes. */
  lemma ApplyFromAdvance(files: Files, changes: seq<ChangePair>, refused: nat -> bool, i: nat, report: seq<Outcome>)
    requires i < |changes|
    ensures var step := Step(files, changes[i], refused(i));
      && ApplyFrom(files, changes, refused, i).0 == ApplyFrom(step.0, changes, refused, i + 1).0
      && report + ApplyFrom(files, changes, refused, i).1 == (report + [step.1]) + ApplyFrom(step.0, changes, refused, i + 1).1
  {
    var step := Step(files, changes[i], refused(i));
    ApplyFromUnfold(files, changes, refused, i);
    assert report + ([step.1] + ApplyFrom(step.0, changes, refused, i + 1).1)
        == (report + [step.1]) + ApplyFrom(step.0, changes, refused, i + 1).1;
  }

  /** Handling the pairs from `i` on ends where handling all of them ends. */
  lemma {:induction false} ApplyFromFinal(files: Files, changes: seq<ChangePair>, refused: nat -> bool, i: nat)
    requires i <= |changes|
    ensures ApplyFrom(Before(files, changes, refused, i), changes, refused, i).0 == Before(files, changes, refused, |changes|)
    decreases |changes| - i
  {
    var here := Before(files, changes, refused, i);
    if i < |changes| {
      var next := Step(here, changes[i], refused(i)).0;
      ApplyFromAdvance(here, changes, refused, i, []);
      assert Before(files, changes, refused, i + 1) == next;
      ApplyFromFinal(files, changes, refused, i + 1);
    }
  }

  /** The first outcome reported from position `i` is that of the i-th pair. */
  lemma OutcomeHead(here: Files, changes: seq<ChangePair>, refused: nat -> bool, i: nat)
    requires i < |changes|
    ensures ApplyFrom(here, changes, refused, i).1[0] == Step(here, changes[i], refused(i)).1
  {
    ApplyFromUnfold(here, changes, refused, i);
  }

  /** Past the first, the outcomes reported from position `i` are those reported from `i + 1`. */
  lemma OutcomeRest(here: Files, changes: seq<ChangePair>, refused: nat -> bool, i: nat)
    requires i < |changes|
    ensures ApplyFrom(here, changes, refused, i).1[1..]
         == ApplyFrom(Step(here, changes[i], refused(i)).0, changes, refused, i + 1).1
  {
    var rest := ApplyFrom(Step(here, changes[i], refused(i)).0, changes, refused, i + 1).1;
    ApplyFromUnfold(here, changes, refused, i);
    assert ([Step(here, changes[i], refused(i)).1] + rest)[1..] == rest;
  }

  /**
   * The outcomes reported from position `i` on, starting from the filesystem
   * the first i pairs left, are the tail of the whole report.
   */
  lemma {:induction false} OutcomeSuffix(files: Files, changes: seq<ChangePair>, refused: nat -> bool, i: nat)
    requires i <= |changes|
    ensures ApplyFrom(Before(files, changes, refused, i), changes, refused, i).1 == ApplyFrom(files, changes, refused, 0).1[i..]
  {
    var whole := ApplyFrom(files, changes, refused, 0).1;
    if i == 0 {
      assert whole[0..] == whole;
    } else {
      OutcomeSuffix(files, changes, refused, i - 1);
      OutcomeRest(Before(files, changes, refused, i - 1), changes, refused, i - 1);
      assert whole[i - 1..][1..] == whole[i..];
    }
  }

  /**
   * Handling the pairs from `i` on, the outcome of the j-th pair is its step
   * on the filesystem the pairs before it left.
   */
  lemma ApplyFromOutcome(files: Files, changes: seq<ChangePair>, refused: nat -> bool, i: nat, j: nat)
    requires i <= j < |changes|
    ensures ApplyFrom(Before(files, changes, refused, i), changes, refused, i).1[j - i]
         == Step(Before(files, changes, refused, j), changes[j], refused(j)).1
  {
    OutcomeSuffix(files, changes, refused, i);
    OutcomeSuffix(files, changes, refused, j);
    OutcomeHead(Before(files, changes, refused, j), changes, refused, j);
  }

  /**
   * The pairs are handled in order, each on the filesystem the earlier ones
   * left: the j-th outcome is that of the j-th pair on that filesystem, and
   * every pair gets one whatever happened before it.
   */
  lemma ApplyInOrder(files: Files, changes: seq<ChangePair>, refused: nat -> bool)
    ensures ApplyFrom(files, changes, refused, 0).0 == Before(files, changes, refused, |changes|)
    ensures forall j :: 0 <= j < |changes| ==>
      ApplyFrom(files, changes, refused, 0).1[j] == Step(Before(files, changes, refused, j), changes[j], refused(j)).1
  {
    assert Before(files, changes, refused, 0) == files;
    ApplyFromFinal(files, changes, refused, 0);
    forall j | 0 <= j < |changes|
      ensures ApplyFrom(files, changes, refused, 0).1[j] == Step(Before(files, changes, refused, j), changes[j], refused(j)).1
    {
      ApplyFromOutcome(files, changes, refused, 0, j);
    }
  }

  /**
   * An existing destination is never overwritten: a pair whose destination
   * exists when its turn comes is reported as such and changes nothing, and
   * no step ever changes what an existing path other than its destination holds.
   */
  lemma NeverOverwrites(files: Files, changes: seq<ChangePair>, refused: nat -> bool, j: nat)
    requires j < |changes|
    ensures var before, after := Before(files, changes, refused, j), Before(files, changes, refused, j + 1);
      && (changes[j].1 in before ==> ApplyFrom(files, changes, refused, 0).1[j] == AlreadyExists && after == before)
      && (forall p :: p in before && p in after ==> after[p] == before[p])
  {
    ApplyInOrder(files, changes, refused);
    var before := Before(files, changes, refused, j);
    if Step(before, changes[j], refused(j)).1 == Moved {
      StepMoves(before, changes[j], refused(j));
    }
  }

  /** A single step loses no file content. */
  lemma StepKeepsContents(files: Files, change: ChangePair, refused: bool)
    ensures Step(files, change, refused).0.Values == files.Values
  {
    var (after, outcome) := Step(files, change, refused);
    if outcome == Moved {
      StepMoves(files, change, refused);
      var (source, destination) := change;
      forall v | v in files.Values ensures v in after.Values {
        var p :| p in files && files[p] == v;
        if p == source {
          assert after[destination] == v;
        } else {
          assert p in after && after[p] == v;
        }
      }
      forall v | v in after.Values ensures v in files.Values {
        var p :| p in after && after[p] == v;
        if p == destination {
          assert files[source] == v;
        } else {
          assert files[p] == v;
        }
      }
    }
  }

  /**
   * Applying a plan deletes nothing: every file content present before is
   * present afterwards, possibly under a new name, and nothing new appears.
   */
  lemma {:induction false} ApplyKeepsContents(files: Files, changes: seq<ChangePair>, refused: nat -> bool, i: nat)
    requires i <= |changes|
    ensures ApplyFrom(files, changes, refused, i).0.Values == files.Values
    decreases |changes| - i
  {
    if i < |changes| {
      StepKeepsContents(files, changes[i], refused(i));
      ApplyKeepsContents(Step(files, changes[i], refused(i)).0, changes, refused, i + 1);
    }
  }

  /** The filesystem the renamer works on. */
  class FileSystem {
    var files: Files

    constructor (files: Files)
      ensures this.files == files
    {
      this.files := files;
    }

    /**
     * `apply_changes`: handles every pair in order, reports one outcome per
     * pair, and always answers `false`.
     */
    method ApplyChanges(changes: seq<ChangePair>, refused: nat -> bool) returns (result: bool, report: seq<Outcome>)
      modifies this
      ensures !result
      ensures (files, report) == ApplyFrom(old(files), changes, refused, 0)
    {
      result, report := false, [];
      ghost var total := ApplyFrom(files, changes, refused, 0);
      var i := 0;
      while i < |changes|
        invariant i <= |changes|
        invariant total.0 == ApplyFrom(files, changes, refused, i).0
        invariant total.1 == report + ApplyFrom(files, changes, refused, i).1
      {
        ghost var here := files;
        ApplyFromAdvance(here, changes, refused, i, report);
        var (source, destination) := changes[i];
        var outcome;
        if destination in files {
          outcome := AlreadyExists;
        } else if source !in files || refused(i) {
          outcome := RenameFailed;
        } else {
          files := (files - {source})[destination := files[source]];
          outcome := Moved;
        }
        assert files == Step(here, changes[i], refused(i)).0;
        assert outcome == Step(here, changes[i], refused(i)).1;
        report := report + [outcome];
        i := i + 1;
      }
      assert report + [] == report;
    }
  }
}
