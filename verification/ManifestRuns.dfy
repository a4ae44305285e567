/** Replaying the manifest of a run: file numbers come from one counter and files only move down, so that no number
    returns to a level it was dropped from (VersionSet::LogAndApply and WriteSnapshot in db/version_set.cc). */
module ManifestRuns {
  import opened InternalKeys
  import opened Views
  import opened Lsm
  import opened Picking
  import opened CompactionProof
  import opened CompactionInstall
  import opened VersionBuilder
  import opened LsmRuns

  // ---------------------------------------------------------------------------------------------------------
  // The records of a manifest
  // ---------------------------------------------------------------------------------------------------------

  function FilesBelow(v: Version, n: nat): seq<(nat, File)>
    requires n <= NUM_LEVELS
  {
    if n == 0 then [] else FilesBelow(v, n - 1) + Additions(n - 1, v[n - 1])
  }

  /** The record a new manifest starts with. */
  function SnapshotEdit(v: Version): Edit {
    Edit([], FilesBelow(v, NUM_LEVELS))
  }

  function FlushEdit(level: nat, f: File): Edit {
    Edit([], [(level, f)])
  }

  /** The record a step logs, if any. */
  function StepEdits(db: Db, step: Step): seq<Edit> {
    match step
    case Flush(level, f) => [FlushEdit(level, f)]
    case FlushEmpty => [Edit([], [])]
    case Finish(_, outputs) => if db.job.Some? then [CompactionEdit(db.job.value.c, outputs)] else []
    case Move(c) => [CompactionEdit(c, c.in0)]
    case Manual(c, _, outputs) => [CompactionEdit(c, outputs)]
    case _ => []
  }

  lemma {:induction false} FilesBelowMembers(v: Version, n: nat, l: nat, f: File)
    requires n <= NUM_LEVELS
    ensures (l, f) in FilesBelow(v, n) <==> l < n && f in v[l]
  {
    hide Sorted;
    if n > 0 {
      FilesBelowMembers(v, n - 1, l, f);
      AdditionsMembers(n - 1, v[n - 1], l, f);
    }
  }

  // ---------------------------------------------------------------------------------------------------------
  // The records lead to the versions
  // ---------------------------------------------------------------------------------------------------------

  lemma LevelOrdered(v: Version, l: nat)
    requires VersionInv(v) && l < NUM_LEVELS
    ensures StrictlyOrdered(v[l])
  {
    hide Sorted, StrictlyOrdered, LevelSorted, LevelsOrdered, NumberOrdered, NumbersUnique;
    if l > 0 {
      SortedIsOrdered(v[l]);
    }
  }

  lemma SnapshotInstalls(v: Version)
    requires VersionInv(v)
    ensures Installed(EMPTY_VERSION, SnapshotEdit(v), v)
  {
    hide Sorted, StrictlyOrdered, LevelSorted, LevelsOrdered, NumberOrdered, SavedLevel, ApplyTo, FilesBelow;
    var edit := SnapshotEdit(v);
    forall l | 0 <= l < NUM_LEVELS
      ensures SavedLevel(EMPTY_VERSION[l], ApplyTo(NO_CHANGE, edit, l), v[l])
    {
      LevelOrdered(v, l);
      forall f ensures f in v[l] <==> (l, f) in edit.added { FilesBelowMembers(v, NUM_LEVELS, l, f); }
      EditChanges(EMPTY_VERSION, edit, v, l, [], v[l]);
    }
  }

  lemma FlushInstalls(v: Version, level: nat, f: File, v': Version)
    requires VersionInv(v) && NumbersBelow(v, f.number) && AddedFile(v, level, f, v')
    ensures Installed(v, FlushEdit(level, f), v')
  {
    hide Sorted, StrictlyOrdered, LevelSorted, LevelsOrdered, NumberOrdered, SavedLevel, ApplyTo;
    var edit := FlushEdit(level, f);
    forall l | 0 <= l < NUM_LEVELS
      ensures SavedLevel(v[l], ApplyTo(NO_CHANGE, edit, l), v'[l])
    {
      LevelOrdered(v, l);
      var added := if l == level then [f] else [];
      forall g ensures g in added <==> (l, g) in edit.added {}
      EditChanges(v, edit, v', l, [], added);
    }
  }

  lemma EmptyInstalls(v: Version)
    requires VersionInv(v)
    ensures Installed(v, Edit([], []), v)
  {
    hide Sorted, StrictlyOrdered, LevelSorted, LevelsOrdered, NumberOrdered, SavedLevel, ApplyTo;
    forall l | 0 <= l < NUM_LEVELS
      ensures SavedLevel(v[l], ApplyTo(NO_CHANGE, Edit([], []), l), v[l])
    {
      LevelOrdered(v, l);
      EditChanges(v, Edit([], []), v, l, [], []);
    }
  }

  lemma CompactionInstalls(v: Version, c: Inputs, outputs: seq<File>, v': Version)
    requires VersionInv(v) && Picked(v, c) && FreshNumbers(v, outputs) && Replaced(v, c, outputs, v')
    ensures Installed(v, CompactionEdit(c, outputs), v')
  {
    hide Sorted, VersionInv, OlderClosed, TakesOverlap, IsSmallest, IsLargest, Replaced, Installed;
    ReplacedIsInstalled(v, c, outputs, v');
  }

  lemma MoveInstalls(v: Version, c: Inputs, v': Version)
    requires VersionInv(v) && Picked(v, c) && |c.in0| == 1 && Replaced(v, c, c.in0, v')
    ensures Installed(v, CompactionEdit(c, c.in0), v')
  {
    hide Sorted, LevelSorted, LevelsOrdered, NumberOrdered, StrictlyOrdered, OlderClosed, TakesOverlap, IsSmallest,
         IsLargest, Replaced, Installed;
    ReplacedIsInstalled(v, c, c.in0, v');
  }

  /** Each step's record, if any, takes its version to the next. */
  lemma StepInstalls(db: Db, step: Step, db': Db)
    requires DbInv(db) && Next(db, step, db')
    ensures var es := StepEdits(db, step);
      |es| <= 1 && if es == [] then db'.v == db.v else Installed(db.v, es[0], db'.v)
  {
    hide Sorted, VersionInv, DeeperKnown, Connected, MemInv, Installed, NumbersBelow, Produced, Replaced, AddedFile;
    hide FlushLevel, Picked, Reserved;
    match step
    case Flush(level, f) => FlushInstalls(db.v, level, f, db'.v);
    case FlushEmpty => EmptyInstalls(db.v);
    case Finish(input, outputs) =>
      var j := db.job.value;
      assert FreshNumbers(db.v, outputs) by { NumbersFresh(db, j, j.numbers, input, outputs, db'); }
      CompactionInstalls(db.v, j.c, outputs, db'.v);
    case Move(c) =>
      PickedLevel(db.v, c);
      MoveInstalls(db.v, c, db'.v);
    case Manual(c, input, outputs) =>
      var snap :| OldestSnapshot(db, snap) && InstallStep(db, c, db.v, snap, input, outputs, db');
      assert FreshNumbers(db.v, outputs) by { NumbersAhead(db, c, snap, input, outputs, db'); }
      CompactionInstalls(db.v, c, outputs, db'.v);
    case _ =>
  }

  // ---------------------------------------------------------------------------------------------------------
  // Numbers do not return
  // ---------------------------------------------------------------------------------------------------------

  /** Number `n` was given out, is not reserved, and no file at or above level `l` carries it. */
  ghost predicate Retired(db: Db, l: nat, n: nat) {
    && n < db.nextFile && (db.job.Some? ==> n !in db.job.value.numbers)
    && forall m, f :: 0 <= m < NUM_LEVELS && m <= l && f in db.v[m] ==> f.number != n
  }

  lemma NewNumbersMembers(edit: Edit, l: nat, n: nat)
    ensures n in NewNumbers(edit, l) <==> exists f :: (l, f) in edit.added && f.number == n
  {
    hide Sorted;
    AddedAtMembers(edit.added, l);
    if f :| (l, f) in edit.added && f.number == n {
      assert f in AddedAt(edit.added, l);
    }
  }

  /** The record adds no retired number, and what it drops is retired afterwards. */
  ghost predicate Sound(db: Db, edit: Edit, db': Db) {
    && (forall l: nat, n: nat :: Retired(db, l, n) ==> n !in NewNumbers(edit, l) && Retired(db', l, n))
    && (forall l: nat, n: nat :: Drops(edit, l, n) ==> Retired(db', l, n))
  }

  lemma FlushSound(db: Db, level: nat, f: File, db': Db)
    requires FlushStep(db, level, f, db')
    ensures Sound(db, FlushEdit(level, f), db')
  {
    hide Sorted, FlushLevel, StrictlyOrdered, NewNumbers;
    var edit := FlushEdit(level, f);
    forall l: nat, n: nat | Retired(db, l, n)
      ensures n !in NewNumbers(edit, l) && Retired(db', l, n)
    {
      NewNumbersMembers(edit, l, n);
    }
  }

  lemma DropsInputs(c: Inputs, outputs: seq<File>, l: nat, n: nat)
    requires Drops(CompactionEdit(c, outputs), l, n)
    ensures (l == c.level && exists f :: f in c.in0 && f.number == n)
         || (l == c.level + 1 && exists f :: f in c.in1 && f.number == n)
  {
    hide Sorted, NewNumbers;
    var edit := CompactionEdit(c, outputs);
    RemovalsMembers(c.level, c.in0, l, n);
    RemovalsMembers(c.level + 1, c.in1, l, n);
    assert (l, n) in edit.deleted;
  }

  lemma AddsOutputs(c: Inputs, outputs: seq<File>, l: nat, n: nat)
    requires n in NewNumbers(CompactionEdit(c, outputs), l)
    ensures l == c.level + 1 && exists f :: f in outputs && f.number == n
  {
    hide Sorted, NewNumbers;
    NewNumbersMembers(CompactionEdit(c, outputs), l, n);
    var f :| (l, f) in CompactionEdit(c, outputs).added && f.number == n;
    AdditionsMembers(c.level + 1, outputs, l, f);
  }

  lemma InstallSound(db: Db, c: Inputs, outputs: seq<File>, db': Db)
    requires NumbersUnique(db.v) && NumbersBelow(db.v, db.nextFile) && Picked(db.v, c) && FreshNumbers(db.v, outputs)
    requires Replaced(db.v, c, outputs, db'.v) && db'.job.None? && db.nextFile <= db'.nextFile
    requires forall o :: o in outputs ==>
      db.nextFile <= o.number || (db.job.Some? && o.number in db.job.value.numbers)
    ensures Sound(db, CompactionEdit(c, outputs), db')
  {
    hide Sorted, CompactionEdit, NewNumbers, Drops, Retired, NumbersUnique, NumbersBelow, FreshNumbers, Picked;
    var edit := CompactionEdit(c, outputs);
    PickedLevel(db.v, c);
    assert Swapped(db.v, c, outputs, db'.v) by { ReplacedSwaps(db.v, c, outputs, db'.v); }
    hide Replaced, Swapped;
    forall l: nat, n: nat | Retired(db, l, n)
      ensures n !in NewNumbers(edit, l) && Retired(db', l, n)
    {
      RetiredInstalled(db, c, outputs, db', l, n);
      if n in NewNumbers(edit, l) {
        AddsOutputs(c, outputs, l, n);
      }
    }
    forall l: nat, n: nat | Drops(edit, l, n)
      ensures Retired(db', l, n)
    {
      DropsInputs(c, outputs, l, n);
      var g :| (g in c.in0 || g in c.in1) && g.number == n;
      InputRetires(db, c, outputs, db', g, l);
    }
  }

  /** A file of the new version is an output, or was there and is no input. */
  ghost predicate Swapped(v: Version, c: Inputs, outputs: seq<File>, v': Version) {
    forall m, f :: 0 <= m < NUM_LEVELS && f in v'[m] ==>
      f in outputs || (f in v[m] && (m == c.level ==> f !in c.in0) && (m == c.level + 1 ==> f !in c.in1))
  }

  lemma ReplacedSwaps(v: Version, c: Inputs, outputs: seq<File>, v': Version)
    requires c.level + 1 < NUM_LEVELS && Replaced(v, c, outputs, v')
    ensures Swapped(v, c, outputs, v')
  {
    hide Sorted, StrictlyOrdered;
  }

  lemma RetiredInstalled(db: Db, c: Inputs, outputs: seq<File>, db': Db, l: nat, n: nat)
    requires Swapped(db.v, c, outputs, db'.v) && db'.job.None? && db.nextFile <= db'.nextFile && Retired(db, l, n)
    requires forall o :: o in outputs ==>
      db.nextFile <= o.number || (db.job.Some? && o.number in db.job.value.numbers)
    ensures Retired(db', l, n) && forall o :: o in outputs ==> o.number != n
  {
    hide Sorted;
  }

  lemma InputRetires(db: Db, c: Inputs, outputs: seq<File>, db': Db, g: File, l: nat)
    requires NumbersUnique(db.v) && NumbersBelow(db.v, db.nextFile) && Picked(db.v, c) && FreshNumbers(db.v, outputs)
    requires Swapped(db.v, c, outputs, db'.v) && db'.job.None? && db.nextFile <= db'.nextFile
    requires g in c.in0 || g in c.in1
    ensures Retired(db', l, g.number)
  {
    hide Sorted, OlderClosed, TakesOverlap, IsSmallest, IsLargest;
    assert (g in c.in0 && g in db.v[c.level]) || (g in c.in1 && g in db.v[c.level + 1]);
  }

  lemma MoveSound(db: Db, c: Inputs, db': Db)
    requires NumbersUnique(db.v) && NumbersBelow(db.v, db.nextFile) && MoveStep(db, c, db')
    ensures Sound(db, CompactionEdit(c, c.in0), db')
  {
    hide Sorted, StrictlyOrdered, OlderClosed, TakesOverlap, IsSmallest, IsLargest, CompactionEdit, NewNumbers, Drops;
    hide Retired, NumbersUnique, NumbersBelow;
    var edit, f := CompactionEdit(c, c.in0), c.in0[0];
    assert forall g :: g in c.in0 <==> g == f;
    assert Moved(db, c.level, f, db') by { FileMoved(db, c, f, db'); }
    hide Replaced, Picked, Moved;
    forall l: nat, n: nat | Retired(db, l, n)
      ensures n !in NewNumbers(edit, l) && Retired(db', l, n)
    {
      RetiredMoved(db, c.level, f, db', l, n);
      if n in NewNumbers(edit, l) {
        AddsOutputs(c, c.in0, l, n);
      }
    }
    forall l: nat, n: nat | Drops(edit, l, n)
      ensures Retired(db', l, n)
    {
      DropsInputs(c, c.in0, l, n);
      MovedRetires(db, c.level, f, db');
    }
  }

  /** File `f` went from its level to the next, and nothing else changed. */
  ghost predicate Moved(db: Db, level: nat, f: File, db': Db) {
    && level + 1 < NUM_LEVELS && f in db.v[level] && db'.nextFile == db.nextFile && db'.job == db.job == None
    && forall m, g :: 0 <= m < NUM_LEVELS && g in db'.v[m] ==>
      (m == level + 1 && g == f) || (g in db.v[m] && (m == level ==> g != f))
  }

  lemma FileMoved(db: Db, c: Inputs, f: File, db': Db)
    requires MoveStep(db, c, db') && c.in0 == [f]
    ensures Moved(db, c.level, f, db')
  {
    hide Sorted, StrictlyOrdered, OlderClosed, TakesOverlap, IsSmallest, IsLargest;
    assert f in c.in0;
  }

  lemma RetiredMoved(db: Db, level: nat, f: File, db': Db, l: nat, n: nat)
    requires Moved(db, level, f, db') && Retired(db, l, n)
    ensures Retired(db', l, n) && (level <= l ==> n != f.number)
  {
    hide Sorted;
  }

  lemma MovedRetires(db: Db, level: nat, f: File, db': Db)
    requires NumbersUnique(db.v) && NumbersBelow(db.v, db.nextFile) && Moved(db, level, f, db')
    ensures Retired(db', level, f.number)
  {
    hide Sorted;
  }

  lemma StaysRetired(db: Db, step: Step, db': Db, l: nat, n: nat)
    requires Next(db, step, db') && StepEdits(db, step) == [] && Retired(db, l, n)
    ensures Retired(db', l, n)
  {
    hide Sorted, Picked, Connected, OldestSnapshot;
  }

  lemma StepSound(db: Db, step: Step, db': Db)
    requires DbInv(db) && Next(db, step, db') && StepEdits(db, step) != []
    ensures Sound(db, StepEdits(db, step)[0], db')
  {
    hide Sorted, LevelsOrdered, LevelSorted, NumberOrdered, StrictlyOrdered, DeeperKnown, Connected, MemInv, Sound;
    hide NumbersBelow, Produced, Replaced, AddedFile, FlushLevel, Picked, CompactionEdit;
    match step
    case Flush(level, f) => FlushSound(db, level, f, db');
    case FlushEmpty => EmptySound(db, db');
    case Finish(input, outputs) =>
      var j := db.job.value;
      assert FreshNumbers(db.v, outputs) by { NumbersFresh(db, j, j.numbers, input, outputs, db'); }
      InstallSound(db, j.c, outputs, db');
    case Move(c) => MoveSound(db, c, db');
    case Manual(c, input, outputs) =>
      var snap :| OldestSnapshot(db, snap) && InstallStep(db, c, db.v, snap, input, outputs, db');
      assert FreshNumbers(db.v, outputs) by { NumbersAhead(db, c, snap, input, outputs, db'); }
      InstallSound(db, c, outputs, db');
  }

  lemma EmptySound(db: Db, db': Db)
    requires db' == db.(imm := None, nextFile := db.nextFile + 1)
    ensures Sound(db, Edit([], []), db')
  {
    hide Sorted;
    assert forall l :: AddedAt([], l) == [];
  }

  // ---------------------------------------------------------------------------------------------------------
  // Runs
  // ---------------------------------------------------------------------------------------------------------

  /** A number that record `k` drops is not added again, and is retired. */
  ghost predicate DroppedForGood(edits: seq<Edit>, db: Db, k: nat, l: nat, n: nat)
    requires k < |edits|
  {
    Drops(edits[k], l, n) ==> NotAddedFrom(edits, l, n, k + 1) && Retired(db, l, n)
  }

  /** The records lead to the database's version, and what they dropped is retired. */
  ghost predicate Written(edits: seq<Edit>, vs: seq<Version>, db: Db) {
    && Live(edits, vs) && vs[|edits|] == db.v
    && forall k: nat, l: nat, n: nat :: k < |edits| ==> DroppedForGood(edits, db, k, l, n)
  }

  lemma WrittenFirst(db: Db)
    requires VersionInv(db.v)
    ensures Written([SnapshotEdit(db.v)], [EMPTY_VERSION, db.v], db)
  {
    hide Sorted, VersionInv, Installed, FilesBelow, NewNumbers, Retired;
    SnapshotInstalls(db.v);
    assert forall l: nat, n: nat :: !Drops(SnapshotEdit(db.v), l, n);
  }

  lemma WrittenMore(edits: seq<Edit>, vs: seq<Version>, db: Db, edit: Edit, db': Db)
    requires Written(edits, vs, db) && Installed(db.v, edit, db'.v) && Sound(db, edit, db')
    ensures Written(edits + [edit], vs + [db'.v], db')
  {
    hide Sorted, Installed, NewNumbers, Drops, Retired;
    var edits', vs', m := edits + [edit], vs + [db'.v], |edits|;
    forall k | 0 <= k < |edits'|
      ensures Installed(vs'[k], edits'[k], vs'[k + 1])
    {
      assert k < m ==> Installed(vs[k], edits[k], vs[k + 1]);
    }
    forall k: nat, l: nat, n: nat | k < |edits'|
      ensures DroppedForGood(edits', db', k, l, n)
    {
      if k < m && Drops(edits[k], l, n) {
        assert DroppedForGood(edits, db, k, l, n);
        forall j | k + 1 <= j < |edits'|
          ensures n !in NewNumbers(edits'[j], l)
        {
          assert j < m ==> edits'[j] == edits[j];
        }
      }
    }
  }

  lemma WrittenStill(edits: seq<Edit>, vs: seq<Version>, db: Db, step: Step, db': Db)
    requires Written(edits, vs, db) && Next(db, step, db') && StepEdits(db, step) == [] && db'.v == db.v
    ensures Written(edits, vs, db')
  {
    hide Sorted, Live, NewNumbers, Drops, Retired, Next, StepEdits;
    forall k: nat, l: nat, n: nat | k < |edits|
      ensures DroppedForGood(edits, db', k, l, n)
    {
      assert DroppedForGood(edits, db, k, l, n);
      if Drops(edits[k], l, n) {
        StaysRetired(db, step, db', l, n);
      }
    }
  }

  lemma StepWrites(edits: seq<Edit>, vs: seq<Version>, db: Db, step: Step, db': Db) returns (vs': seq<Version>)
    requires DbInv(db) && Next(db, step, db') && Written(edits, vs, db)
    ensures Written(edits + StepEdits(db, step), vs', db')
  {
    hide DbInv, Next, Written, StepEdits, Installed, Sound;
    var es := StepEdits(db, step);
    StepInstalls(db, step, db');
    if es == [] {
      WrittenStill(edits, vs, db, step, db');
      assert edits + es == edits;
      vs' := vs;
    } else {
      StepSound(db, step, db');
      WrittenMore(edits, vs, db, es[0], db');
      assert es == [es[0]];
      vs' := vs + [db'.v];
    }
  }

  /** The records of the first `n` steps. */
  function EditsOf(dbs: seq<Db>, steps: seq<Step>, n: nat): seq<Edit>
    requires n <= |steps| < |dbs|
  {
    if n == 0 then [] else EditsOf(dbs, steps, n - 1) + StepEdits(dbs[n - 1], steps[n - 1])
  }

  ghost predicate Chain(dbs: seq<Db>, steps: seq<Step>) {
    && |dbs| == |steps| + 1 && DbInv(dbs[0])
    && forall k :: 0 <= k < |steps| ==> Next(dbs[k], steps[k], dbs[k + 1])
  }

  lemma {:induction false} ChainWrites(dbs: seq<Db>, steps: seq<Step>, n: nat) returns (vs: seq<Version>)
    requires Chain(dbs, steps) && n <= |steps|
    ensures Written([SnapshotEdit(dbs[0].v)] + EditsOf(dbs, steps, n), vs, dbs[n]) && DbInv(dbs[n])
  {
    hide Next, Written, StepEdits, VersionInv, MemInv, NumbersBelow, JobInv;
    if n == 0 {
      WrittenFirst(dbs[0]);
      vs := [EMPTY_VERSION, dbs[0].v];
      assert [SnapshotEdit(dbs[0].v)] + [] == [SnapshotEdit(dbs[0].v)];
    } else {
      var before := ChainWrites(dbs, steps, n - 1);
      var edits := [SnapshotEdit(dbs[0].v)] + EditsOf(dbs, steps, n - 1);
      vs := StepWrites(edits, before, dbs[n - 1], steps[n - 1], dbs[n]);
      StepKeepsInv(dbs[n - 1], steps[n - 1], dbs[n]);
      var more := StepEdits(dbs[n - 1], steps[n - 1]);
      assert edits + more == [SnapshotEdit(dbs[0].v)] + (EditsOf(dbs, steps, n - 1) + more);
    }
  }

  lemma WrittenReplays(edits: seq<Edit>, vs: seq<Version>, db: Db, l: nat)
    requires Written(edits, vs, db) && l < NUM_LEVELS
    ensures NeverReadded(edits, l) && SavedLevel([], Collected(edits, l), db.v[l])
  {
    hide Sorted, Installed, NewNumbers, Drops, Retired, Replayable, Collected, SavedLevel;
    forall k, n: nat | 0 <= k < |edits| && Drops(edits[k], l, n)
      ensures NotAddedFrom(edits, l, n, k + 1)
    {
      assert DroppedForGood(edits, db, k, l, n);
    }
    NeverReaddedReplays(edits, l);
    ReplayExact(edits, vs, l);
  }

  /** In every run, from the empty database or from a recovered one, the manifest that starts with a snapshot of the
      first version and goes on with the record of every step replays to the version of the database. */
  lemma RunReplays(dbs: seq<Db>, steps: seq<Step>, n: nat, l: nat)
    requires Chain(dbs, steps) && n <= |steps| && l < NUM_LEVELS
    ensures var edits := [SnapshotEdit(dbs[0].v)] + EditsOf(dbs, steps, n);
      NeverReadded(edits, l) && SavedLevel([], Collected(edits, l), dbs[n].v[l])
  {
    hide Chain, Written, NeverReadded, SavedLevel, Collected;
    assert |dbs| == |steps| + 1 by { ChainLength(dbs, steps); }
    var vs := ChainWrites(dbs, steps, n);
    WrittenReplays([SnapshotEdit(dbs[0].v)] + EditsOf(dbs, steps, n), vs, dbs[n], l);
  }

  lemma ChainLength(dbs: seq<Db>, steps: seq<Step>)
    requires Chain(dbs, steps)
    ensures |dbs| == |steps| + 1
  {
    hide DbInv, Next;
  }
}
