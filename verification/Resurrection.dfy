/** A run of the engine in which a compaction brings a deleted value back (AddBoundaryInputs and SetupOtherInputs in
    db/version_set.cc close the files of the level under boundary files, and those of the next level not). */
module Resurrection {
  import opened InternalKeys
  import opened Views
  import opened Lsm
  import opened Picking
  import opened Compactions
  import opened CompactionProof
  import opened LsmRuns

  // While a snapshot is held, a compaction keeps the deletion of key 10 and the value it covers, and its outputs are
  // cut between the two. When the snapshot is released, a compaction around key 1 takes the deletion and not the value.
  const COVERED := Entry(10, 1, Put("covered"))
  const OLD_ONE := Entry(1, 2, Put("old"))
  const TOMBSTONE := Entry(10, 3, Deletion)
  const NEW_ONE := Entry(1, 4, Put("new"))

  const WHOLE: File := FileData(3, 1, [OLD_ONE, TOMBSTONE, COVERED])
  const LOWER: File := FileData(4, 1, [OLD_ONE, TOMBSTONE])
  const BOUNDARY: File := FileData(5, 1, [COVERED])
  const UPPER: File := FileData(7, 1, [NEW_ONE])
  const OUTPUT: File := FileData(8, 1, [NEW_ONE])

  const EMPTY: Version := [[], [], [], [], [], [], []]
  const FLUSHED: Version := [[], [], [WHOLE], [], [], [], []]
  const CUT: Version := [[], [], [], [LOWER, BOUNDARY], [], [], []]
  const BEFORE: Version := [[], [], [UPPER], [LOWER, BOUNDARY], [], [], []]
  const AFTER: Version := [[], [], [], [OUTPUT, BOUNDARY], [], [], []]

  const ALONE := Inputs(2, [WHOLE], [], KeyOf(OLD_ONE), KeyOf(COVERED), [])
  const CHOSEN := Inputs(2, [UPPER], [LOWER], KeyOf(NEW_ONE), KeyOf(NEW_ONE), [])
  const MERGED_INPUT := [NEW_ONE, OLD_ONE, TOMBSTONE]

  const D0 := Db([], None, EMPTY, 0, multiset{}, 2, None)
  const D1 := D0.(mem := [COVERED], lastSeq := 1)
  const D2 := D1.(snapshots := multiset{1})
  const D3 := D2.(mem := WHOLE.entries, lastSeq := 3)
  const D4 := D3.(mem := [], imm := Some(WHOLE.entries), nextFile := 3)
  const D5 := D4.(imm := None, v := FLUSHED, nextFile := 4)
  const D6 := D5.(v := CUT, nextFile := 6)
  const D7 := D6.(snapshots := multiset{})
  const D8 := D7.(mem := [NEW_ONE], lastSeq := 4)
  const D9 := D8.(mem := [], imm := Some([NEW_ONE]), nextFile := 7)
  const D10 := D9.(imm := None, v := BEFORE, nextFile := 8)
  const D11 := D10.(job := Some(Job(CHOSEN, BEFORE, 4, {})))
  const D12 := D11.(job := Some(Job(CHOSEN, BEFORE, 4, {8})), nextFile := 9)
  const D13 := D12.(v := AFTER, job := None)

  const STEPS := [Write([COVERED]), TakeSnapshot, Write([OLD_ONE, TOMBSTONE]), Switch, Flush(2, WHOLE),
                  Manual(ALONE, WHOLE.entries, [LOWER, BOUNDARY]), ReleaseSnapshot(1), Write([NEW_ONE]), Switch,
                  Flush(2, UPPER), Begin(CHOSEN), Open, Finish(MERGED_INPUT, [OUTPUT])]

  const STATES := [D0, D1, D2, D3, D4, D5, D6, D7, D8, D9, D10, D11, D12, D13]

  // ---------------------------------------------------------------------------------------------------------
  // The steps
  // ---------------------------------------------------------------------------------------------------------

  lemma Writes()
    ensures Next(D0, Write([COVERED]), D1) && Next(D2, Write([OLD_ONE, TOMBSTONE]), D3)
      && Next(D7, Write([NEW_ONE]), D8)
  {
  }

  lemma SnapshotsAndSwitches()
    ensures Next(D1, TakeSnapshot, D2) && Next(D6, ReleaseSnapshot(1), D7)
    ensures Next(D3, Switch, D4) && Next(D8, Switch, D9)
  {
    hide Sorted;
    assert D1.snapshots + multiset{1} == multiset{1} && D6.snapshots - multiset{1} == multiset{};
  }

  lemma Opened()
    ensures Next(D11, Open, D12)
  {
    hide Sorted;
    assert {} + {8} == {8};
  }

  lemma Flushes()
    ensures Next(D4, Flush(2, WHOLE), D5) && Next(D9, Flush(2, UPPER), D10)
  {
  }

  lemma AlonePicked()
    ensures Picked(FLUSHED, ALONE)
  {
    assert WHOLE in ALONE.in0;
  }

  lemma AloneMerged()
    ensures Merged(ALONE, WHOLE.entries)
  {
    assert WHOLE in ALONE.in0;
    forall e ensures e in WHOLE.entries <==> InFiles(ALONE.in0, e) || InFiles(ALONE.in1, e) {}
  }

  lemma AloneKept()
    ensures Kept(WHOLE.entries, 3, 1, FLUSHED, 2) == WHOLE.entries
  {
    hide Sorted, BaseLevelFor;
    assert Kept(WHOLE.entries, 0, 1, FLUSHED, 2) == [];
    assert Kept(WHOLE.entries, 1, 1, FLUSHED, 2) == [OLD_ONE];
    assert Kept(WHOLE.entries, 2, 1, FLUSHED, 2) == [OLD_ONE, TOMBSTONE];
  }

  lemma AloneProduces()
    ensures Produced(ALONE, WHOLE.entries, 1, FLUSHED, [LOWER, BOUNDARY])
  {
    hide Sorted, Merged, Kept;
    AloneMerged();
    AloneKept();
    var outputs := [LOWER, BOUNDARY];
    assert outputs[..1] == [LOWER] && [LOWER][..0] == [];
    assert Flatten([LOWER]) == LOWER.entries;
  }

  lemma AloneReplaces()
    ensures Replaced(FLUSHED, ALONE, [LOWER, BOUNDARY], CUT)
  {
  }

  lemma CutWhileHeld()
    ensures Next(D5, Manual(ALONE, WHOLE.entries, [LOWER, BOUNDARY]), D6)
  {
    hide Sorted, Picked, Produced, Replaced;
    AlonePicked();
    AloneProduces();
    AloneReplaces();
    assert OldestSnapshot(D5, 1);
    assert InstallStep(D5, ALONE, FLUSHED, 1, WHOLE.entries, [LOWER, BOUNDARY], D6);
  }

  lemma ChosenIsPicked()
    ensures Picked(BEFORE, CHOSEN) && Connected(CHOSEN.in0 + CHOSEN.in1)
  {
    assert UPPER in CHOSEN.in0;
    assert CHOSEN.in0 + CHOSEN.in1 == [UPPER, LOWER];
    assert UPPER in [UPPER, LOWER] && LOWER in [UPPER, LOWER];
  }

  lemma ChosenProduces()
    ensures Produced(CHOSEN, MERGED_INPUT, 4, BEFORE, [OUTPUT])
  {
    assert UPPER in CHOSEN.in0 && LOWER in CHOSEN.in1;
    assert Kept(MERGED_INPUT, 0, 4, BEFORE, 2) == [];
    assert Kept(MERGED_INPUT, 1, 4, BEFORE, 2) == [NEW_ONE];
    assert Hidden(MERGED_INPUT, 1, 4) && Kept(MERGED_INPUT, 2, 4, BEFORE, 2) == [NEW_ONE];
    assert Obsolete(MERGED_INPUT, 2, 4, BEFORE, 2) && Kept(MERGED_INPUT, 3, 4, BEFORE, 2) == [NEW_ONE];
    var outputs := [OUTPUT];
    assert outputs[..0] == [];
    assert Flatten(outputs) == Flatten([]) + OUTPUT.entries;
    forall e ensures e in MERGED_INPUT <==> InFiles(CHOSEN.in0, e) || InFiles(CHOSEN.in1, e) {}
  }

  lemma ChosenReplaces()
    ensures Replaced(BEFORE, CHOSEN, [OUTPUT], AFTER)
  {
  }

  lemma Compacted()
    ensures Next(D10, Begin(CHOSEN), D11) && Next(D12, Finish(MERGED_INPUT, [OUTPUT]), D13)
  {
    hide Sorted, Picked, Connected, Produced, Replaced;
    ChosenIsPicked();
    ChosenProduces();
    ChosenReplaces();
  }

  lemma IsRun()
    ensures Run(STATES, STEPS)
  {
    hide Next;
    Writes();
    SnapshotsAndSwitches();
    Opened();
    Flushes();
    CutWhileHeld();
    Compacted();
  }

  // ---------------------------------------------------------------------------------------------------------
  // What comes of it
  // ---------------------------------------------------------------------------------------------------------

  /** The code has no other choice of files in this version, whatever it may spend on growing the inputs. */
  method OnlyChoice(expandLimit: nat) returns (c: Inputs)
    ensures c.level == CHOSEN.level && c.smallest == CHOSEN.smallest && c.largest == CHOSEN.largest
    ensures (forall f :: f in c.in0 <==> f in CHOSEN.in0) && (forall f :: f in c.in1 <==> f in CHOSEN.in1)
  {
    assert UPPER in BEFORE[2] && LOWER in BEFORE[3] && BOUNDARY in BEFORE[3];
    c := PickCompaction(BEFORE, 2, UPPER, expandLimit);
  }

  lemma BeforeEntries(y: Entry)
    requires InVersion(BEFORE, y)
    ensures y == NEW_ONE || y == OLD_ONE || y == TOMBSTONE || y == COVERED
  {
    var l :| 0 <= l < NUM_LEVELS && InFiles(BEFORE[l], y);
    var f :| f in BEFORE[l] && y in f.entries;
  }

  lemma CoveredResurfaces()
    ensures Resurfaces(BEFORE, CHOSEN, MemEntries(D12), MERGED_INPUT, 4, BEFORE, 4, 2, COVERED)
  {
    hide Sorted, InVersion;
    assert BOUNDARY in BEFORE[3] && COVERED in BOUNDARY.entries;
    assert Obsolete(MERGED_INPUT, 2, 4, BEFORE, 2);
    forall y | InVersion(BEFORE, y) ensures y.u == 10 ==> y.seqno <= 3 { BeforeEntries(y); }
  }

  lemma SeenAgain()
    requires DbInv(D12) && Next(D12, Finish(MERGED_INPUT, [OUTPUT]), D13)
    ensures View(Contents(D12), 10, 4) == None && View(Contents(D13), 10, 4) == Some("covered")
  {
    hide Sorted, VersionInv, JobOk, Produced, Replaced, Resurfaces, InVersion, MemInv, View, NumbersBelow, Reserved;
    MemAbove(D12);
    CoveredResurfaces();
    ResurfacingChangesView(BEFORE, CHOSEN, MemEntries(D12), MERGED_INPUT, 4, BEFORE, [OUTPUT], AFTER, 4, 2, COVERED);
    assert MemEntries(D13) == MemEntries(D12);
  }

  /** A deleted key has a value again for a reader of the newest state, although nothing was written to it. */
  lemma CompactionCanResurrect()
    ensures Run(STATES, STEPS) && STATES[12] == D12 && STATES[13] == D13 && D12.lastSeq == D13.lastSeq == 4
    ensures View(Contents(D12), 10, 4) == None && View(Contents(D13), 10, 4) == Some("covered")
  {
    hide DbInv, View, Contents;
    IsRun();
    assert DbInv(STATES[12]) by { hide Run; RunKeepsInv(STATES, STEPS, 12); }
    assert Next(D12, Finish(MERGED_INPUT, [OUTPUT]), D13) by { Compacted(); }
    hide Next, Run;
    SeenAgain();
  }
}
