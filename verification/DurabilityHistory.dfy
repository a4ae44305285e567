/** What recovery brings back, over whole runs, and what it shows of the history of logged writes. */
module DurabilityHistory {
  import opened InternalKeys
  import opened Views
  import opened Lsm
  import opened Picking
  import opened CompactionProof
  import opened LsmRuns
  import opened Durability
  import opened DurabilityProof
  import opened DurabilityRuns

  // ---------------------------------------------------------------------------------------------------------
  // What recovery brings back changes only by logging a write and by committing a compaction
  // ---------------------------------------------------------------------------------------------------------

  lemma DiskDecides(s: State, s': State)
    requires s'.disk.manifest == s.disk.manifest && s'.disk.logs == s.disk.logs && s'.bound == s.bound
    ensures Durable(s'.disk, s'.bound) == Durable(s.disk, s.bound)
  {
  }

  lemma SameContents(s: State, e: Engine, s': State, e': Engine)
    requires EngineInv(s, e) && EngineInv(s', e')
      && Contents(e'.db) + Of(e'.inflight) == Contents(e.db) + Of(e.inflight)
    ensures Durable(s'.disk, s'.bound) == Durable(s.disk, s.bound)
  {
    hide EngineInv, Contents, Durable;
    DurableIsContents(s, e);
    DurableIsContents(s', e');
  }

  lemma UpKeepsDurable(s: State, e: Engine, step: Durability.Step, s': State)
    requires EngineInv(s, e) && UpStep(s, e, step, s') && !step.Append? && !step.CommitCompaction?
    ensures Durable(s'.disk, s'.bound) == Durable(s.disk, s.bound)
  {
    hide Durable, Contents, EngineInv;
    assert s.up == Some(e) by { IsUp(s, e); }
    match step
    case SwitchMemTable => CommonKeeps(s, e, step, s');
    case CommitFlush(level, f) => CommonKeeps(s, e, step, s');
    case CommitEmptyFlush => CommonKeeps(s, e, step, s');
    case CommitMove(c) => CommonKeeps(s, e, step, s');
    case DeleteLog(n) => CommonKeeps(s, e, step, s');
    case _ =>
      hide LsmRuns.Next, Names, Referenced, Stored, Building;
      DiskDecides(s, s');
  }

  lemma IsUp(s: State, e: Engine)
    requires EngineInv(s, e)
    ensures s.up == Some(e) && DbInv(e.db)
  {
    hide DbInv, LogInv, HistoryInv, ManifestInv, FilesInv;
  }

  /** The steps that change the manifest or the logs, but not what they hold together. */
  lemma CommonKeeps(s: State, e: Engine, step: Durability.Step, s': State)
    requires EngineInv(s, e) && UpStep(s, e, step, s')
    requires step.SwitchMemTable? || step.CommitFlush? || step.CommitEmptyFlush? || step.CommitMove? || step.DeleteLog?
    ensures Durable(s'.disk, s'.bound) == Durable(s.disk, s.bound)
  {
    hide Durable, Contents, EngineInv, DbInv, Stored, SwitchStep, FlushStep, MoveStep;
    IsUp(s, e);
    UpStepKeeps(s, step, s');
    var e' := s'.up.value;
    match step {
      case SwitchMemTable => SwitchKeepsInv(e.db, e'.db);
      case CommitFlush(level, f) => FlushStepKeepsInv(e.db, level, f, e'.db);
      case CommitEmptyFlush => FlushEmptyKeepsInv(e.db, e'.db);
      case CommitMove(c) => MoveKeepsInv(e.db, c, e'.db);
      case DeleteLog(n) =>
    }
    SameContents(s, e, s', e');
  }

  lemma DownKeepsDurable(s: State, step: Durability.Step, s': State)
    requires StateInv(s) && s.up.None? && DownStep(s, step, s')
    ensures Durable(s'.disk, s'.bound) == Durable(s.disk, s.bound)
  {
    hide Recoverable, ReopenStep, EngineInv, Contents;
    match step
    case RecoveryTable(n, entries) => DiskDecides(s, s');
    case RecoveryLog(n) => LoggedStays(s, n, s');
    case Reopen(files, cuts, n) =>
      hide DiskInv, Durable;
      Reopened(s, files, cuts, n, s');
      ReopenKeeps(s, files, cuts, n, s');
      ReopenedDb(s, files, cuts, n, s');
      ReopenedIdle(s, step, s');
      DurableIsContents(s', s'.up.value);
  }

  /** No step but logging a write and committing a compaction changes what recovery brings back. */
  lemma StepKeepsDurable(s: State, step: Durability.Step, s': State)
    requires StateInv(s) && Durability.Next(s, step, s') && !step.Append? && !step.CommitCompaction?
    ensures Durable(s'.disk, s'.bound) == Durable(s.disk, s.bound)
  {
    hide EngineInv, DiskInv, Recoverable, UpStep, DownStep, Durable;
    if s.up.Some? {
      UpKeepsDurable(s, s.up.value, step, s');
    } else {
      DownKeepsDurable(s, step, s');
    }
  }

  /** At every moment of every run of a running engine, the manifest's tables and the logs hold exactly what memory
      holds, with the write in flight. */
  lemma DiskIsMemory(states: seq<State>, steps: seq<Durability.Step>, k: nat)
    requires DurableRun(states, steps) && k < |states| && states[k].up.Some?
    ensures var e := states[k].up.value;
      Durable(states[k].disk, states[k].bound) == Contents(e.db) + Of(e.inflight)
  {
    hide EngineInv, DiskInv, Recoverable, Durable, Contents, DurableRun;
    DurableRunInv(states, steps, k);
    DurableIsContents(states[k], states[k].up.value);
  }

  /** `q` is at or above every sequence number on disk before the step if it is afterwards. */
  lemma DownKeepsTop(s: State, step: Durability.Step, s': State, q: nat)
    requires StateInv(s) && s.up.None? && DownStep(s, step, s')
    requires if s'.up.Some? then s'.up.value.db.lastSeq <= q else TopOf(s'.disk, s'.bound, q)
    ensures TopOf(s.disk, s.bound, q)
  {
    hide Recoverable, EngineInv, Replay, OnDisk, CutInto, RecoveredNumbers, Stored, Changed;
    match step
    case RecoveryTable(n, entries) =>
    case RecoveryLog(n) => LoggedStays(s, n, s');
    case Reopen(files, cuts, n) => hide DiskInv;
  }

  lemma {:induction false} DownStays(states: seq<State>, steps: seq<Durability.Step>, i: nat, j: nat, q: nat)
    requires DurableRun(states, steps) && i <= j < |states| && forall k :: i <= k <= j ==> states[k].up.None?
    requires TopOf(states[j].disk, states[j].bound, q)
    ensures Durable(states[j].disk, states[j].bound) == Durable(states[i].disk, states[i].bound)
    ensures TopOf(states[i].disk, states[i].bound, q)
    decreases j - i
  {
    hide StateInv, DownStep, UpStep, Durable, TopOf;
    if i < j {
      DurableRunInv(states, steps, j - 1);
      assert Durability.Next(states[j - 1], steps[j - 1], states[j]);
      DownKeepsDurable(states[j - 1], steps[j - 1], states[j]);
      DownKeepsTop(states[j - 1], steps[j - 1], states[j], q);
      DownStays(states, steps, i, j - 1, q);
    }
  }

  lemma OnlyCrash(s: State, step: Durability.Step, s': State)
    requires s.up.Some? && Durability.Next(s, step, s') && s'.up.None?
    ensures step.Crash? && s' == s.(up := None)
  {
    hide UpStep;
    if !step.Crash? {
      StaysUp(s, s.up.value, step, s');
    } else {
      Crashed(s, s');
    }
  }

  lemma TopCovers(s: State, e: Engine, q: nat)
    requires EngineInv(s, e) && TopOf(s.disk, s.bound, q)
    ensures e.db.lastSeq <= q
  {
    hide DbInv, LogInv, HistoryInv, FilesInv, Replay;
  }

  /** However often recovery itself is interrupted, the engine that comes up again has the contents of the one that
      crashed and the write it had in flight, and goes on from its sequence number. */
  lemma RecoveryRestoresMemory(states: seq<State>, steps: seq<Durability.Step>, i: nat, j: nat)
    requires DurableRun(states, steps) && i + 1 < j < |states| && states[i].up.Some? && states[j].up.Some?
    requires forall k :: i < k < j ==> states[k].up.None?
    ensures var e, e' := states[i].up.value, states[j].up.value;
      Contents(e'.db) == Contents(e.db) + Of(e.inflight) && e'.inflight == [] && e.db.lastSeq <= e'.db.lastSeq
  {
    hide EngineInv, DiskInv, Recoverable, DownStep, UpStep, Durable, Contents, TopOf;
    var s, s' := states[j - 1], states[j];
    var q := s'.up.value.db.lastSeq;
    DurableRunInv(states, steps, i);
    DurableRunInv(states, steps, j - 1);
    assert Durability.Next(states[i], steps[i], states[i + 1]) && Durability.Next(s, steps[j - 1], s');
    OnlyCrash(states[i], steps[i], states[i + 1]);
    DownKeepsTop(s, steps[j - 1], s', q);
    DownKeepsDurable(s, steps[j - 1], s');
    DownStays(states, steps, i + 1, j - 1, q);
    TopCovers(states[i], states[i].up.value, q);
    DiskIsMemory(states, steps, i);
    DiskIsMemory(states, steps, j);
    ReopenedIdle(s, steps[j - 1], s');
    assert Contents(s'.up.value.db) + Of([]) == Contents(s'.up.value.db);
  }

  // ---------------------------------------------------------------------------------------------------------
  // The history of logged writes
  // ---------------------------------------------------------------------------------------------------------

  /** Sequence numbers some reader may use now or later. */
  ghost predicate Covered(lastSeq: nat, snapshots: multiset<SequenceNumber>, q: nat) {
    q >= lastSeq || exists t :: t in snapshots && t <= q
  }

  /** Sequence numbers some reader may use now, or after recovery. */
  ghost predicate Usable(s: State, q: nat) {
    if s.up.Some? then Covered(s.up.value.db.lastSeq, s.up.value.db.snapshots, q) else TopOf(s.disk, s.bound, q)
  }

  /** Tables and logs show the key as the full history of logged writes does. */
  ghost predicate Agrees(s: State, u: UserKey, q: nat) {
    View(Durable(s.disk, s.bound), u, q) == View(s.history, u, q)
  }

  /** Where they do not, they show a value of a key that the history has no value of. */
  ghost predicate AgreesOrResurrected(s: State, u: UserKey, q: nat) {
    Agrees(s, u, q) || (View(Durable(s.disk, s.bound), u, q) != None && View(s.history, u, q) == None)
  }

  /** The step commits a compaction that brings back a value of `u` which a dropped deletion covered at `q`. */
  ghost predicate Resurrects(s: State, step: Durability.Step, u: UserKey, q: nat) {
    && s.up.Some? && step.CommitCompaction? && s.up.value.db.job.Some?
    && var e, j := s.up.value, s.up.value.db.job.value;
    && j.c.level + 1 < NUM_LEVELS
    && ComesBack(e.db.v, j.c, MemEntries(e.db) + Of(e.inflight), step.input, j.snap, j.base, u, q)
  }

  /** The step logs a write of `u` that a reader at `q` sees. */
  ghost predicate Writes(step: Durability.Step, u: UserKey, q: nat) {
    step.Append? && exists b :: b in step.batch && Visible(b, u, q)
  }

  /** Two sets look the same where newer entries are added to both. */
  lemma Settled(a: iset<Entry>, h: iset<Entry>, batch: iset<Entry>, u: UserKey, q: nat, b: Entry)
    requires UniqueSeqs(a + batch) && UniqueSeqs(h + batch) && b in batch && Visible(b, u, q)
    requires forall b, x :: b in batch && (x in a || x in h) ==> x.seqno < b.seqno
    ensures View(a + batch, u, q) == View(h + batch, u, q)
  {
    NewestExists(batch, u, q, b);
    var e :| IsNewest(batch, u, q, e);
    ViewIsNewest(a + batch, u, q, e);
    ViewIsNewest(h + batch, u, q, e);
  }

  lemma AppendViews(s: State, e: Engine, batch: Batch, s': State)
    requires EngineInv(s, e) && AppendStep(s, e, batch, s')
    ensures Durable(s'.disk, s'.bound) == Durable(s.disk, s.bound) + Of(batch) && s'.history == s.history + Of(batch)
    ensures UniqueSeqs(Durable(s.disk, s.bound)) && UniqueSeqs(Durable(s'.disk, s'.bound))
    ensures UniqueSeqs(s.history) && UniqueSeqs(s'.history)
    ensures forall b, x :: b in Of(batch) && (x in Durable(s.disk, s.bound) || x in s.history) ==> x.seqno < b.seqno
  {
    hide VersionInv, JobInv, FilesInv, ManifestInv, NumbersBelow, LogInv, UniqueSeqs, Durable, InVersion;
    AppendKeeps(s, e, batch, s');
    DurableIsContents(s, e);
    DurableIsContents(s', s'.up.value);
    assert Contents(e.db) + Of([]) == Contents(e.db);
    ContentsUnique(e.db);
    BatchUnique(Contents(e.db), batch, e.db.lastSeq);
    BatchUnique(s.history, batch, e.db.lastSeq);
  }

  /** A logged write that a reader sees settles the key; another leaves it as it was. */
  lemma AppendAgrees(s: State, e: Engine, batch: Batch, s': State, u: UserKey, q: nat)
    requires EngineInv(s, e) && AppendStep(s, e, batch, s') && AgreesOrResurrected(s, u, q)
    ensures Agrees(s', u, q) <==> Writes(Append(batch), u, q) || Agrees(s, u, q)
    ensures AgreesOrResurrected(s', u, q)
  {
    hide EngineInv, AppendStep, Durable, UniqueSeqs, View;
    AppendViews(s, e, batch, s');
    if Writes(Append(batch), u, q) {
      var b :| b in batch && Visible(b, u, q);
      Settled(Durable(s.disk, s.bound), s.history, Of(batch), u, q, b);
    } else {
      SameVisible(Durable(s.disk, s.bound), Durable(s'.disk, s'.bound), u, q);
      SameVisible(s.history, s'.history, u, q);
    }
  }

  lemma InflightAbove(db: Db, inflight: Batch)
    requires DbInv(db) && forall i :: 0 <= i < |inflight| ==> inflight[i].seqno == db.lastSeq + 1 + i
    ensures Above(MemEntries(db) + Of(inflight), db.v)
  {
    hide VersionInv, JobInv, Sorted, InVersion, NumbersBelow, UniqueSeqs;
    ContentsUnique(db);
    BatchUnique(Contents(db), inflight, db.lastSeq);
    assert MemEntries(db) + Of(inflight) + Entries(db.v) == Contents(db) + Of(inflight);
    hide MemInv;
    assert Above(MemEntries(db), db.v) by { MemAbove(db); }
    forall x | InVersion(db.v, x) ensures x in Contents(db) {}
  }

  lemma FinishViews(db: Db, inflight: Batch, input: seq<Entry>, outputs: seq<File>, db': Db, u: UserKey, q: nat)
    requires DbInv(db) && LsmRuns.Next(db, Finish(input, outputs), db')
    requires db.job.value.snap <= q && db.job.value.c.level + 1 < NUM_LEVELS
    requires forall i :: 0 <= i < |inflight| ==> inflight[i].seqno == db.lastSeq + 1 + i
    ensures var j, before, after := db.job.value, View(Contents(db) + Of(inflight), u, q),
      View(Contents(db') + Of(inflight), u, q);
      var back := ComesBack(db.v, j.c, MemEntries(db) + Of(inflight), input, j.snap, j.base, u, q);
      (before == after <==> !back) && (back ==> before == None && after != None)
  {
    hide VersionInv, MemInv, Sorted, InVersion, NumbersBelow, Above, Produced, Replaced, View, JobOk, Connected,
         ComesBack;
    var j := db.job.value;
    var extra := MemEntries(db) + Of(inflight);
    assert Above(extra, db.v) by { InflightAbove(db, inflight); }
    CompactionPreservesViews(db.v, j.c, extra, input, j.snap, j.base, outputs, db'.v, u, q);
    assert MemEntries(db') == MemEntries(db);
    assert extra + Entries(db.v) == Contents(db) + Of(inflight);
    assert extra + Entries(db'.v) == Contents(db') + Of(inflight);
  }

  lemma CompactionAgrees(s: State, e: Engine, input: seq<Entry>, outputs: seq<File>, s': State, u: UserKey, q: nat)
    requires EngineInv(s, e) && CommitCompactionStep(s, e, input, outputs, s') && Usable(s, q)
    requires AgreesOrResurrected(s, u, q)
    ensures Agrees(s', u, q) <==> Agrees(s, u, q) && !Resurrects(s, CommitCompaction(input, outputs), u, q)
    ensures AgreesOrResurrected(s', u, q)
  {
    hide VersionInv, MemInv, Sorted, NumbersBelow, View, JobOk, Connected, ComesBack, LsmRuns.Next, Contents, FilesInv;
    hide ManifestInv, Reserved, Replay, LogOf, Durable, Stored, Replaced, UniqueSeqs;
    var db' := s'.up.value.db;
    HasJob(e.db, input, outputs, db');
    CommitCompactionKeeps(s, e, input, outputs, s');
    DurableIsContents(s, e);
    DurableIsContents(s', s'.up.value);
    assert e.db.job.value.snap <= q;
    FinishViews(e.db, e.inflight, input, outputs, db', u, q);
  }

  lemma SameReaders(db: Db, step: LsmRuns.Step, db': Db)
    requires LsmRuns.Next(db, step, db') && !step.Write? && !step.TakeSnapshot? && !step.ReleaseSnapshot?
    ensures db'.lastSeq == db.lastSeq && db'.snapshots == db.snapshots
  {
    hide FlushLevel, AddedFile, Picked, Connected, Replaced, Sorted, Produced, OldestSnapshot;
  }

  lemma FewerReaders(db: Db, step: LsmRuns.Step, db': Db, q: nat)
    requires LsmRuns.Next(db, step, db') && (step.Write? || step.TakeSnapshot? || step.ReleaseSnapshot?)
    requires Covered(db'.lastSeq, db'.snapshots, q)
    ensures Covered(db.lastSeq, db.snapshots, q)
  {
    hide Sorted;
  }

  lemma UpUsable(s: State, e: Engine, step: Durability.Step, s': State)
    requires s.up == Some(e) && UpStep(s, e, step, s') && s'.up.Some?
    ensures forall q: nat :: Usable(s', q) ==> Usable(s, q)
    ensures !step.Append? ==> s'.history == s.history
  {
    hide LsmRuns.Next, Names, Referenced, Stored, Building, Covered;
    var db, db' := e.db, s'.up.value.db;
    match step
    case Insert =>
      forall q: nat | Covered(db'.lastSeq, db'.snapshots, q) ensures Covered(db.lastSeq, db.snapshots, q) {
        FewerReaders(db, Write(e.inflight), db', q);
      }
    case Snapshot =>
      forall q: nat | Covered(db'.lastSeq, db'.snapshots, q) ensures Covered(db.lastSeq, db.snapshots, q) {
        FewerReaders(db, TakeSnapshot, db', q);
      }
    case Release(n) =>
      forall q: nat | Covered(db'.lastSeq, db'.snapshots, q) ensures Covered(db.lastSeq, db.snapshots, q) {
        FewerReaders(db, ReleaseSnapshot(n), db', q);
      }
    case SwitchMemTable => SameReaders(db, Switch, db');
    case CommitFlush(level, f) => SameReaders(db, Flush(level, f), db');
    case CommitEmptyFlush => SameReaders(db, FlushEmpty, db');
    case BeginCompaction(c) => SameReaders(db, Begin(c), db');
    case OpenOutput => SameReaders(db, Open, db');
    case CommitCompaction(input, outputs) => SameReaders(db, Finish(input, outputs), db');
    case CommitMove(c) => SameReaders(db, Move(c), db');
    case _ =>
  }

  /** Readers use no sequence number that they could not use before the step. */
  lemma UsableBefore(s: State, step: Durability.Step, s': State, q: nat)
    requires StateInv(s) && Durability.Next(s, step, s') && Usable(s', q)
    ensures Usable(s, q) && (!step.Append? ==> s'.history == s.history)
  {
    hide EngineInv, DiskInv, Recoverable, TopOf;
    if s.up.Some? && s'.up.None? {
      hide UpStep;
      OnlyCrash(s, step, s');
      TopCovers(s, s.up.value, q);
    } else if s.up.Some? {
      hide UpStep, Covered;
      UpUsable(s, s.up.value, step, s');
    } else {
      hide CutInto, RecoveredNumbers, Stored, Changed, OnDisk;
      DownKeepsTop(s, step, s', q);
    }
  }

  lemma DownLogsNothing(s: State, step: Durability.Step, s': State)
    requires s.up.None? && Durability.Next(s, step, s')
    ensures !step.Append? && !step.CommitCompaction?
  {
    hide ReopenStep;
  }

  /** One step: the key is shown right afterwards if the step writes it, or if it was and no value of it comes back. */
  lemma StepAgrees(s: State, step: Durability.Step, s': State, u: UserKey, q: nat)
    requires StateInv(s) && Durability.Next(s, step, s') && Usable(s', q) && AgreesOrResurrected(s, u, q)
    ensures Agrees(s', u, q) <==> Writes(step, u, q) || (Agrees(s, u, q) && !Resurrects(s, step, u, q))
    ensures AgreesOrResurrected(s', u, q)
  {
    hide EngineInv, DiskInv, Recoverable, DownStep, AppendStep, CommitCompactionStep, ComesBack, View, Durable, Usable;
    UsableBefore(s, step, s', q);
    if s.up.None? {
      DownLogsNothing(s, step, s');
    }
    match step
    case Append(batch) => AppendAgrees(s, s.up.value, batch, s', u, q);
    case CommitCompaction(input, outputs) => CompactionAgrees(s, s.up.value, input, outputs, s', u, q);
    case _ =>
      hide UpStep;
      StepKeepsDurable(s, step, s');
  }

  /** Every compaction before `j` that brought a value of the key back was followed by a write of the key. */
  ghost predicate Mended(states: seq<State>, steps: seq<Durability.Step>, j: nat, u: UserKey, q: nat)
    requires j <= |steps| <= |states|
  {
    forall k :: 0 <= k < j && Resurrects(states[k], steps[k], u, q) ==> exists m :: k < m < j && Writes(steps[m], u, q)
  }

  lemma MendedStep(states: seq<State>, steps: seq<Durability.Step>, j: nat, u: UserKey, q: nat)
    requires j < |steps| <= |states|
    ensures Mended(states, steps, j + 1, u, q) <==>
      Writes(steps[j], u, q) || (Mended(states, steps, j, u, q) && !Resurrects(states[j], steps[j], u, q))
  {
    hide ComesBack, Visible;
    if Mended(states, steps, j + 1, u, q) && !Writes(steps[j], u, q) {
      forall k | 0 <= k < j && Resurrects(states[k], steps[k], u, q)
        ensures exists m :: k < m < j && Writes(steps[m], u, q)
      {
        var m :| k < m < j + 1 && Writes(steps[m], u, q);
      }
    }
  }

  lemma {:induction false} RunAgrees(states: seq<State>, steps: seq<Durability.Step>, j: nat, u: UserKey, q: nat)
    requires DurableRun(states, steps) && j < |states| && Usable(states[j], q)
    ensures Agrees(states[j], u, q) <==> Mended(states, steps, j, u, q)
    ensures AgreesOrResurrected(states[j], u, q)
  {
    hide StateInv, Durability.Next, Agrees, AgreesOrResurrected, Resurrects, Writes, Usable, Mended;
    if j == 0 {
      CreatedAgrees(states, steps, u, q);
    } else {
      DurableRunInv(states, steps, j - 1);
      UsableBefore(states[j - 1], steps[j - 1], states[j], q);
      RunAgrees(states, steps, j - 1, u, q);
      StepAgrees(states[j - 1], steps[j - 1], states[j], u, q);
      MendedStep(states, steps, j - 1, u, q);
    }
  }

  lemma CreatedAgrees(states: seq<State>, steps: seq<Durability.Step>, u: UserKey, q: nat)
    requires DurableRun(states, steps)
    ensures Agrees(states[0], u, q) && AgreesOrResurrected(states[0], u, q) && Mended(states, steps, 0, u, q)
  {
    hide VersionInv, View, Durability.Next;
    var s := states[0];
    EmptyVersionInv(s.disk.manifest.v);
    assert Logged(s.disk, s.bound) == [];
    assert Durable(s.disk, s.bound) == iset{};
  }

  lemma UsableAtTop(s: State, q: nat)
    requires StateInv(s) && TopOf(s.disk, s.bound, q)
    ensures Usable(s, q)
  {
    hide EngineInv, DiskInv, TopOf;
    if s.up.Some? {
      TopCovers(s, s.up.value, q);
    }
  }

  /**
   * At every moment `j` of every run, a crash included, the history has every write acknowledged before, and the tables
   * of the manifest and the logs from its log number on show a key as the full history of logged writes does exactly
   * when every compaction that brought a covered value of the key back was followed by a logged write of the key.
   * A value that the history shows is never lost.
   */
  lemma AcknowledgedWritesSurvive(states: seq<State>, steps: seq<Durability.Step>, i: nat, j: nat, u: UserKey, q: nat)
    requires DurableRun(states, steps) && i <= j < |states| && TopOf(states[j].disk, states[j].bound, q)
    ensures states[i].acked <= states[j].history && forall x :: x in states[j].history ==> x.seqno <= q
    ensures View(Durable(states[j].disk, states[j].bound), u, q) == View(states[j].history, u, q)
            <==> Mended(states, steps, j, u, q)
    ensures View(states[j].history, u, q) != None ==>
      View(Durable(states[j].disk, states[j].bound), u, q) == View(states[j].history, u, q)
  {
    hide DiskInv, EngineInv, View, Durable, TopOf, Usable, Durability.Next, Mended;
    DurableRunInv(states, steps, j);
    AckedStays(states, steps, i, j);
    UsableAtTop(states[j], q);
    RunAgrees(states, steps, j, u, q);
  }

  /** The first read after a recovery sees the newest acknowledged write of its key, or one logged after it, under the
      same condition. */
  lemma RecoveredReads(states: seq<State>, steps: seq<Durability.Step>, i: nat, j: nat, u: UserKey)
    requires DurableRun(states, steps) && i <= j < |steps| && states[j].up.None? && states[j + 1].up.Some?
    ensures states[i].acked <= states[j + 1].history
    ensures var db, history := states[j + 1].up.value.db, states[j + 1].history;
      && (forall x :: x in history ==> x.seqno <= db.lastSeq)
      && (View(Contents(db), u, db.lastSeq) == View(history, u, db.lastSeq) <==>
          Mended(states, steps, j + 1, u, db.lastSeq))
      && (View(history, u, db.lastSeq) != None ==> View(Contents(db), u, db.lastSeq) == View(history, u, db.lastSeq))
  {
    hide DiskInv, EngineInv, View, Contents, Durable, UpStep, DownStep, TopOf, Mended;
    DurableRunInv(states, steps, j + 1);
    AckedStays(states, steps, i, j + 1);
    var s, s', step := states[j], states[j + 1], steps[j];
    assert Durability.Next(s, step, s');
    var db := s'.up.value.db;
    assert Usable(s', db.lastSeq);
    RunAgrees(states, steps, j + 1, u, db.lastSeq);
    ReopenedIdle(s, step, s');
    DiskIsMemory(states, steps, j + 1);
    assert Contents(db) + Of([]) == Contents(db);
    HistoryBelow(s', s'.up.value);
  }

  lemma HistoryBelow(s: State, e: Engine)
    requires EngineInv(s, e) && e.inflight == []
    ensures forall x :: x in s.history ==> x.seqno <= e.db.lastSeq
  {
    hide DbInv, LogInv, ManifestInv, FilesInv, UniqueSeqs;
  }
}
