/** Deleting files, crashing and recovering, and the theorems about whole runs. */
module DurabilityRuns {
  import opened InternalKeys
  import opened Views
  import opened Lsm
  import opened Picking
  import opened CompactionProof
  import opened LsmRuns
  import opened Durability
  import opened DurabilityProof

  // ---------------------------------------------------------------------------------------------------------
  // Tables under construction, and steps of the compaction loop
  // ---------------------------------------------------------------------------------------------------------

  lemma BelowNotNamed(w: Version, n: nat)
    requires NumbersBelow(w, n)
    ensures !Names(w, n)
  {
    hide Sorted;
  }

  lemma BeginFlushKeeps(s: State, e: Engine, s': State)
    requires EngineInv(s, e) && BeginFlushStep(s, e, s')
    ensures EngineInv(s', s'.up.value)
  {
    hide DbInv, LogInv, HistoryInv, ManifestInv, NumbersBelow, OnDisk, Names;
    forall w | Live(e.db.v, e.current, e.held, e.db.job, e.bg, w)
      ensures !Names(w, e.db.nextFile)
    {
      BelowNotNamed(w, e.db.nextFile);
    }
    var bg' := Flushing(e.db.nextFile);
    assert forall w :: Live(e.db.v, e.current, e.held, e.db.job, bg', w) ==>
      Live(e.db.v, e.current, e.held, e.db.job, e.bg, w);
  }

  lemma OtherTable(tables: map<nat, seq<Entry>>, w: Version, n: nat, entries: seq<Entry>)
    requires OnDisk(tables, w) && !Names(w, n)
    ensures OnDisk(tables[n := entries], w) && OnDisk(tables - {n}, w)
  {
    hide Sorted;
  }

  lemma WriteTableKeeps(s: State, e: Engine, n: nat, entries: seq<Entry>, s': State)
    requires EngineInv(s, e) && WriteTableStep(s, e, n, entries, s')
    ensures EngineInv(s', s'.up.value)
  {
    hide DbInv, LogInv, HistoryInv, ManifestInv, NumbersBelow, OnDisk, Names, Live;
    assert UnderConstruction(e.db.job, e.bg, n);
    forall w | Live(e.db.v, e.current, e.held, e.db.job, e.bg, w)
      ensures OnDisk(s'.disk.tables, w)
    {
      OtherTable(s.disk.tables, w, n, entries);
    }
  }

  lemma BeginCompactionKeeps(s: State, e: Engine, c: Inputs, s': State)
    requires EngineInv(s, e) && BeginCompactionStep(s, e, c, s')
    ensures EngineInv(s', s'.up.value)
  {
    hide LogInv, HistoryInv, ManifestInv, NumbersBelow, OnDisk, Names, VersionInv, MemInv, JobInv, Picked, Connected;
    var db' := s'.up.value.db;
    BeginKeepsInv(e.db, c, db');
    assert forall w :: Live(db'.v, e.current, e.held, db'.job, e.bg, w) ==>
      Live(e.db.v, e.current, e.held, e.db.job, e.bg, w);
  }

  lemma OpenOutputKeeps(s: State, e: Engine, s': State)
    requires EngineInv(s, e) && OpenOutputStep(s, e, s')
    ensures EngineInv(s', s'.up.value)
  {
    hide LogInv, HistoryInv, OnDisk, Names, VersionInv, MemInv, JobInv, NumbersBelow;
    var db' := s'.up.value.db;
    OpenKeepsInv(e.db, db');
    forall w | Live(db'.v, e.current, e.held, db'.job, e.bg, w)
      ensures OnDisk(s.disk.tables, w) && NumbersBelow(w, db'.nextFile) && !Names(w, e.db.nextFile)
    {
      assert Live(e.db.v, e.current, e.held, e.db.job, e.bg, w);
      BelowNotNamed(w, e.db.nextFile);
      BelowNext(w, e.db.nextFile);
    }
    assert forall w :: Live(db'.v, e.current, e.held, db'.job, e.bg, w) ==>
      Live(e.db.v, e.current, e.held, e.db.job, e.bg, w);
    assert forall n :: UnderConstruction(db'.job, e.bg, n) ==>
      n == e.db.nextFile || UnderConstruction(e.db.job, e.bg, n);
  }

  lemma BelowNext(w: Version, n: nat)
    requires NumbersBelow(w, n)
    ensures NumbersBelow(w, n + 1)
  {
    hide Sorted;
  }

  lemma InstallKeeps(s: State, e: Engine, s': State)
    requires EngineInv(s, e) && InstallVersionStep(s, e, s')
    ensures EngineInv(s', s'.up.value)
  {
    hide DbInv, LogInv, HistoryInv, ManifestInv, NumbersBelow, OnDisk, Names;
    var e' := s'.up.value;
    assert forall w :: Live(e.db.v, e'.current, e.held, e.db.job, e'.bg, w) ==>
      Live(e.db.v, e.current, e.held, e.db.job, e.bg, w);
  }

  lemma SnapshotKeeps(s: State, e: Engine, step: LsmRuns.Step, s': State)
    requires EngineInv(s, e) && (step.TakeSnapshot? || step.ReleaseSnapshot?)
    requires s'.up.Some? && LsmRuns.Next(e.db, step, s'.up.value.db) && s' == s.(up := Some(e.(db := s'.up.value.db)))
    ensures EngineInv(s', s'.up.value)
  {
    hide LogInv, ManifestInv, FilesInv, VersionInv, MemInv, JobInv, View, UniqueSeqs;
    var db' := s'.up.value.db;
    SnapshotKeepsInv(e.db, step, db');
    assert db'.lastSeq == e.db.lastSeq && db'.v == e.db.v && db'.job == e.db.job && db'.mem == e.db.mem
      && db'.imm == e.db.imm && db'.nextFile == e.db.nextFile;
  }

  lemma HeldKeeps(s: State, e: Engine, held: multiset<Version>, s': State)
    requires EngineInv(s, e) && s' == s.(up := Some(e.(held := held)))
    requires forall w :: w in held ==> w in e.held || w == e.current
    ensures EngineInv(s', s'.up.value)
  {
    hide DbInv, LogInv, HistoryInv, ManifestInv, NumbersBelow, OnDisk, Names;
    assert forall w :: Live(e.db.v, e.current, held, e.db.job, e.bg, w) ==>
      Live(e.db.v, e.current, e.held, e.db.job, e.bg, w);
  }

  lemma ReaderKeeps(s: State, e: Engine, step: Durability.Step, s': State)
    requires EngineInv(s, e) && ReaderStep(s, e, step, s')
    ensures s'.up.Some? && EngineInv(s', s'.up.value)
  {
    hide EngineInv, LsmRuns.Next;
    match step
    case Snapshot => SnapshotKeeps(s, e, TakeSnapshot, s');
    case Release(q) => SnapshotKeeps(s, e, ReleaseSnapshot(q), s');
    case Hold => HeldKeeps(s, e, e.held + multiset{e.current}, s');
    case Unhold(v) => HeldKeeps(s, e, e.held - multiset{v}, s');
  }

  // ---------------------------------------------------------------------------------------------------------
  // Deleting files
  // ---------------------------------------------------------------------------------------------------------

  lemma ListObsoleteKeeps(s: State, e: Engine, s': State)
    requires EngineInv(s, e) && ListObsoleteStep(s, e, s')
    ensures EngineInv(s', s'.up.value)
  {
    hide DbInv, LogInv, HistoryInv, ManifestInv, NumbersBelow, OnDisk, Names;
    var bg' := s'.up.value.bg;
    assert forall w :: Live(e.db.v, e.current, e.held, e.db.job, bg', w) ==>
      Live(e.db.v, e.current, e.held, e.db.job, e.bg, w);
    assert forall w :: Live(e.db.v, e.current, e.held, e.db.job, bg', w) ==> Referenced(e, w);
  }

  lemma DeleteTableKeeps(s: State, e: Engine, n: nat, s': State)
    requires EngineInv(s, e) && DeletingStep(s, e, DeleteTable(n), s')
    ensures EngineInv(s', s'.up.value)
  {
    hide DbInv, LogInv, HistoryInv, ManifestInv, NumbersBelow, OnDisk, Names, Live;
    forall w | Live(e.db.v, e.current, e.held, e.db.job, e.bg, w)
      ensures OnDisk(s'.disk.tables, w)
    {
      OtherTable(s.disk.tables, w, n, []);
    }
  }

  lemma DeleteLogKeeps(s: State, e: Engine, n: nat, s': State)
    requires EngineInv(s, e) && DeletingStep(s, e, DeleteLog(n), s')
    ensures EngineInv(s', s'.up.value)
  {
    hide DbInv, HistoryInv, ManifestInv, NumbersBelow, OnDisk, Names, Live, Replay;
    var logs, logs', from := s.disk.logs, s'.disk.logs, s.disk.manifest.logNumber;
    assert forall k :: from <= k ==> LogOf(logs', k) == LogOf(logs, k);
    ReplayFrame(logs, logs', from, e.logfile);
    ReplayFrame(logs, logs', from, s.bound);
  }

  lemma DeletedAllKeeps(s: State, e: Engine, s': State)
    requires EngineInv(s, e) && DeletingStep(s, e, DeletedAll, s')
    ensures EngineInv(s', s'.up.value)
  {
    hide DbInv, LogInv, HistoryInv, ManifestInv, NumbersBelow, OnDisk, Names;
    assert forall w :: Live(e.db.v, e.current, e.held, e.db.job, Idle, w) ==>
      Live(e.db.v, e.current, e.held, e.db.job, e.bg, w);
  }

  // ---------------------------------------------------------------------------------------------------------
  // Recovering
  // ---------------------------------------------------------------------------------------------------------

  lemma RecoveryTableKeeps(s: State, n: nat, entries: seq<Entry>, s': State)
    requires DiskInv(s.disk, s.bound) && Recoverable(s.disk, s.bound, s.history, s.acked)
    requires s.disk.manifest.nextFile < n && s' == s.(disk := s.disk.(tables := s.disk.tables[n := entries]))
    ensures DiskInv(s'.disk, s'.bound) && Recoverable(s'.disk, s'.bound, s'.history, s'.acked)
  {
    hide VersionInv, NumbersBelow, OnDisk, Names, View, InVersion, NewerThanVersion, Replay, Ascending;
    assert !Names(s.disk.manifest.v, n) by { AboveNotNamed(s.disk.manifest.v, s.disk.manifest.nextFile, n); }
    OtherTable(s.disk.tables, s.disk.manifest.v, n, entries);
    assert forall q: nat :: TopOf(s'.disk, s'.bound, q) <==> TopOf(s.disk, s.bound, q);
  }

  lemma AboveNotNamed(w: Version, next: nat, n: nat)
    requires NumbersBelow(w, next) && next <= n
    ensures !Names(w, n)
  {
    hide Sorted;
  }

  lemma RecoveryLogKeeps(s: State, n: nat, s': State)
    requires DiskInv(s.disk, s.bound) && Recoverable(s.disk, s.bound, s.history, s.acked)
    requires DownStep(s, RecoveryLog(n), s')
    ensures DiskInv(s'.disk, s'.bound) && Recoverable(s'.disk, s'.bound, s'.history, s'.acked)
  {
    hide VersionInv, NumbersBelow, OnDisk, View, InVersion, NewerThanVersion, Replay, Ascending;
    LoggedStays(s, n, s');
    assert forall q: nat :: TopOf(s'.disk, s'.bound, q) <==> TopOf(s.disk, s.bound, q);
  }

  lemma LoggedStays(s: State, n: nat, s': State)
    requires DiskInv(s.disk, s.bound) && DownStep(s, RecoveryLog(n), s')
    ensures Logged(s'.disk, s'.bound) == Logged(s.disk, s.bound)
  {
    hide VersionInv, NumbersBelow, OnDisk, InVersion, NewerThanVersion, Replay, Ascending;
    var from := s.disk.manifest.logNumber;
    assert LogOf(s'.disk.logs, n) == [];
    assert forall k :: LogOf(s'.disk.logs, k) == LogOf(s.disk.logs, k);
    ReplayFrame(s.disk.logs, s'.disk.logs, from, s.bound);
    ReplayBeyond(s'.disk.logs, from, s.bound, s'.bound);
  }

  lemma FileOfCut(es: Batch, files: seq<File>, cuts: seq<nat>, f: File, x: Entry)
    requires CutInto(es, files, cuts) && f in files && x in f.entries
    ensures x in es
  {
    hide Sorted;
    var i :| 0 <= i < |files| && files[i] == f;
    assert SameEntries(files[i], es, cuts[i], cuts[i + 1]);
  }

  lemma {:induction false} CutOf(cuts: seq<nat>, k: nat, n: nat) returns (i: nat)
    requires 0 < n < |cuts| && cuts[0] <= k < cuts[n]
    ensures i < n && cuts[i] <= k < cuts[i + 1]
  {
    if k < cuts[n - 1] {
      i := CutOf(cuts, k, n - 1);
    } else {
      i := n - 1;
    }
  }

  lemma CutHolds(es: Batch, files: seq<File>, cuts: seq<nat>, x: Entry) returns (f: File)
    requires CutInto(es, files, cuts) && x in es
    ensures f in files && x in f.entries
  {
    hide Sorted;
    var k :| 0 <= k < |es| && es[k] == x;
    assert |files| > 0;
    var i := CutOf(cuts, k, |files|);
    f := files[i];
    assert SameEntries(files[i], es, cuts[i], cuts[i + 1]);
    assert cuts[i + 1] <= cuts[|files|];
  }

  /** Later tables hold later entries. */
  lemma CutNewer(es: Batch, files: seq<File>, cuts: seq<nat>, i: nat, j: nat)
    requires Ascending(es) && CutInto(es, files, cuts) && i < j < |files|
    ensures FileNewer(files[j], files[i])
  {
    hide Sorted;
    forall e, x | e in files[j].entries && x in files[i].entries && e.u == x.u
      ensures e.seqno > x.seqno
    {
      assert SameEntries(files[i], es, cuts[i], cuts[i + 1]) && SameEntries(files[j], es, cuts[j], cuts[j + 1]);
      var p :| cuts[i] <= p < cuts[i + 1] <= |es| && es[p] == x;
      var q :| cuts[j] <= q < cuts[j + 1] <= |es| && es[q] == e;
      assert cuts[i + 1] <= cuts[j];
    }
  }

  ghost predicate Grown(v: Version, files: seq<File>, v': Version) {
    Changed(v, v', 0, [], files) && forall l :: 1 <= l < NUM_LEVELS ==> v'[l] == v[l]
  }

  lemma RecoveredEntries(v: Version, es: Batch, files: seq<File>, cuts: seq<nat>, v': Version)
    requires CutInto(es, files, cuts) && Grown(v, files, v')
    ensures forall x :: InVersion(v', x) <==> InVersion(v, x) || x in es
  {
    hide Sorted, StrictlyOrdered, CutInto;
    forall x | InVersion(v', x)
      ensures InVersion(v, x) || x in es
    {
      var l :| 0 <= l < NUM_LEVELS && InFiles(v'[l], x);
      var g :| g in v'[l] && x in g.entries;
      if g in v[l] {
        assert InFiles(v[l], x);
      } else {
        FileOfCut(es, files, cuts, g, x);
      }
    }
    forall x | InVersion(v, x)
      ensures InVersion(v', x)
    {
      var l :| 0 <= l < NUM_LEVELS && InFiles(v[l], x);
      var g :| g in v[l] && x in g.entries;
      assert g in v'[l] && InFiles(v'[l], x);
    }
    forall x | x in es
      ensures InVersion(v', x)
    {
      var f := CutHolds(es, files, cuts, x);
      assert f in v'[0] && InFiles(v'[0], x);
    }
  }

  lemma RecoveredPair(v: Version, es: Batch, files: seq<File>, cuts: seq<nat>, v': Version, l: nat, m: nat, e: Entry,
                      x: Entry)
    requires LevelsOrdered(v) && CutInto(es, files, cuts) && Grown(v, files, v') && NewerThanVersion(es, v)
    requires l < m < NUM_LEVELS && InFiles(v'[l], e) && InFiles(v'[m], x) && e.u == x.u
    ensures e.seqno > x.seqno
  {
    hide Sorted, StrictlyOrdered, CutInto;
    assert v'[m] == v[m] && InVersion(v, x);
    assert LevelNewer(v[l], v[m]);
    var g :| g in v'[l] && e in g.entries;
    if g in v[l] {
      assert InFiles(v[l], e);
    } else {
      FileOfCut(es, files, cuts, g, e);
    }
  }

  lemma RecoveredLevel0(v: Version, es: Batch, files: seq<File>, cuts: seq<nat>, v': Version, next: nat)
    requires NumberOrdered(v[0]) && NumbersBelow(v, next) && Ascending(es) && NewerThanVersion(es, v)
    requires CutInto(es, files, cuts) && Grown(v, files, v')
    requires forall i :: 0 <= i < |files| ==> next < files[i].number
    requires forall i, j :: 0 <= i < j < |files| ==> files[i].number < files[j].number
    ensures NumberOrdered(v'[0])
  {
    hide Sorted, StrictlyOrdered, CutInto;
    forall g, h | g in v'[0] && h in v'[0] && g.number > h.number
      ensures FileNewer(g, h)
    {
      if g in v[0] && h in v[0] {
      } else if h in v[0] {
        forall e, x | e in g.entries && x in h.entries && e.u == x.u
          ensures e.seqno > x.seqno
        {
          FileOfCut(es, files, cuts, g, e);
          assert InFiles(v[0], x);
          assert InVersion(v, x);
        }
      } else {
        var i :| 0 <= i < |files| && files[i] == h;
        assert g in files;
        var j :| 0 <= j < |files| && files[j] == g;
        CutNewer(es, files, cuts, i, j);
      }
    }
  }

  lemma RecoveredUnique(v: Version, files: seq<File>, v': Version, next: nat, n: nat)
    requires NumbersUnique(v) && NumbersBelow(v, next) && Grown(v, files, v')
    requires forall i :: 0 <= i < |files| ==> next < files[i].number < n
    requires forall i, j :: 0 <= i < j < |files| ==> files[i].number < files[j].number
    ensures NumbersUnique(v') && (next < n ==> NumbersBelow(v', n + 1))
  {
    hide Sorted, StrictlyOrdered;
    forall f, g | f in files && g in files && f.number == g.number
      ensures f == g
    {
      var i :| 0 <= i < |files| && files[i] == f;
      var j :| 0 <= j < |files| && files[j] == g;
    }
    forall l, g | 0 <= l < NUM_LEVELS && g in v'[l]
      ensures g in v[l] || (l == 0 && g in files && next < g.number < n)
    {
    }
    hide Grown;
  }

  /** Adding the recovered tables to level 0 keeps the order of the levels. */
  lemma RecoveredInv(d: Disk, bound: nat, files: seq<File>, cuts: seq<nat>, n: nat, v': Version)
    requires DiskInv(d, bound) && CutInto(Logged(d, bound), files, cuts) && RecoveredNumbers(d, files, n)
      && Grown(d.manifest.v, files, v')
    ensures VersionInv(v') && NumbersBelow(v', n + 1)
  {
    hide Sorted, LevelSorted, LevelsOrdered, StrictlyOrdered, NumberOrdered, NumbersUnique, NumbersBelow,
         NewerThanVersion, CutInto, Ascending, OnDisk, Logged;
    var v, es := d.manifest.v, Logged(d, bound);
    assert NumberOrdered(v'[0]) by { RecoveredLevel0(v, es, files, cuts, v', d.manifest.nextFile); }
    RecoveredUnique(v, files, v', d.manifest.nextFile, n);
    assert LevelsOrdered(v') by {
      forall l, m, e, x | 0 <= l < m < NUM_LEVELS && InFiles(v'[l], e) && InFiles(v'[m], x) && e.u == x.u
        ensures e.seqno > x.seqno
      {
        RecoveredPair(v, es, files, cuts, v', l, m, e, x);
      }
      OrderedFromPairs(v');
    }
  }

  lemma GrownOnDisk(tables: map<nat, seq<Entry>>, v: Version, files: seq<File>, v': Version)
    requires OnDisk(tables, v) && Stored(tables, files) && Grown(v, files, v')
    ensures OnDisk(tables, v')
  {
    hide Sorted, StrictlyOrdered;
    forall l, g | 0 <= l < NUM_LEVELS && g in v'[l]
      ensures g.number in tables && tables[g.number] == g.entries
    {
      assert g in v[l] || g in files;
    }
  }

  lemma ReopenedDb(s: State, files: seq<File>, cuts: seq<nat>, n: nat, s': State)
    requires DiskInv(s.disk, s.bound) && ReopenStep(s, files, cuts, n, s')
    ensures DbInv(s'.up.value.db) && Contents(s'.up.value.db) + Of([]) == Durable(s.disk, s.bound)
    ensures OnDisk(s'.disk.tables, s'.up.value.db.v)
  {
    hide Sorted, VersionInv, CutInto, Changed, Ascending, Stored, OnDisk, NumbersBelow, InVersion, Logged,
         RecoveredNumbers;
    var d, db' := s.disk, s'.up.value.db;
    assert Grown(d.manifest.v, files, db'.v);
    RecoveredInv(d, s.bound, files, cuts, n, db'.v);
    RecoveredEntries(d.manifest.v, Logged(d, s.bound), files, cuts, db'.v);
    GrownOnDisk(d.tables, d.manifest.v, files, db'.v);
    assert Contents(db') + Of([]) == Durable(d, s.bound);
    EmptySorted();
    assert forall x :: InVersion(db'.v, x) ==> x.seqno <= db'.lastSeq;
    assert db'.lastSeq < MAX_SEQUENCE;
  }

  lemma ReopenedLog(s: State, files: seq<File>, n: nat, lastSeq: nat)
    requires RecoveredNumbers(s.disk, files, n) && lastSeq < MAX_SEQUENCE
    ensures LogInv(s.disk.logs[n := []], n, n + 1, n, [], None, lastSeq, [])
  {
    var logs := s.disk.logs[n := []];
    ReplaySplit(logs, n, n);
    assert LogOf(logs, n) == [];
    assert Replay(logs, n, n) == [];
  }

  lemma ReopenKeeps(s: State, files: seq<File>, cuts: seq<nat>, n: nat, s': State)
    requires DiskInv(s.disk, s.bound) && Recoverable(s.disk, s.bound, s.history, s.acked)
      && ReopenStep(s, files, cuts, n, s')
    ensures EngineInv(s', s'.up.value)
  {
    hide Sorted, VersionInv, CutInto, Changed, Ascending, Stored, OnDisk, NumbersBelow, InVersion, Replay, LogInv, View,
         MemInv, UniqueSeqs, DiskInv, Names, Contents, Durable;
    var e := s'.up.value;
    var q := e.db.lastSeq;
    ReopenedDb(s, files, cuts, n, s');
    ReopenedLog(s, files, n, q);
    hide RecoveredNumbers;
    assert FilesInv(s'.disk.tables, n, e.db.v, n + 1, None, e.current, e.held, {}, Idle);
    hide FilesInv;
    assert TopOf(s.disk, s.bound, q);
    assert HistoryInv(q, [], s.history, s.acked);
    assert ManifestInv(s'.disk.manifest, e.db.v, q, n + 1) by { CommitManifest(e.db, n); }
  }

  // ---------------------------------------------------------------------------------------------------------
  // Runs
  // ---------------------------------------------------------------------------------------------------------

  ghost predicate StateInv(s: State) {
    && DiskInv(s.disk, s.bound) && Recoverable(s.disk, s.bound, s.history, s.acked)
    && (s.up.Some? ==> EngineInv(s, s.up.value))
  }

  lemma UpStepKeeps(s: State, step: Durability.Step, s': State)
    requires s.up.Some? && EngineInv(s, s.up.value) && UpStep(s, s.up.value, step, s') && !step.Crash?
    ensures s'.up.Some? && EngineInv(s', s'.up.value)
  {
    hide EngineInv, AppendStep, InsertStep, SwitchMemTableStep, BeginFlushStep, WriteTableStep, CommitFlushStep,
         CommitEmptyFlushStep;
    hide BeginCompactionStep, OpenOutputStep, CommitCompactionStep, CommitMoveStep, InstallVersionStep,
         ListObsoleteStep;
    var e := s.up.value;
    StaysUp(s, e, step, s');
    hide DeletingStep, ReaderStep;
    match step
    case Append(batch) => AppendKeeps(s, e, batch, s');
    case Insert => InsertKeeps(s, e, s');
    case SwitchMemTable => SwitchKeeps(s, e, s');
    case BeginFlush => BeginFlushKeeps(s, e, s');
    case WriteTable(n, entries) => WriteTableKeeps(s, e, n, entries, s');
    case CommitFlush(level, f) => CommitFlushKeeps(s, e, level, f, s');
    case CommitEmptyFlush => CommitEmptyFlushKeeps(s, e, s');
    case BeginCompaction(c) => BeginCompactionKeeps(s, e, c, s');
    case OpenOutput => OpenOutputKeeps(s, e, s');
    case CommitCompaction(input, outputs) => CommitCompactionKeeps(s, e, input, outputs, s');
    case CommitMove(c) => CommitMoveKeeps(s, e, c, s');
    case Install => InstallKeeps(s, e, s');
    case ListObsolete => ListObsoleteKeeps(s, e, s');
    case DeleteTable(n) => DeleteTableKeeps(s, e, n, s');
    case DeleteLog(n) => DeleteLogKeeps(s, e, n, s');
    case DeletedAll => DeletedAllKeeps(s, e, s');
    case _ => ReaderKeeps(s, e, step, s');
  }

  lemma StaysUp(s: State, e: Engine, step: Durability.Step, s': State)
    requires s.up == Some(e) && UpStep(s, e, step, s') && !step.Crash?
    ensures s'.up.Some?
  {
    hide LsmRuns.Next, Names, Referenced, Stored, Building;
  }

  /** Every step, a crash or a recovery included, keeps the invariant. */
  lemma EveryStepKeeps(s: State, step: Durability.Step, s': State)
    requires StateInv(s) && Durability.Next(s, step, s')
    ensures StateInv(s')
  {
    hide EngineInv, DiskInv, Recoverable, ReopenStep, UpStep;
    if s.up.Some? && !step.Crash? {
      UpStepKeeps(s, step, s');
      RunningIsSafe(s', s'.up.value);
    } else if s.up.Some? {
      Crashed(s, s');
    } else {
      match step
      case RecoveryTable(n, entries) => RecoveryTableKeeps(s, n, entries, s');
      case RecoveryLog(n) => RecoveryLogKeeps(s, n, s');
      case Reopen(files, cuts, n) =>
        ReopenKeeps(s, files, cuts, n, s');
        assert s'.up.Some? by { Reopened(s, files, cuts, n, s'); }
        RunningIsSafe(s', s'.up.value);
    }
  }

  lemma Crashed(s: State, s': State)
    requires s.up.Some? && UpStep(s, s.up.value, Crash, s')
    ensures s' == s.(up := None)
  {
  }

  lemma Reopened(s: State, files: seq<File>, cuts: seq<nat>, n: nat, s': State)
    requires ReopenStep(s, files, cuts, n, s')
    ensures s'.up.Some?
  {
    hide CutInto, RecoveredNumbers, Stored, Changed, RecoveredSequence, OnDisk;
  }

  /** A database that was just created: NewDB has written its first manifest. */
  ghost predicate Created(s: State) {
    s == State(Disk(map[], map[], Manifest([[], [], [], [], [], [], []], 0, 2, 0)), 0, None, iset{}, iset{})
  }

  lemma CreatedInv(s: State)
    requires Created(s)
    ensures StateInv(s)
  {
    hide VersionInv, InVersion, View;
    EmptyVersionInv(s.disk.manifest.v);
    assert Logged(s.disk, s.bound) == [];
    assert Durable(s.disk, s.bound) == iset{};
  }

  ghost predicate DurableRun(states: seq<State>, steps: seq<Durability.Step>) {
    && |states| == |steps| + 1 && Created(states[0])
    && forall k :: 0 <= k < |steps| ==> Durability.Next(states[k], steps[k], states[k + 1])
  }

  lemma {:induction false} DurableRunInv(states: seq<State>, steps: seq<Durability.Step>, n: nat)
    requires DurableRun(states, steps) && n < |states|
    ensures StateInv(states[n])
  {
    hide StateInv, Durability.Next;
    if n == 0 {
      CreatedInv(states[0]);
    } else {
      DurableRunInv(states, steps, n - 1);
      EveryStepKeeps(states[n - 1], steps[n - 1], states[n]);
    }
  }

  lemma HistoryGrows(s: State, step: Durability.Step, s': State)
    requires StateInv(s) && Durability.Next(s, step, s')
    ensures s.history <= s'.history && s.acked <= s'.acked
  {
    hide StateInv, LsmRuns.Next, Names, Referenced, Stored, Building, CutInto, Changed, RecoveredNumbers,
         RecoveredSequence;
  }

  lemma {:induction false} AckedStays(states: seq<State>, steps: seq<Durability.Step>, i: nat, j: nat)
    requires DurableRun(states, steps) && i <= j < |states|
    ensures states[i].acked <= states[j].acked && states[i].history <= states[j].history
    decreases j - i
  {
    hide StateInv, Durability.Next;
    if i < j {
      AckedStays(states, steps, i, j - 1);
      DurableRunInv(states, steps, j - 1);
      HistoryGrows(states[j - 1], steps[j - 1], states[j]);
    }
  }

  lemma ReopenedIdle(s: State, step: Durability.Step, s': State)
    requires s.up.None? && Durability.Next(s, step, s') && s'.up.Some?
    ensures s'.up.value.inflight == []
  {
    hide CutInto, RecoveredNumbers, Stored, Changed, RecoveredSequence, OnDisk;
  }

  /** A table is deleted only when no referenced version names it and it is no pending output; the tables of every
      referenced version, and those the manifest names, are on disk. */
  lemma NoReferencedTableDeleted(states: seq<State>, steps: seq<Durability.Step>, k: nat, w: Version)
    requires DurableRun(states, steps) && k < |states|
    ensures OnDisk(states[k].disk.tables, states[k].disk.manifest.v)
    ensures states[k].up.Some? && Referenced(states[k].up.value, w) ==> OnDisk(states[k].disk.tables, w)
    ensures k < |steps| && steps[k].DeleteTable? ==>
      && states[k].up.Some? && steps[k].n !in states[k].up.value.pending
      && (Referenced(states[k].up.value, w) ==> !Names(w, steps[k].n))
  {
    hide OnDisk, Names, VersionInv, NumbersBelow, DbInv, LogInv, HistoryInv, ManifestInv, Recoverable, NewerThanVersion,
         Ascending;
    DurableRunInv(states, steps, k);
    var s := states[k];
    if s.up.Some? {
      var e := s.up.value;
      assert Referenced(e, w) ==> Live(e.db.v, e.current, e.held, e.db.job, e.bg, w);
    }
    if k < |steps| && steps[k].DeleteTable? {
      assert Durability.Next(s, steps[k], states[k + 1]);
    }
  }
}
