/** Recovery over whole runs: it can always be finished, and the version it starts from is the one that the records of
    the manifest replay to (DBImpl::Recover in db/db_impl.cc, VersionSet::Recover in db/version_set.cc). */
module RecoveryRuns {
  import opened InternalKeys
  import opened Views
  import opened Lsm
  import opened CompactionProof
  import opened LsmRuns
  import opened Durability
  import opened DurabilityProof
  import opened DurabilityRuns
  import VersionBuilder
  import ManifestRuns

  // ---------------------------------------------------------------------------------------------------------
  // A table from the entries of the logs
  // ---------------------------------------------------------------------------------------------------------

  function InsertEntry(es: seq<Entry>, e: Entry): seq<Entry> {
    if es == [] then [e] else if Precedes(e, es[0]) then [e] + es else [es[0]] + InsertEntry(es[1..], e)
  }

  lemma {:induction false} InsertSorts(es: seq<Entry>, e: Entry)
    requires Sorted(es) && forall x :: x in es ==> x.seqno != e.seqno
    ensures Sorted(InsertEntry(es, e)) && forall x :: x in InsertEntry(es, e) <==> x in es || x == e
  {
    if es != [] && !Precedes(e, es[0]) {
      var rest := InsertEntry(es[1..], e);
      InsertSorts(es[1..], e);
      assert es == [es[0]] + es[1..];
      forall i | 0 <= i < |rest|
        ensures Precedes(es[0], rest[i])
      {
        assert rest[i] in rest;
        if rest[i] != e {
          var j :| 0 <= j < |es[1..]| && es[1..][j] == rest[i];
          assert Precedes(es[0], es[j + 1]);
        }
      }
    }
  }

  /** Entries with increasing sequence numbers can be sorted as a memtable sorts them. */
  lemma {:induction false} SortedForm(es: Batch) returns (r: seq<Entry>)
    requires Ascending(es)
    ensures Sorted(r) && forall x :: x in r <==> x in es
  {
    if es == [] {
      r := [];
    } else {
      var n := |es| - 1;
      r := SortedForm(es[..n]);
      assert es == es[..n] + [es[n]];
      forall x | x in r
        ensures x.seqno != es[n].seqno
      {
        assert x in es[..n];
        var i :| 0 <= i < n && es[i] == x;
      }
      InsertSorts(r, es[n]);
      r := InsertEntry(r, es[n]);
    }
  }

  /** Level 0 with one more file, in order. */
  lemma GrowLevel0(v: Version, f: File) returns (v': Version)
    requires VersionInv(v) && NumbersBelow(v, f.number)
    ensures Grown(v, [f], v')
  {
    hide Sorted, LevelSorted, LevelsOrdered, NumberOrdered, NumbersUnique, StrictlyOrdered;
    VersionBuilder.InsertFileOrdered(v[0], f);
    assert VersionBuilder.Unmatched(v[0], f);
    v' := v[0 := VersionBuilder.InsertFile(v[0], f)];
  }

  // ---------------------------------------------------------------------------------------------------------
  // Recovery can be finished
  // ---------------------------------------------------------------------------------------------------------

  ghost predicate Path(path: seq<State>, steps: seq<Durability.Step>) {
    |path| == |steps| + 1 && forall k :: 0 <= k < |steps| ==> Durability.Next(path[k], steps[k], path[k + 1])
  }

  lemma NewestSequence(d: Disk, es: Batch) returns (q: SequenceNumber)
    requires Ascending(es) && d.manifest.lastSeq < MAX_SEQUENCE && forall x :: x in es ==> x.seqno < MAX_SEQUENCE
    ensures RecoveredSequence(d, es, q)
  {
    q := d.manifest.lastSeq;
    if es != [] && q < es[|es| - 1].seqno {
      q := es[|es| - 1].seqno;
    }
  }

  ghost function Restarted(s: State, v: Version, q: SequenceNumber, n: nat): State {
    var db := Db([], None, v, q, multiset{}, n + 1, None);
    State(Disk(s.disk.logs[n := []], s.disk.tables, Manifest(v, n, n + 1, q)), n + 1,
          Some(Engine(db, n, [], v, false, multiset{}, {}, Idle)), s.history, s.acked)
  }

  lemma ReopensWith(s: State, files: seq<File>, cuts: seq<nat>, n: nat, v: Version) returns (s': State)
    requires DiskInv(s.disk, s.bound) && s.up.None? && CutInto(Logged(s.disk, s.bound), files, cuts)
    requires RecoveredNumbers(s.disk, files, n) && Stored(s.disk.tables, files) && Grown(s.disk.manifest.v, files, v)
    ensures Durability.Next(s, Reopen(files, cuts, n), s') && s'.up.Some?
  {
    hide Sorted, VersionInv, CutInto, RecoveredNumbers, Stored, Changed, OnDisk, NumbersBelow, InVersion, Logged,
         NewerThanVersion, Ascending, RecoveredSequence;
    var q := NewestSequence(s.disk, Logged(s.disk, s.bound));
    s' := Restarted(s, v, q, n);
  }

  lemma NothingLogged(s: State) returns (s': State, n: nat)
    requires DiskInv(s.disk, s.bound) && s.up.None? && Logged(s.disk, s.bound) == []
    ensures Durability.Next(s, Reopen([], [0], n), s') && s'.up.Some?
  {
    hide Sorted, LevelSorted, LevelsOrdered, NumberOrdered, NumbersUnique, OnDisk, NumbersBelow, InVersion,
         NewerThanVersion, StrictlyOrdered, Logged;
    n := s.disk.manifest.nextFile + s.disk.manifest.logNumber + s.bound + 2;
    assert CutInto([], [], [0]);
    assert Grown(s.disk.manifest.v, [], s.disk.manifest.v);
    s' := ReopensWith(s, [], [0], n, s.disk.manifest.v);
  }

  lemma OneCut(f: File, es: Batch)
    requires forall x :: x in f.entries <==> x in es
    ensures CutInto(es, [f], [0, |es|])
  {
    hide Sorted;
    assert SameEntries(f, es, 0, |es|);
  }

  lemma LoggedTable(s: State) returns (f: File)
    requires DiskInv(s.disk, s.bound) && Logged(s.disk, s.bound) != []
    ensures f.number == s.disk.manifest.nextFile + 1 && forall x :: x in f.entries <==> x in Logged(s.disk, s.bound)
  {
    hide VersionInv, OnDisk, NumbersBelow, InVersion, NewerThanVersion, Logged;
    var es := Logged(s.disk, s.bound);
    var entries := SortedForm(es);
    assert es[0] in entries;
    f := FileData(s.disk.manifest.nextFile + 1, 1, entries);
  }

  lemma OneTable(s: State) returns (s1: State, s': State, f: File, n: nat)
    requires DiskInv(s.disk, s.bound) && s.up.None? && Logged(s.disk, s.bound) != []
    ensures Durability.Next(s, RecoveryTable(f.number, f.entries), s1)
    ensures Durability.Next(s1, Reopen([f], [0, |Logged(s.disk, s.bound)|], n), s') && s'.up.Some?
  {
    hide Sorted, VersionInv, OnDisk, NumbersBelow, InVersion, NewerThanVersion, Logged, Grown, CutInto, Ascending;
    var es, d := Logged(s.disk, s.bound), s.disk;
    f := LoggedTable(s);
    n := d.manifest.nextFile + d.manifest.logNumber + s.bound + 2;
    s1 := s.(disk := d.(tables := d.tables[f.number := f.entries]));
    assert Durability.Next(s, RecoveryTable(f.number, f.entries), s1);
    assert NumbersBelow(d.manifest.v, f.number) by { BelowNext(d.manifest.v, d.manifest.nextFile); }
    var v := GrowLevel0(d.manifest.v, f);
    assert RecoveredNumbers(s1.disk, [f], n) && Stored(s1.disk.tables, [f]);
    assert DiskInv(s1.disk, s1.bound) by { TableKeepsDisk(s, f.number, f.entries, s1); }
    assert Logged(s1.disk, s1.bound) == es by { SameLogged(s, s1); }
    hide DiskInv, RecoveredNumbers, Stored, Durability.Next;
    OneCut(f, es);
    s' := ReopensWith(s1, [f], [0, |es|], n, v);
  }

  lemma SameLogged(s: State, s': State)
    requires s'.disk.logs == s.disk.logs && s'.disk.manifest == s.disk.manifest && s'.bound == s.bound
    ensures Logged(s'.disk, s'.bound) == Logged(s.disk, s.bound)
  {
    hide Replay;
  }

  lemma TableKeepsDisk(s: State, n: nat, entries: seq<Entry>, s': State)
    requires DiskInv(s.disk, s.bound) && s.disk.manifest.nextFile < n
    requires s' == s.(disk := s.disk.(tables := s.disk.tables[n := entries]))
    ensures DiskInv(s'.disk, s'.bound)
  {
    hide VersionInv, NumbersBelow, OnDisk, Names, InVersion, NewerThanVersion, Replay, Ascending;
    assert !Names(s.disk.manifest.v, n) by { AboveNotNamed(s.disk.manifest.v, s.disk.manifest.nextFile, n); }
    OtherTable(s.disk.tables, s.disk.manifest.v, n, entries);
  }

  /** From every state of every run in which the engine is down, it can come up again. */
  lemma RecoveryCanFinish(states: seq<State>, steps: seq<Durability.Step>, k: nat)
    returns (path: seq<State>, more: seq<Durability.Step>)
    requires DurableRun(states, steps) && k < |states| && states[k].up.None?
    ensures Path(path, more) && path[0] == states[k] && path[|more|].up.Some?
  {
    hide DiskInv, Recoverable, EngineInv, Durability.Next, Logged;
    DurableRunInv(states, steps, k);
    var s := states[k];
    if Logged(s.disk, s.bound) == [] {
      var s', n := NothingLogged(s);
      path, more := [s, s'], [Reopen([], [0], n)];
    } else {
      var s1, s', f, n := OneTable(s);
      path := [s, s1, s'];
      more := [RecoveryTable(f.number, f.entries), Reopen([f], [0, |Logged(s.disk, s.bound)|], n)];
    }
  }

  // ---------------------------------------------------------------------------------------------------------
  // Files that nothing needs can be deleted
  // ---------------------------------------------------------------------------------------------------------

  /** The table is being written, or a referenced version names it. */
  ghost predicate Needed(e: Engine, n: nat) {
    n in e.pending || exists v :: Referenced(e, v) && Names(v, n)
  }

  lemma PathOn(path: seq<State>, steps: seq<Durability.Step>, step: Durability.Step, s': State)
    requires Path(path, steps) && Durability.Next(path[|steps|], step, s')
    ensures Path(path + [s'], steps + [step])
  {
    hide Durability.Next;
  }

  lemma {:induction false} DeleteTables(s: State, e: Engine, tables: set<nat>)
    returns (path: seq<State>, steps: seq<Durability.Step>)
    requires s.up == Some(e) && e.bg.Deleting? && tables <= e.bg.tables
    ensures Path(path, steps) && path[0] == s
    ensures path[|steps|] == s.(disk := s.disk.(tables := s.disk.tables - tables))
    decreases |tables|
  {
    hide Referenced, Names;
    if tables == {} {
      path, steps := [s], [];
      assert s.disk.tables - {} == s.disk.tables;
    } else {
      var n :| n in tables;
      path, steps := DeleteTables(s, e, tables - {n});
      var last := path[|steps|];
      var s' := last.(disk := last.disk.(tables := last.disk.tables - {n}));
      assert Durability.Next(last, DeleteTable(n), s');
      PathOn(path, steps, DeleteTable(n), s');
      path, steps := path + [s'], steps + [DeleteTable(n)];
      assert s.disk.tables - (tables - {n}) - {n} == s.disk.tables - tables;
    }
  }

  lemma {:induction false} DeleteLogs(s: State, e: Engine, logs: set<nat>)
    returns (path: seq<State>, steps: seq<Durability.Step>)
    requires s.up == Some(e) && e.bg.Deleting? && logs <= e.bg.logs
    ensures Path(path, steps) && path[0] == s
    ensures path[|steps|] == s.(disk := s.disk.(logs := s.disk.logs - logs))
    decreases |logs|
  {
    hide Referenced, Names;
    if logs == {} {
      path, steps := [s], [];
      assert s.disk.logs - {} == s.disk.logs;
    } else {
      var n :| n in logs;
      path, steps := DeleteLogs(s, e, logs - {n});
      var last := path[|steps|];
      var s' := last.(disk := last.disk.(logs := last.disk.logs - {n}));
      assert Durability.Next(last, DeleteLog(n), s');
      PathOn(path, steps, DeleteLog(n), s');
      path, steps := path + [s'], steps + [DeleteLog(n)];
      assert s.disk.logs - (logs - {n}) - {n} == s.disk.logs - logs;
    }
  }

  lemma PathsJoin(a: seq<State>, steps: seq<Durability.Step>, b: seq<State>, more: seq<Durability.Step>)
    requires Path(a, steps) && Path(b, more) && b[0] == a[|steps|]
    ensures Path(a + b[1..], steps + more) && (a + b[1..])[|steps + more|] == b[|more|]
  {
    hide Durability.Next;
    var c, all := a + b[1..], steps + more;
    forall k | 0 <= k < |all|
      ensures Durability.Next(c[k], all[k], c[k + 1])
    {
      if k < |steps| {
        assert Durability.Next(a[k], steps[k], a[k + 1]);
      } else {
        assert Durability.Next(b[k - |steps|], more[k - |steps|], b[k - |steps| + 1]);
      }
    }
  }

  /** From every state in which the background thread is idle, deleting obsolete files leaves exactly the tables that
      are needed and the logs from the manifest's log number on. */
  lemma GarbageGoes(s: State, e: Engine) returns (path: seq<State>, steps: seq<Durability.Step>)
    requires s.up == Some(e) && e.bg.Idle?
    ensures Path(path, steps) && path[0] == s
    ensures var last := path[|steps|];
      && last.up == Some(e) && last.disk.manifest == s.disk.manifest
      && (forall n :: n in last.disk.tables <==> n in s.disk.tables && Needed(e, n))
      && forall n :: n in last.disk.logs <==> n in s.disk.logs && n >= s.disk.manifest.logNumber
  {
    var tables := set n | n in s.disk.tables && !Needed(e, n);
    var logs := set n | n in s.disk.logs && n < s.disk.manifest.logNumber;
    var e1 := e.(bg := Deleting(tables, logs));
    var s1 := s.(up := Some(e1));
    assert Durability.Next(s, ListObsolete, s1) by { Lists(s, e, tables, logs, s1); }
    hide Durability.Next, Needed;
    var p1: seq<State>, t1: seq<Durability.Step> := [s, s1], [ListObsolete];
    assert Path(p1, t1);
    var p2, t2 := DeleteTables(s1, e1, tables);
    PathsJoin(p1, t1, p2, t2);
    var s2 := p2[|t2|];
    var p3, t3 := DeleteLogs(s2, e1, logs);
    hide Path;
    PathsJoin(p1 + p2[1..], t1 + t2, p3, t3);
    var s3 := p3[|t3|];
    var s4 := s3.(up := Some(e));
    AllDeleted(s3, e1, s4);
    path, steps := p1 + p2[1..] + p3[1..], t1 + t2 + t3;
    PathOn(path, steps, DeletedAll, s4);
    path, steps := path + [s4], steps + [DeletedAll];
  }

  lemma Lists(s: State, e: Engine, tables: set<nat>, logs: set<nat>, s': State)
    requires s.up == Some(e) && e.bg.Idle? && s' == s.(up := Some(e.(bg := Deleting(tables, logs))))
    requires forall n :: n in tables <==> n in s.disk.tables && !Needed(e, n)
    requires forall n :: n in logs <==> n in s.disk.logs && n < s.disk.manifest.logNumber
    ensures Durability.Next(s, ListObsolete, s')
  {
    hide Referenced, Names;
  }

  lemma AllDeleted(s: State, e: Engine, s': State)
    requires s.up == Some(e) && e.bg.Deleting? && s' == s.(up := Some(e.(bg := Idle)))
    ensures Durability.Next(s, DeletedAll, s')
  {
  }

  // ---------------------------------------------------------------------------------------------------------
  // The manifest as its records
  // ---------------------------------------------------------------------------------------------------------

  /** What a step does to the database in memory. */
  function Inner(e: Engine, step: Durability.Step): Option<LsmRuns.Step> {
    match step
    case Insert => Some(Write(e.inflight))
    case SwitchMemTable => Some(Switch)
    case CommitFlush(level, f) => Some(Flush(level, f))
    case CommitEmptyFlush => Some(FlushEmpty)
    case BeginCompaction(c) => Some(Begin(c))
    case OpenOutput => Some(Open)
    case CommitCompaction(input, outputs) => Some(Finish(input, outputs))
    case CommitMove(c) => Some(Move(c))
    case Snapshot => Some(TakeSnapshot)
    case Release(q) => Some(ReleaseSnapshot(q))
    case _ => None
  }

  lemma InnerStep(s: State, e: Engine, step: Durability.Step, s': State)
    requires s.up == Some(e) && UpStep(s, e, step, s') && s'.up.Some?
    ensures if Inner(e, step).Some? then LsmRuns.Next(e.db, Inner(e, step).value, s'.up.value.db)
            else s'.up.value.db == e.db
  {
    hide LsmRuns.Next, Names, Referenced, Stored, Building;
  }

  /** The record that a step appends to the manifest, if any. */
  function StepRecords(s: State, step: Durability.Step): seq<VersionBuilder.Edit> {
    if s.up.Some? && Inner(s.up.value, step).Some? then
      ManifestRuns.StepEdits(s.up.value.db, Inner(s.up.value, step).value)
    else []
  }

  /** The manifest that the engine of state `i` began, up to state `k`. */
  function Records(states: seq<State>, steps: seq<Durability.Step>, i: nat, k: nat): seq<VersionBuilder.Edit>
    requires i <= k <= |steps| < |states|
  {
    if k == i then [ManifestRuns.SnapshotEdit(states[i].disk.manifest.v)]
    else Records(states, steps, i, k - 1) + StepRecords(states[k - 1], steps[k - 1])
  }

  /** The records lead to the version of the manifest, and to the database of the engine if it is up. */
  ghost predicate Leads(edits: seq<VersionBuilder.Edit>, vs: seq<Version>, s: State, db: Db) {
    && ManifestRuns.Written(edits, vs, db) && db.v == s.disk.manifest.v && (s.up.Some? ==> db == s.up.value.db)
  }

  lemma ManifestVersion(s: State, e: Engine)
    requires EngineInv(s, e)
    ensures s.up == Some(e) && DbInv(e.db) && e.db.v == s.disk.manifest.v
  {
    hide DbInv, LogInv, HistoryInv, FilesInv, NumbersBelow, InVersion;
  }

  lemma DownKeepsManifest(s: State, step: Durability.Step, s': State)
    requires s.up.None? && Durability.Next(s, step, s') && !step.Reopen?
    ensures s'.disk.manifest == s.disk.manifest && s'.up.None?
  {
  }

  lemma CrashKeepsManifest(s: State, step: Durability.Step, s': State)
    requires s.up.Some? && Durability.Next(s, step, s') && s'.up.None?
    ensures s'.disk == s.disk && Inner(s.up.value, step) == None
  {
    hide UpStep;
    if !step.Crash? {
      StaysUp(s, s.up.value, step, s');
    } else {
      Crashed(s, s');
    }
  }

  lemma StepLeads(edits: seq<VersionBuilder.Edit>, vs: seq<Version>, s: State, db: Db, step: Durability.Step, s': State)
    returns (vs': seq<Version>, db': Db)
    requires StateInv(s) && StateInv(s') && Durability.Next(s, step, s') && !step.Reopen? && Leads(edits, vs, s, db)
    ensures Leads(edits + StepRecords(s, step), vs', s', db')
  {
    hide EngineInv, DiskInv, Recoverable, UpStep, DownStep, ManifestRuns.Written, ManifestRuns.StepEdits, LsmRuns.Next;
    hide Inner;
    vs', db' := vs, db;
    assert edits + [] == edits;
    if s.up.None? {
      DownKeepsManifest(s, step, s');
    } else if s'.up.None? {
      CrashKeepsManifest(s, step, s');
    } else {
      var e := s.up.value;
      ManifestVersion(s, e);
      ManifestVersion(s', s'.up.value);
      InnerStep(s, e, step, s');
      db' := s'.up.value.db;
      if Inner(e, step).Some? {
        vs' := ManifestRuns.StepWrites(edits, vs, e.db, Inner(e, step).value, db');
      }
    }
  }

  lemma {:induction false} RecordsLead(states: seq<State>, steps: seq<Durability.Step>, i: nat, k: nat)
    returns (vs: seq<Version>, db: Db)
    requires DurableRun(states, steps) && i <= k < |states| && states[i].up.Some?
    requires forall j :: i <= j < k ==> !steps[j].Reopen?
    ensures Leads(Records(states, steps, i, k), vs, states[k], db)
    decreases k - i
  {
    hide StateInv, Durability.Next, Leads, StepRecords;
    if i == k {
      DurableRunInv(states, steps, i);
      vs, db := FirstLeads(states[i]);
    } else {
      var vs0, db0 := RecordsLead(states, steps, i, k - 1);
      DurableRunInv(states, steps, k - 1);
      DurableRunInv(states, steps, k);
      vs, db := StepLeads(Records(states, steps, i, k - 1), vs0, states[k - 1], db0, steps[k - 1], states[k]);
    }
  }

  lemma FirstLeads(s: State) returns (vs: seq<Version>, db: Db)
    requires StateInv(s) && s.up.Some?
    ensures Leads([ManifestRuns.SnapshotEdit(s.disk.manifest.v)], vs, s, db)
  {
    hide EngineInv, DiskInv, Recoverable, ManifestRuns.Written, VersionInv, MemInv, JobInv, NumbersBelow;
    db := s.up.value.db;
    ManifestVersion(s, s.up.value);
    vs := [VersionBuilder.EMPTY_VERSION, db.v];
    ManifestRuns.WrittenFirst(db);
  }

  /** At every moment of every run until the next recovery, crashes included, the records of the manifest that an engine
      began replay to the version which the next recovery starts from. */
  lemma ManifestReplays(states: seq<State>, steps: seq<Durability.Step>, i: nat, k: nat, l: nat)
    requires DurableRun(states, steps) && i <= k < |states| && states[i].up.Some? && l < NUM_LEVELS
    requires forall j :: i <= j < k ==> !steps[j].Reopen?
    ensures VersionBuilder.SavedLevel([], VersionBuilder.Collected(Records(states, steps, i, k), l),
                                      states[k].disk.manifest.v[l])
  {
    hide Durability.Next, ManifestRuns.Written, VersionBuilder.SavedLevel, VersionBuilder.Collected, Created, Records;
    var vs, db := RecordsLead(states, steps, i, k);
    ManifestRuns.WrittenReplays(Records(states, steps, i, k), vs, db, l);
  }
}
