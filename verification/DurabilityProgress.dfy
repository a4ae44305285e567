/** The durable engine can do whatever the merge tree can: every step of the tree is a stretch of steps of the engine,
    over logs, tables and the manifest, that ends with an idle background thread. */
module DurabilityProgress {
  import opened InternalKeys
  import opened Views
  import opened Lsm
  import opened Picking
  import opened CompactionProof
  import opened LsmRuns
  import opened Durability
  import opened DurabilityRuns
  import opened RecoveryRuns

  /** An engine at rest: no write in flight, an idle background thread, and memory that knows of its memtables. */
  ghost predicate Resting(s: State, e: Engine) {
    && s.up == Some(e) && e.bg.Idle? && e.inflight == [] && e.hasImm == e.db.imm.Some? && e.current == e.db.v
    && e.logfile in s.disk.logs
  }

  /** The path leads to an engine at rest with this database. */
  ghost predicate LeadsTo(s: State, path: seq<State>, steps: seq<Durability.Step>, db: Db) {
    && Path(path, steps) && path[0] == s
    && var last := path[|steps|]; last.up.Some? && last.up.value.db == db && Resting(last, last.up.value)
  }

  lemma OneStepLeads(s: State, step: Durability.Step, e': Engine, s': State)
    requires Durability.Next(s, step, s') && Resting(s', e')
    ensures LeadsTo(s, [s, s'], [step], e'.db)
  {
    hide Durability.Next, Resting;
    assert s'.up == Some(e') by { RestingIsUp(s', e'); }
  }

  lemma RestingIsUp(s: State, e: Engine)
    requires Resting(s, e)
    ensures s.up == Some(e)
  {
  }

  /** A batch is logged, then inserted. */
  lemma WriteIsPossible(s: State, e: Engine, batch: Batch, db': Db)
    returns (path: seq<State>, steps: seq<Durability.Step>)
    requires Resting(s, e) && LsmRuns.Next(e.db, Write(batch), db') && batch != []
    ensures LeadsTo(s, path, steps, db')
  {
    hide Sorted;
    var e1, e2 := e.(inflight := batch), e.(db := db');
    var logs := s.disk.logs[e.logfile := s.disk.logs[e.logfile] + [batch]];
    var s1 := s.(disk := s.disk.(logs := logs), up := Some(e1), history := s.history + Of(batch));
    var s2 := s1.(up := Some(e2), acked := s.acked + Of(batch));
    assert Durability.Next(s, Append(batch), s1);
    assert Durability.Next(s1, Insert, s2);
    path, steps := [s, s1, s2], [Append(batch), Insert];
  }

  lemma SwitchIsPossible(s: State, e: Engine, db': Db) returns (path: seq<State>, steps: seq<Durability.Step>)
    requires Resting(s, e) && LsmRuns.Next(e.db, Switch, db')
    ensures LeadsTo(s, path, steps, db')
  {
    var e' := e.(db := db', logfile := e.db.nextFile, hasImm := true);
    var s' := s.(disk := s.disk.(logs := s.disk.logs[e.db.nextFile := []]), bound := e.db.nextFile + 1, up := Some(e'));
    OneStepLeads(s, SwitchMemTable, e', s');
    path, steps := [s, s'], [SwitchMemTable];
  }

  /** After the manifest has a new version, memory takes it over. */
  ghost function Installed(s: State, e: Engine): State {
    var pending := if e.bg.Committed? && e.bg.done.Some? then e.pending - e.bg.done.value.numbers else e.pending;
    s.(up := Some(e.(current := e.db.v, hasImm := e.db.imm.Some?, pending := pending, bg := Idle)))
  }

  lemma InstallIsPossible(s: State, e: Engine)
    requires s.up == Some(e) && e.bg.Committed? && e.inflight == [] && e.logfile in s.disk.logs
    ensures Durability.Next(s, Install, Installed(s, e)) && Installed(s, e).up.Some?
    ensures Resting(Installed(s, e), Installed(s, e).up.value) && Installed(s, e).up.value.db == e.db
  {
  }

  /** The manifest record of a step of the tree. */
  ghost function Recorded(s: State, e: Engine, db': Db, logNumber: nat, pending: set<nat>, done: Option<Job>): State {
    s.(disk := s.disk.(manifest := Manifest(db'.v, logNumber, db'.nextFile, db'.lastSeq)),
       up := Some(e.(db := db', pending := pending, bg := Committed(done))))
  }

  /** A flush writes a table, records it and takes it over. */
  lemma FlushIsPossible(s: State, e: Engine, level: nat, f: File, db': Db)
    returns (path: seq<State>, steps: seq<Durability.Step>)
    requires Resting(s, e) && LsmRuns.Next(e.db, Flush(level, f), db')
    ensures LeadsTo(s, path, steps, db')
  {
    hide FlushLevel, AddedFile, Sorted;
    var n := e.db.nextFile;
    var e1 := e.(bg := Flushing(n), pending := e.pending + {n});
    var s1 := s.(up := Some(e1));
    var s2 := s1.(disk := s.disk.(tables := s.disk.tables[n := f.entries]));
    var s3 := Recorded(s2, e1, db', e.logfile, e1.pending - {n}, None);
    assert Durability.Next(s, BeginFlush, s1);
    assert Durability.Next(s1, WriteTable(n, f.entries), s2);
    assert Durability.Next(s2, CommitFlush(level, f), s3);
    hide Durability.Next, LsmRuns.Next;
    InstallIsPossible(s3, s3.up.value);
    path := [s, s1, s2, s3, Installed(s3, s3.up.value)];
    steps := [BeginFlush, WriteTable(n, f.entries), CommitFlush(level, f), Install];
  }

  lemma FlushEmptyIsPossible(s: State, e: Engine, db': Db) returns (path: seq<State>, steps: seq<Durability.Step>)
    requires Resting(s, e) && LsmRuns.Next(e.db, FlushEmpty, db')
    ensures LeadsTo(s, path, steps, db')
  {
    var n := e.db.nextFile;
    var e1 := e.(bg := Flushing(n), pending := e.pending + {n});
    var s1 := s.(up := Some(e1));
    var s2 := Recorded(s1, e1, db', e.logfile, e1.pending - {n}, None);
    assert Durability.Next(s, BeginFlush, s1);
    assert Durability.Next(s1, CommitEmptyFlush, s2);
    hide Durability.Next, LsmRuns.Next;
    InstallIsPossible(s2, s2.up.value);
    path := [s, s1, s2, Installed(s2, s2.up.value)];
    steps := [BeginFlush, CommitEmptyFlush, Install];
  }

  ghost function WithTables(s: State, files: seq<File>): State
    decreases |files|
  {
    if files == [] then s
    else
      var before, f := WithTables(s, files[..|files| - 1]), files[|files| - 1];
      before.(disk := before.disk.(tables := before.disk.tables[f.number := f.entries]))
  }

  /** Tables of a compaction can be written one after the other. */
  lemma {:induction false} TablesArePossible(s: State, e: Engine, files: seq<File>)
    returns (path: seq<State>, steps: seq<Durability.Step>)
    requires s.up == Some(e) && forall f :: f in files ==> Building(e, f.number)
    ensures Path(path, steps) && path[0] == s && path[|steps|] == WithTables(s, files)
    ensures WithTables(s, files) == s.(disk := s.disk.(tables := WithTables(s, files).disk.tables))
    ensures forall n :: n in WithTables(s, files).disk.tables ==>
      n in s.disk.tables || exists f :: f in files && f.number == n
    ensures DistinctNumbers(files) ==> Stored(WithTables(s, files).disk.tables, files)
    decreases |files|
  {
    hide Sorted;
    if files == [] {
      path, steps := [s], [];
    } else {
      var before, f := files[..|files| - 1], files[|files| - 1];
      assert files == before + [f];
      path, steps := TablesArePossible(s, e, before);
      var s1, s2 := WithTables(s, before), WithTables(s, files);
      assert Building(e, f.number);
      assert Durability.Next(s1, WriteTable(f.number, f.entries), s2);
      hide Durability.Next, Building;
      PathOn(path, steps, WriteTable(f.number, f.entries), s2);
      path, steps := path + [s2], steps + [WriteTable(f.number, f.entries)];
      if DistinctNumbers(files) {
        StoredMore(s1.disk.tables, before, f);
      }
    }
  }

  lemma StoredMore(tables: map<nat, seq<Entry>>, before: seq<File>, f: File)
    requires DistinctNumbers(before + [f]) && (DistinctNumbers(before) ==> Stored(tables, before))
    ensures Stored(tables[f.number := f.entries], before + [f])
  {
    hide Sorted;
    assert forall o :: o in before ==> o in before + [f];
    assert f in before + [f];
  }

  /** A compaction writes its outputs, records them and takes them over. */
  lemma FinishIsPossible(s: State, e: Engine, input: seq<Entry>, outputs: seq<File>, db': Db)
    returns (path: seq<State>, steps: seq<Durability.Step>)
    requires Resting(s, e) && LsmRuns.Next(e.db, Finish(input, outputs), db')
    ensures LeadsTo(s, path, steps, db')
  {
    FinishParts(e.db, input, outputs, db');
    hide LsmRuns.Next, Sorted;
    path, steps := TablesArePossible(s, e, outputs);
    var s1 := WithTables(s, outputs);
    var s2 := Recorded(s1, e, db', s.disk.manifest.logNumber, e.pending, e.db.job);
    assert Durability.Next(s1, CommitCompaction(input, outputs), s2);
    hide Durability.Next, DistinctNumbers, Stored, WithTables;
    InstallIsPossible(s2, s2.up.value);
    PathOn(path, steps, CommitCompaction(input, outputs), s2);
    path, steps := path + [s2], steps + [CommitCompaction(input, outputs)];
    PathOn(path, steps, Install, Installed(s2, s2.up.value));
    path, steps := path + [Installed(s2, s2.up.value)], steps + [Install];
  }

  lemma FinishParts(db: Db, input: seq<Entry>, outputs: seq<File>, db': Db)
    requires LsmRuns.Next(db, Finish(input, outputs), db')
    ensures DistinctNumbers(outputs) && db.job.Some? && forall o :: o in outputs ==> o.number in db.job.value.numbers
  {
    hide Sorted, Produced, Replaced;
  }

  lemma MoveIsPossible(s: State, e: Engine, c: Inputs, db': Db) returns (path: seq<State>, steps: seq<Durability.Step>)
    requires Resting(s, e) && LsmRuns.Next(e.db, Move(c), db')
    ensures LeadsTo(s, path, steps, db')
  {
    hide LsmRuns.Next;
    var s1 := Recorded(s, e, db', s.disk.manifest.logNumber, e.pending, None);
    assert Durability.Next(s, CommitMove(c), s1);
    hide Durability.Next;
    InstallIsPossible(s1, s1.up.value);
    path, steps := [s, s1, Installed(s1, s1.up.value)], [CommitMove(c), Install];
  }

  lemma {:induction false} SortedSame(a: seq<Entry>, b: seq<Entry>)
    requires Sorted(a) && Sorted(b) && forall x :: x in a <==> x in b
    ensures a == b
  {
    assert b != [] ==> b[0] in b;
    if a != [] {
      assert a[0] in b && b[0] in a;
      var i :| 0 <= i < |a| && a[i] == b[0];
      var j :| 0 <= j < |b| && b[j] == a[0];
      assert a[0] == b[0];
      TailMembers(a);
      TailMembers(b);
      SortedSame(a[1..], b[1..]);
    }
  }

  lemma TailMembers(a: seq<Entry>)
    requires Sorted(a) && a != []
    ensures Sorted(a[1..]) && forall x :: x in a[1..] <==> x in a && x != a[0]
  {
    assert a == [a[0]] + a[1..];
    assert forall i :: 1 <= i < |a| ==> Precedes(a[0], a[i]);
  }

  lemma NothingWritten(s: State, e: Engine, db': Db)
    requires Resting(s, e) && LsmRuns.Next(e.db, Write([]), db') && Sorted(e.db.mem)
    ensures LeadsTo(s, [s], [], db')
  {
    SortedSame(e.db.mem, db'.mem);
  }

  /** A step that changes only what the engine knows in memory. */
  lemma SmallStepIsPossible(s: State, e: Engine, step: LsmRuns.Step, db': Db)
    returns (path: seq<State>, steps: seq<Durability.Step>)
    requires Resting(s, e) && LsmRuns.Next(e.db, step, db')
    requires step.Begin? || step.Open? || step.TakeSnapshot? || step.ReleaseSnapshot?
    ensures LeadsTo(s, path, steps, db')
  {
    SameShape(e.db, step, db');
    hide LsmRuns.Next, LeadsTo;
    var e' := e.(db := db', pending := if step.Open? then e.pending + {e.db.nextFile} else e.pending);
    var s' := s.(up := Some(e'));
    var t := match step
      case Begin(c) => BeginCompaction(c)
      case Open => OpenOutput
      case ReleaseSnapshot(q) => Release(q)
      case _ => Snapshot;
    OneStepLeads(s, t, e', s');
    path, steps := [s, s'], [t];
  }

  /** Every step of the merge tree, from every engine at rest. */
  lemma TreeStepIsPossible(s: State, e: Engine, step: LsmRuns.Step, db': Db)
    returns (path: seq<State>, steps: seq<Durability.Step>)
    requires Resting(s, e) && Sorted(e.db.mem) && LsmRuns.Next(e.db, step, db') && !step.Manual?
    ensures LeadsTo(s, path, steps, db')
  {
    hide LeadsTo, LsmRuns.Next, Resting, Sorted;
    match step
    case Write(batch) =>
      if batch == [] {
        NothingWritten(s, e, db');
        path, steps := [s], [];
      } else {
        path, steps := WriteIsPossible(s, e, batch, db');
      }
    case Switch => path, steps := SwitchIsPossible(s, e, db');
    case Flush(level, f) => path, steps := FlushIsPossible(s, e, level, f, db');
    case FlushEmpty => path, steps := FlushEmptyIsPossible(s, e, db');
    case Finish(input, outputs) => path, steps := FinishIsPossible(s, e, input, outputs, db');
    case Move(c) => path, steps := MoveIsPossible(s, e, c, db');
    case _ => path, steps := SmallStepIsPossible(s, e, step, db');
  }

  lemma SameShape(db: Db, step: LsmRuns.Step, db': Db)
    requires LsmRuns.Next(db, step, db') && (step.Begin? || step.Open? || step.TakeSnapshot? || step.ReleaseSnapshot?)
    ensures db'.imm == db.imm && db'.v == db.v
  {
    hide Sorted;
  }

  /** And every stretch of steps of the tree. */
  lemma {:induction false} TreeRunIsPossible(s: State, e: Engine, dbs: seq<Db>, tree: seq<LsmRuns.Step>)
    returns (path: seq<State>, steps: seq<Durability.Step>)
    requires Resting(s, e) && |dbs| == |tree| + 1 && dbs[0] == e.db && (forall k :: 0 <= k < |dbs| ==> DbInv(dbs[k]))
    requires forall k :: 0 <= k < |tree| ==> LsmRuns.Next(dbs[k], tree[k], dbs[k + 1]) && !tree[k].Manual?
    ensures LeadsTo(s, path, steps, dbs[|tree|])
    decreases |tree|
  {
    hide LsmRuns.Next, Durability.Next, Sorted, VersionInv, JobInv;
    if tree == [] {
      path, steps := [s], [];
    } else {
      var n := |tree| - 1;
      path, steps := TreeRunIsPossible(s, e, dbs[..n + 1], tree[..n]);
      var s1 := path[|steps|];
      hide Resting;
      assert DbInv(dbs[n]);
      var p, t := TreeStepIsPossible(s1, s1.up.value, tree[n], dbs[n + 1]);
      PathsJoin(path, steps, p, t);
      path, steps := path + p[1..], steps + t;
    }
  }

  lemma FirstOpened(created: State, db: Db) returns (s: State)
    requires Created(created) && Init(db) && db.nextFile >= 4
    ensures Durability.Next(created, Reopen([], [0], db.nextFile - 1), s)
    ensures s.up.Some? && Resting(s, s.up.value) && s.up.value.db == db
  {
    hide VersionInv, Sorted;
    var n := db.nextFile - 1;
    s := Restarted(created, created.disk.manifest.v, 0, n);
    assert Logged(created.disk, created.bound) == [];
    assert CutInto([], [], [0]);
  }

  /** Every run of the merge tree whose file numbers start behind those of a new database is what the durable engine can
      do with it from its creation on. */
  lemma EveryRunIsPossible(dbs: seq<Db>, tree: seq<LsmRuns.Step>)
    returns (states: seq<State>, steps: seq<Durability.Step>)
    requires Run(dbs, tree) && dbs[0].nextFile >= 4 && forall k :: 0 <= k < |tree| ==> !tree[k].Manual?
    ensures DurableRun(states, steps) && |steps| >= 1
    ensures LeadsTo(states[1], states[1..], steps[1..], dbs[|tree|])
  {
    hide LsmRuns.Next, Durability.Next, DbInv, Resting;
    var created := State(Disk(map[], map[], Manifest([[], [], [], [], [], [], []], 0, 2, 0)), 0, None, iset{}, iset{});
    var first := FirstOpened(created, dbs[0]);
    forall k | 0 <= k < |dbs|
      ensures DbInv(dbs[k])
    {
      RunKeepsInv(dbs, tree, k);
    }
    var path, more := TreeRunIsPossible(first, first.up.value, dbs, tree);
    states, steps := [created] + path, [Reopen([], [0], dbs[0].nextFile - 1)] + more;
    assert states[1..] == path && steps[1..] == more;
  }
}
