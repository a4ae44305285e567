/** What survives a crash: the write-ahead logs, the tables and the manifest, through every run of writers, flushes,
    compactions, file deletion, crashes and recoveries (db/db_impl.cc, db/version_set.cc). */
module Durability {
  import opened InternalKeys
  import opened Views
  import opened Lsm
  import opened Picking
  import opened CompactionProof
  import opened LsmRuns

  type Batch = seq<Entry>

  /** What replaying the manifest gives. */
  datatype Manifest = Manifest(v: Version, logNumber: nat, nextFile: nat, lastSeq: SequenceNumber)

  /** The files: logs and tables by number, and the manifest that CURRENT names. */
  datatype Disk = Disk(logs: map<nat, seq<Batch>>, tables: map<nat, seq<Entry>>, manifest: Manifest)

  /** What the background thread is doing besides the compaction loop. */
  datatype Background =
    | Idle
    | Flushing(number: nat)
    /** The manifest has the new version and memory not yet; `done` is the compaction it ends. */
    | Committed(done: Option<Job>)
    | Deleting(tables: set<nat>, logs: set<nat>)

  /** `db` is the database as the manifest has it; `current` and `hasImm` are what memory shows. */
  datatype Engine = Engine(db: Db, logfile: nat, inflight: Batch, current: Version, hasImm: bool,
                           held: multiset<Version>, pending: set<nat>, bg: Background)

  /** `bound` exceeds every log number; `history` holds every entry that was ever logged, `acked` those of writes that
      returned. */
  datatype State = State(disk: Disk, bound: nat, up: Option<Engine>, history: iset<Entry>, acked: iset<Entry>)

  // ---------------------------------------------------------------------------------------------------------
  // Logs
  // ---------------------------------------------------------------------------------------------------------

  function Flat(batches: seq<Batch>): Batch {
    if batches == [] then [] else Flat(batches[..|batches| - 1]) + batches[|batches| - 1]
  }

  function LogOf(logs: map<nat, seq<Batch>>, n: nat): Batch {
    if n in logs then Flat(logs[n]) else []
  }

  /** The entries of the logs numbered from `from` up to `to`, in the order of the logs. */
  function Replay(logs: map<nat, seq<Batch>>, from: nat, to: nat): Batch {
    if to <= from then [] else Replay(logs, from, to - 1) + LogOf(logs, to - 1)
  }

  ghost predicate Ascending(es: Batch) {
    forall i, j :: 0 <= i < j < |es| ==> es[i].seqno < es[j].seqno
  }

  /** The entries that recovery replays. */
  function Logged(d: Disk, bound: nat): Batch {
    Replay(d.logs, d.manifest.logNumber, bound)
  }

  /** Everything recovery brings back. */
  ghost function Durable(d: Disk, bound: nat): iset<Entry> {
    Entries(d.manifest.v) + Of(Logged(d, bound))
  }

  // ---------------------------------------------------------------------------------------------------------
  // Files
  // ---------------------------------------------------------------------------------------------------------

  ghost predicate Names(v: Version, n: nat) {
    exists l, f :: 0 <= l < NUM_LEVELS && f in v[l] && f.number == n
  }

  ghost predicate OnDisk(tables: map<nat, seq<Entry>>, v: Version) {
    forall l, f :: 0 <= l < NUM_LEVELS && f in v[l] ==> f.number in tables && tables[f.number] == f.entries
  }

  /** The versions that are referenced: by the engine, by readers, or by a compaction. */
  ghost predicate Referenced(e: Engine, v: Version) {
    || v == e.current || v in e.held
    || (e.db.job.Some? && v == e.db.job.value.base)
    || (e.bg.Committed? && e.bg.done.Some? && v == e.bg.done.value.base)
  }

  ghost predicate Building(e: Engine, n: nat) {
    (e.bg.Flushing? && n == e.bg.number) || (e.db.job.Some? && n in e.db.job.value.numbers)
  }

  // ---------------------------------------------------------------------------------------------------------
  // Steps
  // ---------------------------------------------------------------------------------------------------------

  datatype Step =
    | Append(batch: Batch)
    | Insert
    | SwitchMemTable
    | BeginFlush
    | WriteTable(n: nat, entries: seq<Entry>)
    | CommitFlush(level: nat, file: File)
    | CommitEmptyFlush
    | BeginCompaction(c: Inputs)
    | OpenOutput
    | CommitCompaction(input: seq<Entry>, outputs: seq<File>)
    | CommitMove(c: Inputs)
    | Install
    | ListObsolete
    | DeleteTable(n: nat)
    | DeleteLog(n: nat)
    | DeletedAll
    | Snapshot
    | Release(s: SequenceNumber)
    | Hold
    | Unhold(v: Version)
    | Crash
    | RecoveryTable(n: nat, entries: seq<Entry>)
    | RecoveryLog(n: nat)
    | Reopen(files: seq<File>, cuts: seq<nat>, n: nat)

  ghost predicate AppendStep(s: State, e: Engine, batch: Batch, s': State) {
    && e.inflight == []
    && (forall i :: 0 <= i < |batch| ==> batch[i].seqno == e.db.lastSeq + 1 + i)
    && e.db.lastSeq + |batch| < MAX_SEQUENCE
    && e.logfile in s.disk.logs
    && s' == s.(disk := s.disk.(logs := s.disk.logs[e.logfile := s.disk.logs[e.logfile] + [batch]]),
                up := Some(e.(inflight := batch)), history := s.history + Of(batch))
  }

  ghost predicate InsertStep(s: State, e: Engine, s': State) {
    && e.inflight != []
    && s'.up.Some? && LsmRuns.Next(e.db, Write(e.inflight), s'.up.value.db)
    && s' == s.(up := Some(e.(db := s'.up.value.db, inflight := [])), acked := s.acked + Of(e.inflight))
  }

  /** MakeRoomForWrite, by the writer at the head of the queue. */
  ghost predicate SwitchMemTableStep(s: State, e: Engine, s': State) {
    && e.inflight == [] && !e.hasImm
    && s'.up.Some? && LsmRuns.Next(e.db, Switch, s'.up.value.db)
    && s' == s.(disk := s.disk.(logs := s.disk.logs[e.db.nextFile := []]), bound := e.db.nextFile + 1,
                up := Some(e.(db := s'.up.value.db, logfile := e.db.nextFile, hasImm := true)))
  }

  ghost predicate BeginFlushStep(s: State, e: Engine, s': State) {
    && e.bg.Idle? && e.db.imm.Some?
    && s' == s.(up := Some(e.(bg := Flushing(e.db.nextFile), pending := e.pending + {e.db.nextFile})))
  }

  /** A table under construction is on disk with some content. */
  ghost predicate WriteTableStep(s: State, e: Engine, n: nat, entries: seq<Entry>, s': State) {
    Building(e, n) && s' == s.(disk := s.disk.(tables := s.disk.tables[n := entries]))
  }

  ghost predicate Stored(tables: map<nat, seq<Entry>>, files: seq<File>) {
    forall f :: f in files ==> f.number in tables && tables[f.number] == f.entries
  }

  /** LogAndApply: the manifest record with the new version, the log number, and the counters. */
  ghost predicate Commit(s: State, e: Engine, step: LsmRuns.Step, logNumber: nat, pending: set<nat>, done: Option<Job>,
                         s': State)
  {
    && s'.up.Some? && LsmRuns.Next(e.db, step, s'.up.value.db)
    && var db' := s'.up.value.db;
    && s' == s.(disk := s.disk.(manifest := Manifest(db'.v, logNumber, db'.nextFile, db'.lastSeq)),
                up := Some(e.(db := db', pending := pending, bg := Committed(done))))
  }

  ghost predicate CommitFlushStep(s: State, e: Engine, level: nat, f: File, s': State) {
    && e.bg == Flushing(f.number) && Stored(s.disk.tables, [f])
    && Commit(s, e, Flush(level, f), e.logfile, e.pending - {f.number}, None, s')
  }

  ghost predicate CommitEmptyFlushStep(s: State, e: Engine, s': State) {
    && e.bg == Flushing(e.db.nextFile)
    && Commit(s, e, FlushEmpty, e.logfile, e.pending - {e.db.nextFile}, None, s')
  }

  ghost predicate BeginCompactionStep(s: State, e: Engine, c: Inputs, s': State) {
    && e.bg.Idle? && s'.up.Some? && LsmRuns.Next(e.db, Begin(c), s'.up.value.db)
    && s' == s.(up := Some(e.(db := s'.up.value.db)))
  }

  ghost predicate OpenOutputStep(s: State, e: Engine, s': State) {
    && e.bg.Idle? && s'.up.Some? && LsmRuns.Next(e.db, Open, s'.up.value.db)
    && s' == s.(up := Some(e.(db := s'.up.value.db, pending := e.pending + {e.db.nextFile})))
  }

  ghost predicate CommitCompactionStep(s: State, e: Engine, input: seq<Entry>, outputs: seq<File>, s': State) {
    && e.bg.Idle? && Stored(s.disk.tables, outputs)
    && Commit(s, e, Finish(input, outputs), s.disk.manifest.logNumber, e.pending, e.db.job, s')
  }

  ghost predicate CommitMoveStep(s: State, e: Engine, c: Inputs, s': State) {
    && e.bg.Idle? && Commit(s, e, Move(c), s.disk.manifest.logNumber, e.pending, None, s')
  }

  ghost predicate InstallVersionStep(s: State, e: Engine, s': State) {
    && e.bg.Committed?
    && var pending := if e.bg.done.Some? then e.pending - e.bg.done.value.numbers else e.pending;
    && s' == s.(up := Some(e.(current := e.db.v, hasImm := e.db.imm.Some?, pending := pending, bg := Idle)))
  }

  /** RemoveObsoleteFiles up to the point where it releases the mutex. */
  ghost predicate ListObsoleteStep(s: State, e: Engine, s': State) {
    && e.bg.Idle? && s'.up.Some? && s'.up.value.bg.Deleting?
    && (forall n :: n in s'.up.value.bg.tables <==>
        n in s.disk.tables && n !in e.pending && forall v :: Referenced(e, v) ==> !Names(v, n))
    && (forall n :: n in s'.up.value.bg.logs <==> n in s.disk.logs && n < s.disk.manifest.logNumber)
    && s' == s.(up := Some(e.(bg := s'.up.value.bg)))
  }

  ghost predicate ReaderStep(s: State, e: Engine, step: Step, s': State) {
    match step
    case Snapshot =>
      s'.up.Some? && LsmRuns.Next(e.db, TakeSnapshot, s'.up.value.db) && s' == s.(up := Some(e.(db := s'.up.value.db)))
    case Release(q) =>
      s'.up.Some? && LsmRuns.Next(e.db, ReleaseSnapshot(q), s'.up.value.db)
        && s' == s.(up := Some(e.(db := s'.up.value.db)))
    case Hold => s' == s.(up := Some(e.(held := e.held + multiset{e.current})))
    case Unhold(v) => v in e.held && s' == s.(up := Some(e.(held := e.held - multiset{v})))
    case _ => false
  }

  ghost predicate DeletingStep(s: State, e: Engine, step: Step, s': State) {
    && e.bg.Deleting?
    && match step
       case DeleteTable(n) => n in e.bg.tables && s' == s.(disk := s.disk.(tables := s.disk.tables - {n}))
       case DeleteLog(n) => n in e.bg.logs && s' == s.(disk := s.disk.(logs := s.disk.logs - {n}))
       case DeletedAll => s' == s.(up := Some(e.(bg := Idle)))
       case _ => false
  }

  /** The replayed entries, cut into runs, each of which became one table of level 0. */
  ghost predicate CutInto(es: Batch, files: seq<File>, cuts: seq<nat>) {
    && |cuts| == |files| + 1 && cuts[0] == 0 && cuts[|files|] == |es|
    && (forall i, j :: 0 <= i <= j < |cuts| ==> cuts[i] <= cuts[j])
    && forall i :: 0 <= i < |files| ==> SameEntries(files[i], es, cuts[i], cuts[i + 1])
  }

  ghost predicate SameEntries(f: File, es: Batch, i: int, j: int) {
    && (forall x :: x in f.entries ==> exists k :: 0 <= i <= k < j <= |es| && es[k] == x)
    && (forall k :: 0 <= i <= k < j <= |es| ==> es[k] in f.entries)
  }

  /** Numbers given out while recovering follow the manifest's counter, and the new log follows everything. */
  ghost predicate RecoveredNumbers(d: Disk, files: seq<File>, n: nat) {
    && (forall i :: 0 <= i < |files| ==> d.manifest.nextFile < files[i].number < n)
    && (forall i, j :: 0 <= i < j < |files| ==> files[i].number < files[j].number)
    && d.manifest.nextFile < n && d.manifest.logNumber < n
    && (forall k :: k in d.logs && d.manifest.logNumber <= k ==> k < n)
  }

  ghost predicate RecoveredSequence(d: Disk, es: Batch, q: SequenceNumber) {
    && d.manifest.lastSeq <= q && (forall x :: x in es ==> x.seqno <= q)
    && (q == d.manifest.lastSeq || exists x :: x in es && x.seqno == q)
  }

  ghost predicate ReopenStep(s: State, files: seq<File>, cuts: seq<nat>, n: nat, s': State) {
    && var es := Logged(s.disk, s.bound);
    && OnDisk(s.disk.tables, s.disk.manifest.v)
    && CutInto(es, files, cuts) && RecoveredNumbers(s.disk, files, n) && Stored(s.disk.tables, files)
    && s'.up.Some?
    && var db' := s'.up.value.db;
    && Changed(s.disk.manifest.v, db'.v, 0, [], files)
    && (forall l :: 1 <= l < NUM_LEVELS ==> db'.v[l] == s.disk.manifest.v[l])
    && RecoveredSequence(s.disk, es, db'.lastSeq)
    && db' == Db([], None, db'.v, db'.lastSeq, multiset{}, n + 1, None)
    && s' == State(Disk(s.disk.logs[n := []], s.disk.tables, Manifest(db'.v, n, n + 1, db'.lastSeq)), n + 1,
                   Some(Engine(db', n, [], db'.v, false, multiset{}, {}, Idle)), s.history, s.acked)
  }

  ghost predicate DownStep(s: State, step: Step, s': State) {
    match step
    case RecoveryTable(n, entries) =>
      s.disk.manifest.nextFile < n && s' == s.(disk := s.disk.(tables := s.disk.tables[n := entries]))
    case RecoveryLog(n) =>
      && s.disk.manifest.logNumber < n && (forall k :: k in s.disk.logs && s.disk.manifest.logNumber <= k ==> k < n)
      && s' == s.(disk := s.disk.(logs := s.disk.logs[n := []]), bound := if s.bound <= n then n + 1 else s.bound)
    case Reopen(files, cuts, n) => ReopenStep(s, files, cuts, n, s')
    case _ => false
  }

  ghost predicate UpStep(s: State, e: Engine, step: Step, s': State) {
    match step
    case Append(batch) => AppendStep(s, e, batch, s')
    case Insert => InsertStep(s, e, s')
    case SwitchMemTable => SwitchMemTableStep(s, e, s')
    case BeginFlush => BeginFlushStep(s, e, s')
    case WriteTable(n, entries) => WriteTableStep(s, e, n, entries, s')
    case CommitFlush(level, f) => CommitFlushStep(s, e, level, f, s')
    case CommitEmptyFlush => CommitEmptyFlushStep(s, e, s')
    case BeginCompaction(c) => BeginCompactionStep(s, e, c, s')
    case OpenOutput => OpenOutputStep(s, e, s')
    case CommitCompaction(input, outputs) => CommitCompactionStep(s, e, input, outputs, s')
    case CommitMove(c) => CommitMoveStep(s, e, c, s')
    case Install => InstallVersionStep(s, e, s')
    case ListObsolete => ListObsoleteStep(s, e, s')
    case DeleteTable(_) => DeletingStep(s, e, step, s')
    case DeleteLog(_) => DeletingStep(s, e, step, s')
    case DeletedAll => DeletingStep(s, e, step, s')
    case Crash => s' == s.(up := None)
    case _ => ReaderStep(s, e, step, s')
  }

  ghost predicate Next(s: State, step: Step, s': State) {
    if s.up.Some? then UpStep(s, s.up.value, step, s') else DownStep(s, step, s')
  }
}
