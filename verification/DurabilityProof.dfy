/** No run of the engine, crashes included, loses a logged write or a table that something refers to. */
module DurabilityProof {
  import opened InternalKeys
  import opened Views
  import opened Lsm
  import opened Picking
  import opened CompactionProof
  import opened LsmRuns
  import opened Durability

  // ---------------------------------------------------------------------------------------------------------
  // The invariant of a running engine
  // ---------------------------------------------------------------------------------------------------------

  /** The logs from the manifest's log number on hold the memtables, the immutable one first, and then the write in
      flight. */
  ghost predicate LogInv(logs: map<nat, seq<Batch>>, logNumber: nat, bound: nat, logfile: nat, mem: Batch,
                         imm: Option<Batch>, lastSeq: nat, inflight: Batch)
  {
    && bound == logfile + 1 && logNumber <= logfile && logfile in logs && (forall n :: n in logs ==> n < bound)
    && (forall x :: x in Replay(logs, logNumber, logfile) <==> imm.Some? && x in imm.value)
    && (forall x :: x in LogOf(logs, logfile) <==> x in mem || x in inflight)
    && Ascending(Replay(logs, logNumber, bound))
    && (forall i :: 0 <= i < |inflight| ==> inflight[i].seqno == lastSeq + 1 + i)
    && lastSeq + |inflight| < MAX_SEQUENCE
  }

  ghost predicate ManifestInv(m: Manifest, v: Version, lastSeq: nat, nextFile: nat) {
    && m.v == v && m.lastSeq <= lastSeq && m.nextFile <= nextFile && NumbersBelow(v, m.nextFile)
    && (forall x :: InVersion(v, x) ==> x.seqno <= m.lastSeq)
  }

  /** The last sequence number can be found again in the manifest or in the logs. */
  ghost predicate SequenceKnown(m: Manifest, es: Batch, lastSeq: nat) {
    lastSeq <= m.lastSeq || exists x :: x in es && lastSeq <= x.seqno
  }

  ghost predicate Live(v: Version, current: Version, held: multiset<Version>, job: Option<Job>, bg: Background,
                       w: Version)
  {
    || w == v || w == current || w in held
    || (job.Some? && w == job.value.base)
    || (bg.Committed? && bg.done.Some? && w == bg.done.value.base)
  }

  ghost predicate UnderConstruction(job: Option<Job>, bg: Background, n: nat) {
    (bg.Flushing? && n == bg.number) || (job.Some? && n in job.value.numbers)
  }

  ghost predicate FilesInv(tables: map<nat, seq<Entry>>, logNumber: nat, v: Version, nextFile: nat, job: Option<Job>,
                           current: Version, held: multiset<Version>, pending: set<nat>, bg: Background)
  {
    && (forall w :: Live(v, current, held, job, bg, w) ==> OnDisk(tables, w) && NumbersBelow(w, nextFile))
    && (forall w, n :: Live(v, current, held, job, bg, w) && UnderConstruction(job, bg, n) ==> !Names(w, n))
    && (forall n :: UnderConstruction(job, bg, n) ==> n in pending)
    && (bg.Flushing? ==> bg.number == nextFile)
    && (!bg.Committed? ==> current == v)
    && (bg.Committed? && bg.done.Some? ==> job.None?)
    && (bg.Deleting? ==>
          && (forall w, n :: Live(v, current, held, job, bg, w) && n in bg.tables ==> !Names(w, n))
          && (forall n :: n in bg.tables ==> n !in pending)
          && (forall n :: n in bg.logs ==> n < logNumber))
  }

  ghost predicate HistoryInv(lastSeq: nat, inflight: Batch, history: iset<Entry>, acked: iset<Entry>) {
    && UniqueSeqs(history) && acked <= history
    && (forall x :: x in history ==> x.seqno <= lastSeq || x in inflight)
    && (forall x :: x in inflight ==> x in history)
  }

  ghost predicate EngineInv(s: State, e: Engine) {
    && s.up == Some(e) && DbInv(e.db)
    && LogInv(s.disk.logs, s.disk.manifest.logNumber, s.bound, e.logfile, e.db.mem, e.db.imm, e.db.lastSeq, e.inflight)
    && ManifestInv(s.disk.manifest, e.db.v, e.db.lastSeq, e.db.nextFile)
    && SequenceKnown(s.disk.manifest, Logged(s.disk, s.bound), e.db.lastSeq)
    && FilesInv(s.disk.tables, s.disk.manifest.logNumber, e.db.v, e.db.nextFile, e.db.job, e.current, e.held, e.pending,
                e.bg)
    && HistoryInv(e.db.lastSeq, e.inflight, s.history, s.acked)
    && e.logfile < e.db.nextFile && (!e.hasImm ==> e.db.imm.None?) && (e.bg.Flushing? ==> e.db.imm.Some?)
  }

  // ---------------------------------------------------------------------------------------------------------
  // What holds of the disk alone
  // ---------------------------------------------------------------------------------------------------------

  /** `q` is at or above every sequence number on disk. */
  ghost predicate TopOf(d: Disk, bound: nat, q: nat) {
    d.manifest.lastSeq <= q && forall x :: x in Logged(d, bound) ==> x.seqno <= q
  }

  /** The tables of the manifest are there, the logs continue them, and nothing else can be mistaken for either. */
  ghost predicate DiskInv(d: Disk, bound: nat) {
    && d.manifest.logNumber <= bound && (forall n :: n in d.logs ==> n < bound)
    && VersionInv(d.manifest.v) && NumbersBelow(d.manifest.v, d.manifest.nextFile) && OnDisk(d.tables, d.manifest.v)
    && (forall x :: InVersion(d.manifest.v, x) ==> x.seqno <= d.manifest.lastSeq)
    && d.manifest.lastSeq < MAX_SEQUENCE
    && Ascending(Logged(d, bound)) && NewerThanVersion(Logged(d, bound), d.manifest.v)
    && (forall x :: x in Logged(d, bound) ==> x.seqno < MAX_SEQUENCE)
  }

  /** No logged write has a sequence number that recovery could give out again. */
  ghost predicate Recoverable(d: Disk, bound: nat, history: iset<Entry>, acked: iset<Entry>) {
    && UniqueSeqs(history) && acked <= history
    && (forall q: nat, x :: TopOf(d, bound, q) && x in history ==> x.seqno <= q)
  }

  lemma ReplaySplit(logs: map<nat, seq<Batch>>, from: nat, logfile: nat)
    requires from <= logfile
    ensures Replay(logs, from, logfile + 1) == Replay(logs, from, logfile) + LogOf(logs, logfile)
  {
  }

  /** What a crash would leave is what memory has, with the write in flight. */
  lemma DurableIsContents(s: State, e: Engine)
    requires EngineInv(s, e)
    ensures Durable(s.disk, s.bound) == Contents(e.db) + Of(e.inflight)
    ensures forall x :: x in Logged(s.disk, s.bound) <==> x in MemEntries(e.db) || x in e.inflight
  {
    hide DbInv, FilesInv, HistoryInv, Replay, LogOf, InVersion;
    ReplaySplit(s.disk.logs, s.disk.manifest.logNumber, e.logfile);
    assert Durable(s.disk, s.bound) == Contents(e.db) + Of(e.inflight);
  }

  /** In every state of a running engine, a crash is safe. */
  lemma RunningIsSafe(s: State, e: Engine)
    requires EngineInv(s, e)
    ensures DiskInv(s.disk, s.bound) && Recoverable(s.disk, s.bound, s.history, s.acked)
  {
    hide VersionInv, JobInv, Replay, LogOf, InVersion, View, OnDisk, NumbersBelow;
    DurableIsContents(s, e);
    var es := Logged(s.disk, s.bound);
    assert OnDisk(s.disk.tables, e.db.v) by {
      assert Live(e.db.v, e.current, e.held, e.db.job, e.bg, e.db.v);
    }
    hide FilesInv;
    assert forall x :: x in e.inflight ==> e.db.lastSeq < x.seqno < MAX_SEQUENCE;
    assert forall x :: x in MemEntries(e.db) ==> x in Contents(e.db);
    assert forall x :: InVersion(e.db.v, x) ==> x in Contents(e.db);
    assert NewerThanVersion(es, e.db.v);
    forall q: nat | TopOf(s.disk, s.bound, q)
      ensures e.db.lastSeq <= q
    {
    }
  }

  // ---------------------------------------------------------------------------------------------------------
  // Writers
  // ---------------------------------------------------------------------------------------------------------

  lemma {:induction false} ReplayFrame(logs: map<nat, seq<Batch>>, logs': map<nat, seq<Batch>>, from: nat, to: nat)
    requires forall n :: from <= n < to ==> LogOf(logs', n) == LogOf(logs, n)
    ensures Replay(logs', from, to) == Replay(logs, from, to)
  {
    hide LogOf;
    if from < to {
      ReplayFrame(logs, logs', from, to - 1);
    }
  }

  lemma {:induction false} ReplayBeyond(logs: map<nat, seq<Batch>>, from: nat, to: nat, beyond: nat)
    requires from <= to <= beyond && forall n :: to <= n < beyond ==> LogOf(logs, n) == []
    ensures Replay(logs, from, beyond) == Replay(logs, from, to)
    decreases beyond
  {
    hide LogOf;
    if to < beyond {
      ReplayBeyond(logs, from, to, beyond - 1);
    }
  }

  lemma FlatAppend(batches: seq<Batch>, batch: Batch)
    ensures Flat(batches + [batch]) == Flat(batches) + batch
  {
    assert (batches + [batch])[..|batches|] == batches;
  }

  lemma AscendingAppend(es: Batch, batch: Batch, lastSeq: nat)
    requires Ascending(es) && forall x :: x in es ==> x.seqno <= lastSeq
    requires forall i :: 0 <= i < |batch| ==> batch[i].seqno == lastSeq + 1 + i
    ensures Ascending(es + batch)
  {
  }

  lemma AppendLog(logs: map<nat, seq<Batch>>, logNumber: nat, bound: nat, logfile: nat, mem: Batch, imm: Option<Batch>,
                  lastSeq: nat, batch: Batch)
    requires LogInv(logs, logNumber, bound, logfile, mem, imm, lastSeq, [])
    requires forall x :: x in mem || (imm.Some? && x in imm.value) ==> x.seqno <= lastSeq
    requires forall i :: 0 <= i < |batch| ==> batch[i].seqno == lastSeq + 1 + i
    requires lastSeq + |batch| < MAX_SEQUENCE
    ensures var logs' := logs[logfile := logs[logfile] + [batch]];
      && LogInv(logs', logNumber, bound, logfile, mem, imm, lastSeq, batch)
      && Replay(logs', logNumber, bound) == Replay(logs, logNumber, bound) + batch
  {
    hide Replay, Ascending, LogOf;
    var logs' := logs[logfile := logs[logfile] + [batch]];
    assert LogOf(logs', logfile) == LogOf(logs, logfile) + batch by { LogGrows(logs, logfile, batch); }
    assert Replay(logs', logNumber, logfile) == Replay(logs, logNumber, logfile) by {
      OtherLogs(logs, logfile, logNumber, batch);
    }
    ReplaySplit(logs, logNumber, logfile);
    ReplaySplit(logs', logNumber, logfile);
    var old', own := Replay(logs, logNumber, logfile), LogOf(logs, logfile);
    assert old' + (own + batch) == (old' + own) + batch;
    AscendingAppend(old' + own, batch, lastSeq);
  }

  lemma LogGrows(logs: map<nat, seq<Batch>>, logfile: nat, batch: Batch)
    requires logfile in logs
    ensures LogOf(logs[logfile := logs[logfile] + [batch]], logfile) == LogOf(logs, logfile) + batch
  {
    hide Flat;
    FlatAppend(logs[logfile], batch);
  }

  lemma OtherLogs(logs: map<nat, seq<Batch>>, logfile: nat, logNumber: nat, batch: Batch)
    requires logfile in logs
    ensures Replay(logs[logfile := logs[logfile] + [batch]], logNumber, logfile) == Replay(logs, logNumber, logfile)
  {
    hide Replay, Flat;
    ReplayFrame(logs, logs[logfile := logs[logfile] + [batch]], logNumber, logfile);
  }

  lemma BatchUnique(a: iset<Entry>, batch: Batch, lastSeq: nat)
    requires UniqueSeqs(a) && forall x :: x in a ==> x.seqno <= lastSeq
    requires forall i :: 0 <= i < |batch| ==> batch[i].seqno == lastSeq + 1 + i
    ensures UniqueSeqs(a + Of(batch))
    ensures forall b, x :: b in Of(batch) && x in a ==> x.seqno < b.seqno
  {
  }

  lemma AppendHistory(lastSeq: nat, batch: Batch, history: iset<Entry>, acked: iset<Entry>)
    requires HistoryInv(lastSeq, [], history, acked)
    requires forall i :: 0 <= i < |batch| ==> batch[i].seqno == lastSeq + 1 + i
    ensures HistoryInv(lastSeq, batch, history + Of(batch), acked)
  {
    hide UniqueSeqs;
    BatchUnique(history, batch, lastSeq);
  }

  lemma AppendKeeps(s: State, e: Engine, batch: Batch, s': State)
    requires EngineInv(s, e) && AppendStep(s, e, batch, s')
    ensures EngineInv(s', s'.up.value)
  {
    hide VersionInv, JobInv, Replay, LogOf, InVersion, View, FilesInv, ManifestInv, NumbersBelow, LogInv, HistoryInv;
    assert forall x :: x in MemEntries(e.db) ==> x in Contents(e.db);
    assert e.db.imm.Some? ==> forall x :: x in e.db.imm.value ==> x in MemEntries(e.db);
    assert forall x :: x in e.db.mem ==> x in MemEntries(e.db);
    AppendLog(s.disk.logs, s.disk.manifest.logNumber, s.bound, e.logfile, e.db.mem, e.db.imm, e.db.lastSeq, batch);
    AppendHistory(e.db.lastSeq, batch, s.history, s.acked);
  }

  lemma InsertKeeps(s: State, e: Engine, s': State)
    requires EngineInv(s, e) && InsertStep(s, e, s')
    ensures EngineInv(s', s'.up.value)
  {
    hide VersionInv, JobInv, MemInv, NumbersBelow, Replay, LogOf, InVersion, View, FilesInv, Sorted, Ascending,
         UniqueSeqs;
    var db' := s'.up.value.db;
    assert DbInv(db') by { StepKeepsInv(e.db, Write(e.inflight), db'); }
    assert SequenceKnown(s.disk.manifest, Logged(s.disk, s.bound), db'.lastSeq) by {
      DurableIsContents(s, e);
      var last := e.inflight[|e.inflight| - 1];
      assert last in Logged(s.disk, s.bound) && last.seqno == db'.lastSeq;
    }
    hide SequenceKnown;
    assert forall x :: x in e.inflight ==> x.seqno <= db'.lastSeq;
  }

  lemma SwitchLog(logs: map<nat, seq<Batch>>, logNumber: nat, bound: nat, logfile: nat, mem: Batch, lastSeq: nat,
                  n: nat)
    requires LogInv(logs, logNumber, bound, logfile, mem, None, lastSeq, []) && logfile < n
    ensures LogInv(logs[n := []], logNumber, n + 1, n, [], Some(mem), lastSeq, [])
    ensures Replay(logs[n := []], logNumber, n + 1) == Replay(logs, logNumber, bound)
  {
    hide Replay, Ascending;
    var logs' := logs[n := []];
    ReplayBeyond(logs', logNumber, bound, n);
    ReplayFrame(logs, logs', logNumber, bound);
    ReplaySplit(logs, logNumber, logfile);
    ReplaySplit(logs', logNumber, n);
    assert LogOf(logs', n) == [];
    assert Replay(logs', logNumber, n + 1) == Replay(logs, logNumber, bound);
    forall x
      ensures x in Replay(logs', logNumber, n) <==> x in mem
    {
      assert x in Replay(logs, logNumber, bound) <==>
        x in Replay(logs, logNumber, logfile) || x in LogOf(logs, logfile);
    }
  }

  lemma SwitchKeeps(s: State, e: Engine, s': State)
    requires EngineInv(s, e) && SwitchMemTableStep(s, e, s')
    ensures EngineInv(s', s'.up.value)
  {
    hide VersionInv, JobInv, MemInv, Replay, LogOf, InVersion, View, Sorted, LogInv, HistoryInv, FilesInv;
    var db' := s'.up.value.db;
    assert DbInv(db') by { StepKeepsInv(e.db, Switch, db'); }
    assert Contents(db') == Contents(e.db) by { SwitchKeepsInv(e.db, db'); }
    SwitchLog(s.disk.logs, s.disk.manifest.logNumber, s.bound, e.logfile, e.db.mem, e.db.lastSeq, e.db.nextFile);
    FilesNext(s.disk.tables, s.disk.manifest.logNumber, e.db.v, e.db.nextFile, e.db.job, e.current, e.held, e.pending,
              e.bg, db'.nextFile);
  }

  lemma FilesNext(tables: map<nat, seq<Entry>>, logNumber: nat, v: Version, nextFile: nat, job: Option<Job>,
                  current: Version, held: multiset<Version>, pending: set<nat>, bg: Background, nextFile': nat)
    requires FilesInv(tables, logNumber, v, nextFile, job, current, held, pending, bg)
    requires nextFile <= nextFile' && !bg.Flushing?
    ensures FilesInv(tables, logNumber, v, nextFile', job, current, held, pending, bg)
  {
    hide Live, OnDisk, Names;
    forall w | Live(v, current, held, job, bg, w)
      ensures NumbersBelow(w, nextFile')
    {
    }
  }

  // ---------------------------------------------------------------------------------------------------------
  // Commits
  // ---------------------------------------------------------------------------------------------------------

  lemma FilesCommit(tables: map<nat, seq<Entry>>, logNumber: nat, v: Version, nextFile: nat, job: Option<Job>,
                    current: Version, held: multiset<Version>, pending: set<nat>, bg: Background,
                    logNumber': nat, v': Version, nextFile': nat, job': Option<Job>, pending': set<nat>,
                    done: Option<Job>)
    requires FilesInv(tables, logNumber, v, nextFile, job, current, held, pending, bg) && !bg.Committed?
    requires OnDisk(tables, v') && NumbersBelow(v', nextFile') && nextFile <= nextFile'
    requires job'.Some? ==> job' == job
    requires done.Some? ==> done == job && job'.None?
    requires job'.Some? ==> forall n :: n in job'.value.numbers ==> !Names(v', n) && n in pending'
    ensures FilesInv(tables, logNumber', v', nextFile', job', current, held, pending', Committed(done))
  {
    hide OnDisk, Names, Live;
    var bg' := Committed(done);
    forall w | Live(v', current, held, job', bg', w)
      ensures w == v' || Live(v, current, held, job, bg, w)
    {
      LiveShrinks(v, current, held, job, bg, v', job', bg', w);
    }
    assert forall w :: Live(v, current, held, job, bg, w) ==> NumbersBelow(w, nextFile');
    hide NumbersBelow;
    assert forall n :: UnderConstruction(job', bg', n) ==> UnderConstruction(job, bg, n);
  }

  lemma LiveShrinks(v: Version, current: Version, held: multiset<Version>, job: Option<Job>, bg: Background,
                    v': Version, job': Option<Job>, bg': Background, w: Version)
    requires job'.Some? ==> job' == job
    requires bg'.Committed? && bg'.done.Some? ==> bg'.done == job
    requires Live(v', current, held, job', bg', w)
    ensures w == v' || Live(v, current, held, job, bg, w)
  {
  }

  lemma CommitManifest(db: Db, logNumber: nat)
    requires DbInv(db)
    ensures ManifestInv(Manifest(db.v, logNumber, db.nextFile, db.lastSeq), db.v, db.lastSeq, db.nextFile)
  {
    hide VersionInv, JobInv, Sorted, InVersion, NumbersBelow;
    assert forall x :: InVersion(db.v, x) ==> x in Contents(db);
  }

  lemma FlushLogs(logs: map<nat, seq<Batch>>, logNumber: nat, bound: nat, logfile: nat, mem: Batch, imm: Option<Batch>,
                  lastSeq: nat, inflight: Batch)
    requires LogInv(logs, logNumber, bound, logfile, mem, imm, lastSeq, inflight)
    ensures LogInv(logs, logfile, bound, logfile, mem, None, lastSeq, inflight)
  {
    hide LogOf, Replay, Ascending;
    ReplaySplit(logs, logNumber, logfile);
    ReplaySplit(logs, logfile, logfile);
    ReplayNothing(logs, logfile);
    var before, own := Replay(logs, logNumber, logfile), LogOf(logs, logfile);
    assert [] + own == own;
    AscendingSuffix(before, own);
  }

  lemma ReplayNothing(logs: map<nat, seq<Batch>>, n: nat)
    ensures Replay(logs, n, n) == []
  {
  }

  lemma AscendingSuffix(before: Batch, own: Batch)
    requires Ascending(before + own)
    ensures Ascending(own)
  {
    forall i, j | 0 <= i < j < |own|
      ensures own[i].seqno < own[j].seqno
    {
      assert (before + own)[|before| + i] == own[i] && (before + own)[|before| + j] == own[j];
    }
  }

  lemma AddedOnDisk(tables: map<nat, seq<Entry>>, v: Version, level: nat, f: File, v': Version)
    requires OnDisk(tables, v) && AddedFile(v, level, f, v') && Stored(tables, [f])
    ensures OnDisk(tables, v')
  {
    hide Sorted, StrictlyOrdered;
    assert f in [f];
    forall l, g | 0 <= l < NUM_LEVELS && g in v'[l]
      ensures g.number in tables && tables[g.number] == g.entries
    {
      assert g in v[l] || g == f;
    }
  }

  lemma ReplacedOnDisk(tables: map<nat, seq<Entry>>, v: Version, c: Inputs, outputs: seq<File>, v': Version)
    requires c.level + 1 < NUM_LEVELS && OnDisk(tables, v) && Replaced(v, c, outputs, v') && Stored(tables, outputs)
    ensures OnDisk(tables, v')
  {
    hide Sorted, StrictlyOrdered;
    forall l, g | 0 <= l < NUM_LEVELS && g in v'[l]
      ensures g.number in tables && tables[g.number] == g.entries
    {
      assert g in v[l] || g in outputs;
    }
  }

  lemma InputsOnDisk(tables: map<nat, seq<Entry>>, v: Version, c: Inputs)
    requires OnDisk(tables, v) && Picked(v, c)
    ensures Stored(tables, c.in0)
  {
    hide Sorted, OlderClosed, TakesOverlap, IsSmallest, IsLargest;
  }

  lemma ReservedNotNamed(v: Version, next: nat, numbers: set<nat>)
    requires Reserved(v, next, numbers)
    ensures forall n :: n in numbers ==> !Names(v, n)
  {
    hide Sorted;
  }

  /** A commit whose new database has the same contents. */
  lemma CommitKeeps(s: State, e: Engine, step: LsmRuns.Step, logNumber: nat, pending: set<nat>, done: Option<Job>,
                    s': State)
    requires EngineInv(s, e) && Commit(s, e, step, logNumber, pending, done, s')
    requires !e.bg.Committed? && var db' := s'.up.value.db;
      && DbInv(db') && db'.mem == e.db.mem && db'.lastSeq == e.db.lastSeq && db'.snapshots == e.db.snapshots
        && e.db.nextFile <= db'.nextFile
      && LogInv(s.disk.logs, logNumber, s.bound, e.logfile, e.db.mem, db'.imm, e.db.lastSeq, e.inflight)
      && OnDisk(s.disk.tables, db'.v)
      && (db'.imm.Some? ==> db'.imm == e.db.imm)
      && (db'.job.Some? ==> db'.job == e.db.job && forall n :: n in db'.job.value.numbers ==> n in pending)
      && (done.Some? ==> done == e.db.job && db'.job.None?)
    ensures EngineInv(s', s'.up.value)
  {
    hide VersionInv, MemInv, Replay, LogOf, InVersion, View, Sorted, LogInv, HistoryInv, FilesInv, OnDisk, JobOk,
         Connected, Names, ManifestInv, LsmRuns.Next;
    var db' := s'.up.value.db;
    CommitManifest(db', logNumber);
    if db'.job.Some? {
      ReservedNotNamed(db'.v, db'.nextFile, db'.job.value.numbers);
    }
    FilesCommit(s.disk.tables, s.disk.manifest.logNumber, e.db.v, e.db.nextFile, e.db.job, e.current, e.held, e.pending,
                e.bg, logNumber, db'.v, db'.nextFile, db'.job, pending, done);
  }

  lemma EngineFacts(s: State, e: Engine)
    requires EngineInv(s, e)
    ensures OnDisk(s.disk.tables, e.db.v)
    ensures e.db.job.Some? ==> forall n :: n in e.db.job.value.numbers ==> n in e.pending && n < e.db.nextFile
    ensures !e.bg.Committed? ==> e.current == e.db.v
    ensures e.bg.Flushing? ==> e.bg.number == e.db.nextFile
  {
    hide VersionInv, MemInv, LogInv, HistoryInv, OnDisk, JobOk, Connected, Names, ManifestInv, NumbersBelow;
    assert Live(e.db.v, e.current, e.held, e.db.job, e.bg, e.db.v);
    assert e.db.job.Some? ==> forall n :: n in e.db.job.value.numbers ==> UnderConstruction(e.db.job, e.bg, n);
  }

  lemma CommitFlushKeeps(s: State, e: Engine, level: nat, f: File, s': State)
    requires EngineInv(s, e) && CommitFlushStep(s, e, level, f, s')
    ensures EngineInv(s', s'.up.value)
  {
    hide VersionInv, MemInv, JobInv, Replay, LogOf, InVersion, View, Sorted, LogInv, HistoryInv, FilesInv, OnDisk,
         Names, ManifestInv, Stored, AddedFile, NumbersBelow, FlushLevel;
    var db' := s'.up.value.db;
    EngineFacts(s, e);
    FlushStepKeepsInv(e.db, level, f, db');
    FlushLogs(s.disk.logs, s.disk.manifest.logNumber, s.bound, e.logfile, e.db.mem, e.db.imm, e.db.lastSeq, e.inflight);
    AddedOnDisk(s.disk.tables, e.db.v, level, f, db'.v);
    CommitKeeps(s, e, Flush(level, f), e.logfile, e.pending - {f.number}, None, s');
  }

  lemma CommitEmptyFlushKeeps(s: State, e: Engine, s': State)
    requires EngineInv(s, e) && CommitEmptyFlushStep(s, e, s')
    ensures EngineInv(s', s'.up.value)
  {
    hide VersionInv, MemInv, JobInv, Replay, LogOf, InVersion, View, Sorted, LogInv, HistoryInv, FilesInv, OnDisk,
         Names, ManifestInv, NumbersBelow;
    var db' := s'.up.value.db;
    EngineFacts(s, e);
    FlushEmptyKeepsInv(e.db, db');
    FlushLogs(s.disk.logs, s.disk.manifest.logNumber, s.bound, e.logfile, e.db.mem, e.db.imm, e.db.lastSeq, e.inflight);
    CommitKeeps(s, e, FlushEmpty, e.logfile, e.pending - {e.db.nextFile}, None, s');
  }

  lemma CommitMoveKeeps(s: State, e: Engine, c: Inputs, s': State)
    requires EngineInv(s, e) && CommitMoveStep(s, e, c, s')
    ensures EngineInv(s', s'.up.value)
  {
    hide VersionInv, MemInv, JobInv, Replay, LogOf, InVersion, View, Sorted, LogInv, HistoryInv, FilesInv, OnDisk,
         Names, ManifestInv, NumbersBelow, Stored, Replaced;
    hide Picked;
    var db' := s'.up.value.db;
    EngineFacts(s, e);
    MoveKeepsInv(e.db, c, db');
    assert c.level + 1 < NUM_LEVELS by { PickedLevel(e.db.v, c); }
    InputsOnDisk(s.disk.tables, e.db.v, c);
    ReplacedOnDisk(s.disk.tables, e.db.v, c, c.in0, db'.v);
    CommitKeeps(s, e, Move(c), s.disk.manifest.logNumber, e.pending, None, s');
  }

  // ---------------------------------------------------------------------------------------------------------
  // Compactions
  // ---------------------------------------------------------------------------------------------------------

  lemma HasJob(db: Db, input: seq<Entry>, outputs: seq<File>, db': Db)
    requires LsmRuns.Next(db, Finish(input, outputs), db')
    ensures db.job.Some? && db'.job.None? && db' == db.(v := db'.v, job := None)
    ensures db.job.value.c.level + 1 < NUM_LEVELS && Replaced(db.v, db.job.value.c, outputs, db'.v)
  {
    hide Sorted, Replaced, Produced;
  }

  lemma CommitCompactionKeeps(s: State, e: Engine, input: seq<Entry>, outputs: seq<File>, s': State)
    requires EngineInv(s, e) && CommitCompactionStep(s, e, input, outputs, s')
    ensures EngineInv(s', s'.up.value)
  {
    hide VersionInv, MemInv, JobInv, Replay, LogOf, InVersion, View, Sorted, LogInv, HistoryInv, FilesInv, OnDisk,
         Names, ManifestInv, NumbersBelow, Stored, LsmRuns.Next, Replaced;
    var db' := s'.up.value.db;
    EngineFacts(s, e);
    StepKeepsInv(e.db, Finish(input, outputs), db');
    HasJob(e.db, input, outputs, db');
    ReplacedOnDisk(s.disk.tables, e.db.v, e.db.job.value.c, outputs, db'.v);
    CommitKeeps(s, e, Finish(input, outputs), s.disk.manifest.logNumber, e.pending, e.db.job, s');
  }
}
