/** Every run of writes, memtable switches, flushes, moves and compactions, in which a flush may happen between the
    start and the end of a compaction (db/db_impl.cc). */
module LsmRuns {
  import opened InternalKeys
  import opened Views
  import opened Lsm
  import opened Picking
  import opened CompactionProof
  import opened CompactionInstall

  /** A running compaction: its inputs, the version they were chosen in, the oldest snapshot at its start, and the
      file numbers of the outputs opened so far. */
  datatype Job = Job(c: Inputs, base: Version, snap: SequenceNumber, numbers: set<nat>)

  datatype Db = Db(mem: seq<Entry>, imm: Option<seq<Entry>>, v: Version, lastSeq: SequenceNumber,
                   snapshots: multiset<SequenceNumber>, nextFile: nat, job: Option<Job>)

  ghost function MemEntries(db: Db): iset<Entry> {
    iset e | e in db.mem || (db.imm.Some? && e in db.imm.value)
  }

  ghost function Contents(db: Db): iset<Entry> {
    MemEntries(db) + Entries(db.v)
  }

  // ---------------------------------------------------------------------------------------------------------
  // Steps
  // ---------------------------------------------------------------------------------------------------------

  datatype Step =
    | Write(batch: seq<Entry>)
    | Switch
    | Flush(level: nat, file: File)
    | FlushEmpty
    | Begin(c: Inputs)
    | Open
    | Finish(input: seq<Entry>, outputs: seq<File>)
    | Move(c: Inputs)
    | Manual(c: Inputs, input: seq<Entry>, outputs: seq<File>)
    | TakeSnapshot
    | ReleaseSnapshot(s: SequenceNumber)

  /** A write batch carries the sequence numbers after the last one, one per entry. */
  ghost predicate WriteStep(db: Db, batch: seq<Entry>, db': Db) {
    && (forall i :: 0 <= i < |batch| ==> batch[i].seqno == db.lastSeq + 1 + i)
    && db.lastSeq + |batch| < MAX_SEQUENCE
    && Sorted(db'.mem) && (forall e :: e in db'.mem <==> e in db.mem || e in batch)
    && db' == db.(mem := db'.mem, lastSeq := db.lastSeq + |batch|)
  }

  /** A new log takes a file number, and the memtable becomes immutable. */
  ghost predicate SwitchStep(db: Db, db': Db) {
    db.imm.None? && db' == db.(mem := [], imm := Some(db.mem), nextFile := db.nextFile + 1)
  }

  /** The file holds the immutable memtable; only its level changes. */
  ghost predicate AddedFile(v: Version, level: nat, f: File, v': Version) {
    && level < NUM_LEVELS && Changed(v, v', level, [], [f])
    && forall l :: 0 <= l < NUM_LEVELS && l != level ==> v'[l] == v[l]
  }

  ghost predicate FlushStep(db: Db, level: nat, f: File, db': Db) {
    && db.imm == Some(f.entries) && f.number == db.nextFile
    && FlushLevel(db.v, First(f).u, Last(f).u, level)
    && AddedFile(db.v, level, f, db'.v)
    && db' == db.(imm := None, v := db'.v, nextFile := db.nextFile + 1)
  }

  /** The oldest sequence number a reader may use: the oldest snapshot, or the last sequence number. */
  ghost predicate OldestSnapshot(db: Db, snap: SequenceNumber) {
    && (db.snapshots == multiset{} ==> snap == db.lastSeq)
    && (db.snapshots != multiset{} ==> snap in db.snapshots && forall s :: s in db.snapshots ==> snap <= s)
  }

  ghost predicate BeginStep(db: Db, c: Inputs, db': Db) {
    && db.job.None? && Picked(db.v, c) && Connected(c.in0 + c.in1)
    && db'.job.Some? && OldestSnapshot(db, db'.job.value.snap)
    && db' == db.(job := Some(Job(c, db.v, db'.job.value.snap, {})))
  }

  ghost predicate OpenStep(db: Db, db': Db) {
    && db.job.Some?
    && db' == db.(job := Some(db.job.value.(numbers := db.job.value.numbers + {db.nextFile})),
                  nextFile := db.nextFile + 1)
  }

  ghost predicate DistinctNumbers(outputs: seq<File>) {
    forall o, p :: o in outputs && p in outputs && o.number == p.number ==> o == p
  }

  ghost predicate InstallStep(db: Db, c: Inputs, base: Version, snap: SequenceNumber, input: seq<Entry>,
                              outputs: seq<File>, db': Db)
  {
    && c.level + 1 < NUM_LEVELS
    && Produced(c, input, snap, base, outputs) && Replaced(db.v, c, outputs, db'.v)
    && db.nextFile <= db'.nextFile && DistinctNumbers(outputs)
    && db' == db.(v := db'.v, nextFile := db'.nextFile, job := None)
  }

  ghost predicate MoveStep(db: Db, c: Inputs, db': Db) {
    && db.job.None? && Picked(db.v, c) && |c.in0| == 1 && c.in1 == []
    && Replaced(db.v, c, c.in0, db'.v)
    && db' == db.(v := db'.v)
  }

  ghost predicate Next(db: Db, step: Step, db': Db) {
    match step
    case Write(batch) => WriteStep(db, batch, db')
    case Switch => SwitchStep(db, db')
    case Flush(level, f) => FlushStep(db, level, f, db')
    case FlushEmpty => db.imm == Some([]) && db' == db.(imm := None, nextFile := db.nextFile + 1)
    case Begin(c) => BeginStep(db, c, db')
    case Open => OpenStep(db, db')
    case Finish(input, outputs) =>
      && db.job.Some? && InstallStep(db, db.job.value.c, db.job.value.base, db.job.value.snap, input, outputs, db')
      && db'.nextFile == db.nextFile && forall o :: o in outputs ==> o.number in db.job.value.numbers
    case Move(c) => MoveStep(db, c, db')
    case Manual(c, input, outputs) =>
      && db.job.None? && Picked(db.v, c)
      && (exists snap :: OldestSnapshot(db, snap) && InstallStep(db, c, db.v, snap, input, outputs, db'))
      && forall o :: o in outputs ==> db.nextFile <= o.number < db'.nextFile
    case TakeSnapshot => db' == db.(snapshots := db.snapshots + multiset{db.lastSeq})
    case ReleaseSnapshot(s) => s in db.snapshots && db' == db.(snapshots := db.snapshots - multiset{s})
  }

  // ---------------------------------------------------------------------------------------------------------
  // The invariant
  // ---------------------------------------------------------------------------------------------------------

  ghost predicate AllNewer(newer: seq<Entry>, older: seq<Entry>) {
    forall e, x :: e in newer && x in older && e.u == x.u ==> e.seqno > x.seqno
  }

  ghost predicate NewerThanVersion(newer: seq<Entry>, v: Version) {
    forall e, x :: e in newer && InVersion(v, x) && e.u == x.u ==> e.seqno > x.seqno
  }

  ghost predicate MemInv(db: Db) {
    && Sorted(db.mem) && NewerThanVersion(db.mem, db.v)
    && (db.imm.Some? ==> Sorted(db.imm.value) && AllNewer(db.mem, db.imm.value) && NewerThanVersion(db.imm.value, db.v))
    && (forall e :: e in Contents(db) ==> e.seqno <= db.lastSeq)
  }

  ghost predicate NumbersBelow(v: Version, next: nat) {
    forall l, f :: 0 <= l < NUM_LEVELS && f in v[l] ==> f.number < next
  }

  /** The numbers are given out and no file of the version carries one. */
  ghost predicate Reserved(v: Version, next: nat, numbers: set<nat>) {
    && (forall n :: n in numbers ==> n < next)
    && forall l, f :: 0 <= l < NUM_LEVELS && f in v[l] ==> f.number !in numbers
  }

  ghost predicate JobInv(db: Db) {
    db.job.Some? ==>
      var j := db.job.value;
      && JobOk(db.v, j.c, j.base) && Connected(j.c.in0 + j.c.in1) && j.snap <= db.lastSeq
        && (forall s :: s in db.snapshots ==> j.snap <= s)
      && Reserved(db.v, db.nextFile, j.numbers)
  }

  ghost predicate DbInv(db: Db) {
    && VersionInv(db.v) && MemInv(db) && NumbersBelow(db.v, db.nextFile) && JobInv(db)
    && (forall s :: s in db.snapshots ==> s <= db.lastSeq)
    && db.lastSeq < MAX_SEQUENCE
  }

  // ---------------------------------------------------------------------------------------------------------
  // Flush
  // ---------------------------------------------------------------------------------------------------------

  lemma AddedEntries(v: Version, level: nat, f: File, v': Version)
    requires AddedFile(v, level, f, v')
    ensures forall e :: InVersion(v', e) <==> InVersion(v, e) || e in f.entries
  {
    hide Sorted, StrictlyOrdered;
    forall e | InVersion(v, e)
      ensures InVersion(v', e)
    {
      var l :| 0 <= l < NUM_LEVELS && InFiles(v[l], e);
      var g :| g in v[l] && e in g.entries;
      assert g in v'[l] && InFiles(v'[l], e);
    }
    forall e | e in f.entries
      ensures InVersion(v', e)
    {
      assert f in v'[level] && InFiles(v'[level], e);
    }
    forall e | InVersion(v', e) && e !in f.entries
      ensures InVersion(v, e)
    {
      var l :| 0 <= l < NUM_LEVELS && InFiles(v'[l], e);
      var g :| g in v'[l] && e in g.entries;
      assert InFiles(v[l], e);
    }
  }

  lemma FlushOrdered(v: Version, level: nat, f: File, v': Version)
    requires LevelsOrdered(v) && AddedFile(v, level, f, v') && FlushLevel(v, First(f).u, Last(f).u, level)
    requires NewerThanVersion(f.entries, v)
    ensures LevelsOrdered(v')
  {
    hide Sorted, LevelsOrdered, AddedFile, FlushLevel, NewerThanVersion;
    forall l, m, e, x | 0 <= l < m < NUM_LEVELS && InFiles(v'[l], e) && InFiles(v'[m], x) && e.u == x.u
      ensures e.seqno > x.seqno
    {
      FlushPair(v, level, f, v', l, m, e, x);
    }
    OrderedFromPairs(v');
  }

  lemma FlushPair(v: Version, level: nat, f: File, v': Version, l: nat, m: nat, e: Entry, x: Entry)
    requires LevelsOrdered(v) && AddedFile(v, level, f, v') && FlushLevel(v, First(f).u, Last(f).u, level)
    requires NewerThanVersion(f.entries, v)
    requires l < m < NUM_LEVELS && InFiles(v'[l], e) && InFiles(v'[m], x) && e.u == x.u
    ensures e.seqno > x.seqno
  {
    hide Sorted, StrictlyOrdered;
    var g :| g in v'[l] && e in g.entries;
    var h :| h in v'[m] && x in h.entries;
    assert LevelNewer(v[l], v[m]);
    if g in v[l] && h in v[m] {
      assert InFiles(v[l], e) && InFiles(v[m], x);
    } else if h in v[m] {
      assert g == f && InFiles(v[m], x) && InVersion(v, x);
    } else {
      assert h == f && m == level && g in v[l] && AvoidsAll(v[l], First(f).u, Last(f).u);
      WithinFile(f, x);
      WithinFile(g, e);
    }
  }

  lemma FlushSorted(v: Version, level: nat, f: File, v': Version)
    requires 0 < level < NUM_LEVELS && LevelSorted(v[level]) && AddedFile(v, level, f, v')
      && FlushLevel(v, First(f).u, Last(f).u, level)
    ensures LevelSorted(v'[level])
  {
    hide Sorted, LevelSorted, StrictlyOrdered;
    forall g, h | g in v'[level] && h in v'[level] && g != h
      ensures Apart(g, h)
    {
      assert AvoidsAll(v[level], First(f).u, Last(f).u);
      if g in v[level] && h in v[level] {
        SortedApart(v[level], g, h);
      } else {
        assert g == f ==> Avoids(h, First(f).u, Last(f).u);
        assert h == f ==> Avoids(g, First(f).u, Last(f).u);
      }
    }
    OrderedApartIsSorted(v'[level]);
  }

  lemma FlushNumbers(v: Version, level: nat, f: File, v': Version)
    requires NumbersUnique(v) && NumbersBelow(v, f.number) && AddedFile(v, level, f, v')
    ensures NumbersUnique(v') && NumbersBelow(v', f.number + 1)
  {
    hide Sorted, StrictlyOrdered;
    forall l, m, g, h | 0 <= l < NUM_LEVELS && 0 <= m < NUM_LEVELS && g in v'[l] && h in v'[m] && g.number == h.number
      ensures l == m && g == h
    {
      assert (l == level && g == f) || g in v[l];
      assert (m == level && h == f) || h in v[m];
    }
  }

  lemma FlushLevel0(v: Version, level: nat, f: File, v': Version)
    requires VersionInv(v) && NumbersBelow(v, f.number) && AddedFile(v, level, f, v') && NewerThanVersion(f.entries, v)
    ensures StrictlyOrdered(v'[0]) && NumberOrdered(v'[0])
  {
    hide Sorted, LevelSorted, LevelsOrdered, NumbersUnique, StrictlyOrdered;
    forall g, h | g in v'[0] && h in v'[0] && g.number > h.number
      ensures FileNewer(g, h)
    {
      assert g in v[0] || (g == f && level == 0);
      assert h in v[0] || (h == f && level == 0);
      if g == f {
        forall x | x in h.entries ensures InVersion(v, x) { assert InFiles(v[0], x); }
      }
    }
  }

  lemma FlushKeepsInv(v: Version, level: nat, f: File, v': Version)
    requires VersionInv(v) && NumbersBelow(v, f.number) && NewerThanVersion(f.entries, v)
    requires AddedFile(v, level, f, v') && FlushLevel(v, First(f).u, Last(f).u, level)
    ensures VersionInv(v')
  {
    hide Sorted, LevelSorted, LevelsOrdered, NumbersUnique, StrictlyOrdered, NumberOrdered, FlushLevel, Changed,
         NewerThanVersion, NumbersBelow;
    FlushOrdered(v, level, f, v');
    FlushNumbers(v, level, f, v');
    FlushLevel0(v, level, f, v');
    if level > 0 {
      FlushSorted(v, level, f, v');
    }
  }

  /** A file flushed during a compaction overlaps none of its inputs and none of its outputs. */
  lemma FlushKeepsPicked(v: Version, level: nat, f: File, v': Version, c: Inputs)
    requires NumbersBelow(v, f.number) && NewerThanVersion(f.entries, v)
    requires AddedFile(v, level, f, v') && FlushLevel(v, First(f).u, Last(f).u, level)
    requires Picked(v, c) && Connected(c.in0 + c.in1)
    ensures Picked(v', c)
  {
    hide Sorted, StrictlyOrdered, Connected, FlushLevel, OlderClosed, TakesOverlap, IsSmallest, IsLargest;
    assert f !in c.in0 && f !in c.in1;
    FlushOlderClosed(v, level, f, v', c);
    if level == c.level + 1 {
      FlushOutside(v, level, f, c);
    }
    OverlapStays(v[c.level + 1], v'[c.level + 1], f, c);
  }

  lemma OverlapStays(files: seq<File>, files': seq<File>, f: File, c: Inputs)
    requires TakesOverlap(files, c.in1, c.smallest, c.largest)
    requires forall g :: g in files' ==>
      g in files || (g == f && f !in c.in1 && !Overlaps(f, Some(c.smallest.u), Some(c.largest.u)))
    ensures TakesOverlap(files', c.in1, c.smallest, c.largest)
  {
  }

  lemma FlushOlderClosed(v: Version, level: nat, f: File, v': Version, c: Inputs)
    requires NewerThanVersion(f.entries, v) && AddedFile(v, level, f, v') && Picked(v, c)
    ensures OlderClosed(v'[c.level], c.in0)
  {
    hide Sorted, StrictlyOrdered, IsSmallest, IsLargest, TakesOverlap;
    forall g, x, e | g in v'[c.level] && g !in c.in0 && x in g.entries && InFiles(c.in0, e) && x.u == e.u
      ensures x.seqno > e.seqno
    {
      if g == f {
        assert InFiles(v[c.level], e);
        assert InVersion(v, e);
      } else {
        assert g in v[c.level];
      }
    }
  }

  lemma FlushOutside(v: Version, level: nat, f: File, c: Inputs)
    requires FlushLevel(v, First(f).u, Last(f).u, level) && c.level < level < NUM_LEVELS
    requires Picked(v, c) && Connected(c.in0 + c.in1)
    ensures !Overlaps(f, Some(c.smallest.u), Some(c.largest.u))
    ensures AvoidsInputs(f, c)
  {
    hide Sorted, OlderClosed, TakesOverlap;
    var a, b := First(f).u, Last(f).u;
    WithinFile(f, First(f));
    assert AvoidsAll(v[c.level], a, b) && AvoidsAll(v[c.level + 1], a, b);
    assert AvoidsAll(c.in0 + c.in1, a, b);
    var p :| p in c.in0 && Smallest(p) == c.smallest;
    var q :| q in c.in0 && Largest(q) == c.largest;
    assert p in c.in0 + c.in1 && q in c.in0 + c.in1;
    assert AllAfter(c.in0 + c.in1, b) || AllBefore(c.in0 + c.in1, a);
  }

  lemma FlushKeepsJob(v: Version, level: nat, f: File, v': Version, c: Inputs, base: Version)
    requires NumbersBelow(v, f.number) && NewerThanVersion(f.entries, v)
    requires AddedFile(v, level, f, v') && FlushLevel(v, First(f).u, Last(f).u, level)
    requires JobOk(v, c, base) && Connected(c.in0 + c.in1)
    ensures JobOk(v', c, base)
  {
    hide Sorted, StrictlyOrdered, Connected, FlushLevel, Picked, NewerThanVersion, NumbersBelow;
    FlushKeepsPicked(v, level, f, v', c);
    assert DeeperKnown(v', c, base) by {
      if level >= c.level + 2 {
        FlushOutside(v, level, f, c);
      }
    }
  }

  // ---------------------------------------------------------------------------------------------------------
  // Every step keeps the invariant
  // ---------------------------------------------------------------------------------------------------------

  lemma SortedUnique(es: seq<Entry>, e: Entry, x: Entry)
    requires Sorted(es) && e in es && x in es && e.u == x.u && e.seqno == x.seqno
    ensures e == x
  {
    var p :| 0 <= p < |es| && es[p] == e;
    var q :| 0 <= q < |es| && es[q] == x;
  }

  lemma MemAbove(db: Db)
    requires VersionInv(db.v) && MemInv(db)
    ensures Above(MemEntries(db), db.v)
  {
    hide Sorted, VersionInv;
    VersionUnique(db.v);
    var all := MemEntries(db) + Entries(db.v);
    forall a, b | a in all && b in all && a.u == b.u && a.seqno == b.seqno
      ensures a == b
    {
      if a in db.mem && b in db.mem {
        SortedUnique(db.mem, a, b);
      } else if db.imm.Some? && a in db.imm.value && b in db.imm.value {
        SortedUnique(db.imm.value, a, b);
      }
    }
  }

  lemma WriteKeepsInv(db: Db, batch: seq<Entry>, db': Db)
    requires DbInv(db) && WriteStep(db, batch, db')
    ensures DbInv(db')
  {
    hide Sorted, VersionInv, JobOk, Connected, InVersion;
    forall e | e in batch
      ensures db.lastSeq < e.seqno <= db'.lastSeq
    {
    }
    assert forall x :: InVersion(db.v, x) ==> x in Contents(db);
    assert db.imm.Some? ==> forall x :: x in db.imm.value ==> x in Contents(db);
    assert forall e :: e in db.mem ==> e in Contents(db);
  }

  lemma EmptySorted()
    ensures Sorted([])
  {
  }

  lemma SwitchKeepsInv(db: Db, db': Db)
    requires DbInv(db) && SwitchStep(db, db')
    ensures DbInv(db') && Contents(db') == Contents(db)
  {
    hide Sorted, VersionInv, JobOk, Connected, InVersion;
    EmptySorted();
    assert Contents(db') == Contents(db);
  }

  lemma FlushStepKeepsInv(db: Db, level: nat, f: File, db': Db)
    requires DbInv(db) && FlushStep(db, level, f, db')
    ensures DbInv(db') && Contents(db') == Contents(db)
  {
    hide Sorted, VersionInv, JobOk, Connected, InVersion, FlushLevel, NumbersBelow, AddedFile;
    FlushKeepsInv(db.v, level, f, db'.v);
    AddedEntries(db.v, level, f, db'.v);
    assert NumbersBelow(db'.v, db'.nextFile) by { FlushNumbersBelow(db.v, level, f, db'.v); }
    if db.job.Some? {
      FlushKeepsJob(db.v, level, f, db'.v, db.job.value.c, db.job.value.base);
      FlushReserved(db.v, level, f, db'.v, db.job.value.numbers);
    }
    assert Contents(db') == Contents(db);
  }

  lemma FlushNumbersBelow(v: Version, level: nat, f: File, v': Version)
    requires VersionInv(v) && NumbersBelow(v, f.number) && AddedFile(v, level, f, v')
    ensures NumbersBelow(v', f.number + 1)
  {
    hide Sorted, LevelSorted, LevelsOrdered, StrictlyOrdered, NumberOrdered;
    FlushNumbers(v, level, f, v');
  }

  lemma FlushReserved(v: Version, level: nat, f: File, v': Version, numbers: set<nat>)
    requires Reserved(v, f.number, numbers) && AddedFile(v, level, f, v')
    ensures Reserved(v', f.number + 1, numbers)
  {
    hide Sorted, StrictlyOrdered;
    forall l, g | 0 <= l < NUM_LEVELS && g in v'[l]
      ensures g.number !in numbers
    {
      assert g in v[l] || g == f;
    }
  }

  lemma OpenKeepsInv(db: Db, db': Db)
    requires DbInv(db) && OpenStep(db, db')
    ensures DbInv(db') && Contents(db') == Contents(db)
  {
    hide Sorted, VersionInv, JobOk, Connected, InVersion;
    assert Contents(db') == Contents(db);
  }

  lemma BeginKeepsInv(db: Db, c: Inputs, db': Db)
    requires DbInv(db) && BeginStep(db, c, db')
    ensures DbInv(db') && Contents(db') == Contents(db)
  {
    hide Sorted, VersionInv, Picked, Connected, InVersion;
    assert DeeperKnown(db.v, c, db.v);
    assert Contents(db') == Contents(db);
  }

  lemma SmallerVersionMem(db: Db, db': Db)
    requires MemInv(db) && db'.mem == db.mem && db'.imm == db.imm && db'.lastSeq == db.lastSeq
    requires forall e :: InVersion(db'.v, e) ==> InVersion(db.v, e)
    ensures MemInv(db')
  {
    hide Sorted, InVersion;
    assert forall e :: e in Contents(db') ==> e in Contents(db);
  }

  lemma InstallKeepsInv(db: Db, c: Inputs, base: Version, snap: SequenceNumber, input: seq<Entry>, outputs: seq<File>,
                        db': Db)
    requires DbInv(db) && Picked(db.v, c) && InstallStep(db, c, base, snap, input, outputs, db')
    requires FreshNumbers(db.v, outputs) && forall o :: o in outputs ==> o.number < db'.nextFile
    ensures DbInv(db')
  {
    hide Sorted, VersionInv, Picked, Connected, InVersion, Produced, Replaced;
    CompactionKeepsInv(db.v, c, input, snap, base, outputs, db'.v);
    EntriesOfReplaced(db.v, c, input, snap, base, outputs, db'.v);
    SmallerVersionMem(db, db') by {
      forall e | InVersion(db'.v, e)
        ensures InVersion(db.v, e)
      {
        assert e in Entries(db'.v) && e in Entries(db.v);
      }
    }
    ReplacedNumbersBelow(db.v, c, outputs, db'.v, db.nextFile, db'.nextFile);
  }

  lemma ReplacedNumbersBelow(v: Version, c: Inputs, outputs: seq<File>, v': Version, next: nat, next': nat)
    requires c.level + 1 < NUM_LEVELS && NumbersBelow(v, next) && next <= next' && Replaced(v, c, outputs, v')
    requires forall o :: o in outputs ==> o.number < next'
    ensures NumbersBelow(v', next')
  {
    hide Sorted, StrictlyOrdered;
    forall l, f | 0 <= l < NUM_LEVELS && f in v'[l]
      ensures f.number < next'
    {
      assert f in v[l] || f in outputs;
    }
  }

  /** A trivial move changes no entry of the database and keeps the invariant. */
  lemma MoveKeepsVersion(v: Version, c: Inputs, v': Version)
    requires VersionInv(v) && Picked(v, c) && |c.in0| == 1 && c.in1 == [] && Replaced(v, c, c.in0, v')
    ensures VersionInv(v') && forall e :: InVersion(v', e) <==> InVersion(v, e)
  {
    hide Sorted, LevelSorted, LevelsOrdered, NumberOrdered, StrictlyOrdered, OlderClosed, TakesOverlap, IsSmallest,
         IsLargest;
    var f := c.in0[0];
    assert forall g :: g in c.in0 <==> g == f;
    assert NumbersUnique(v') by { MoveNumbers(v, c, f, v'); }
    assert FromInputs(c, c.in0) by { assert LevelSorted(c.in0) by { SingleSorted(c.in0); } }
    ReplacedKeepsInv(v, c, c.in0, v');
    MoveEntries(v, c, f, v');
  }

  lemma SingleSorted(fs: seq<File>)
    requires |fs| == 1
    ensures LevelSorted(fs)
  {
  }

  lemma MoveNumbers(v: Version, c: Inputs, f: File, v': Version)
    requires NumbersUnique(v) && c.level + 1 < NUM_LEVELS && f in v[c.level] && c.in0 == [f]
      && Replaced(v, c, c.in0, v')
    ensures NumbersUnique(v')
  {
    hide Sorted, StrictlyOrdered;
    assert forall l, g :: 0 <= l < NUM_LEVELS && g in v'[l] ==>
      (l == c.level + 1 && g == f) || (g in v[l] && (l == c.level ==> g != f));
    hide Replaced;
    forall l, m, g, h | 0 <= l < NUM_LEVELS && 0 <= m < NUM_LEVELS && g in v'[l] && h in v'[m] && g.number == h.number
      ensures l == m && g == h
    {
      assert (l == c.level + 1 && g == f) || (g in v[l] && (l == c.level ==> g != f));
      assert (m == c.level + 1 && h == f) || (h in v[m] && (m == c.level ==> h != f));
    }
  }

  lemma MoveEntries(v: Version, c: Inputs, f: File, v': Version)
    requires c.level + 1 < NUM_LEVELS && f in v[c.level] && c.in0 == [f] && c.in1 == [] && Replaced(v, c, c.in0, v')
    ensures forall e :: InVersion(v', e) <==> InVersion(v, e)
  {
    hide Sorted, StrictlyOrdered;
    forall e | InVersion(v, e)
      ensures InVersion(v', e)
    {
      var l :| 0 <= l < NUM_LEVELS && InFiles(v[l], e);
      var g :| g in v[l] && e in g.entries;
      if l == c.level && g == f {
        assert InFiles(v'[c.level + 1], e);
      } else {
        assert InFiles(v'[l], e);
      }
    }
    forall e | InVersion(v', e)
      ensures InVersion(v, e)
    {
      var l :| 0 <= l < NUM_LEVELS && InFiles(v'[l], e);
      var g :| g in v'[l] && e in g.entries;
      if l == c.level + 1 && g == f {
        assert InFiles(v[c.level], e);
      } else {
        assert InFiles(v[l], e);
      }
    }
  }

  lemma MoveKeepsInv(db: Db, c: Inputs, db': Db)
    requires DbInv(db) && MoveStep(db, c, db')
    ensures DbInv(db') && Contents(db') == Contents(db)
  {
    hide Sorted, VersionInv, Connected, InVersion, Replaced, OlderClosed, TakesOverlap, IsSmallest, IsLargest;
    MoveKeepsVersion(db.v, c, db'.v);
    SmallerVersionMem(db, db');
    assert forall o :: o in c.in0 ==> o.number < db.nextFile;
    ReplacedNumbersBelow(db.v, c, c.in0, db'.v, db.nextFile, db.nextFile);
    assert Contents(db') == Contents(db);
  }

  lemma SnapshotKeepsInv(db: Db, step: Step, db': Db)
    requires DbInv(db) && Next(db, step, db') && (step.TakeSnapshot? || step.ReleaseSnapshot?)
    ensures DbInv(db') && Contents(db') == Contents(db)
  {
    hide Sorted, VersionInv, JobOk, Connected, InVersion;
    assert Contents(db') == Contents(db);
  }

  lemma FlushEmptyKeepsInv(db: Db, db': Db)
    requires DbInv(db) && Next(db, FlushEmpty, db')
    ensures DbInv(db') && Contents(db') == Contents(db)
  {
    hide Sorted, VersionInv, JobOk, Connected, InVersion;
    assert Contents(db') == Contents(db);
  }

  lemma NumbersFresh(db: Db, j: Job, numbers: set<nat>, input: seq<Entry>, outputs: seq<File>, db': Db)
    requires Reserved(db.v, db.nextFile, numbers) && InstallStep(db, j.c, j.base, j.snap, input, outputs, db')
    requires forall o :: o in outputs ==> o.number in numbers
    ensures FreshNumbers(db.v, outputs)
  {
    hide Sorted, Produced, Replaced;
  }

  lemma NumbersAhead(db: Db, c: Inputs, snap: SequenceNumber, input: seq<Entry>, outputs: seq<File>, db': Db)
    requires NumbersBelow(db.v, db.nextFile) && InstallStep(db, c, db.v, snap, input, outputs, db')
    requires forall o :: o in outputs ==> db.nextFile <= o.number < db'.nextFile
    ensures FreshNumbers(db.v, outputs)
  {
    hide Sorted, Produced, Replaced;
  }

  /** Every step keeps the invariant. */
  lemma StepKeepsInv(db: Db, step: Step, db': Db)
    requires DbInv(db) && Next(db, step, db')
    ensures DbInv(db')
  {
    hide Sorted, VersionInv, DeeperKnown, Connected, WriteStep, SwitchStep, FlushStep, BeginStep, OpenStep, InstallStep,
         MoveStep, MemInv;
    match step
    case Write(batch) => WriteKeepsInv(db, batch, db');
    case Switch => SwitchKeepsInv(db, db');
    case Flush(level, f) => FlushStepKeepsInv(db, level, f, db');
    case FlushEmpty => FlushEmptyKeepsInv(db, db');
    case Begin(c) => BeginKeepsInv(db, c, db');
    case Open => OpenKeepsInv(db, db');
    case Finish(input, outputs) =>
      var j := db.job.value;
      assert FreshNumbers(db.v, outputs) by { NumbersFresh(db, j, j.numbers, input, outputs, db'); }
      InstallKeepsInv(db, j.c, j.base, j.snap, input, outputs, db');
    case Move(c) => MoveKeepsInv(db, c, db');
    case Manual(c, input, outputs) =>
      var snap :| OldestSnapshot(db, snap) && InstallStep(db, c, db.v, snap, input, outputs, db');
      assert FreshNumbers(db.v, outputs) by { NumbersAhead(db, c, snap, input, outputs, db'); }
      InstallKeepsInv(db, c, db.v, snap, input, outputs, db');
    case TakeSnapshot => SnapshotKeepsInv(db, step, db');
    case ReleaseSnapshot(_) => SnapshotKeepsInv(db, step, db');
  }

  // ---------------------------------------------------------------------------------------------------------
  // Views over a run
  // ---------------------------------------------------------------------------------------------------------

  /** A sequence number some reader may use now. */
  ghost predicate Readable(db: Db, s: SequenceNumber) {
    s in db.snapshots || s == db.lastSeq
  }

  /** The compaction installed by this step, if any, brings no covered value of `u` back for a reader at `s`. */
  ghost predicate Safe(db: Db, step: Step, u: UserKey, s: nat) {
    && (step.Finish? && db.job.Some? ==>
          var j := db.job.value;
          j.c.level + 1 < NUM_LEVELS && !ComesBack(db.v, j.c, MemEntries(db), step.input, j.snap, j.base, u, s))
    && (step.Manual? ==>
          step.c.level + 1 < NUM_LEVELS &&
          forall snap :: OldestSnapshot(db, snap) ==>
            !ComesBack(db.v, step.c, MemEntries(db), step.input, snap, db.v, u, s))
  }

  /** No left-out file of level+1 starts with the user key that an input of level+1 ends with. */
  ghost predicate UpperClosed(v: Version, c: Inputs) {
    c.level + 1 < NUM_LEVELS && forall f, g :: f in v[c.level + 1] && f !in c.in1 && g in c.in1 ==>
      First(f).u != Last(g).u
  }

  /** What can be looked up when a compaction is about to be installed is enough for its safety. */
  lemma ClosedIsSafe(db: Db, input: seq<Entry>, outputs: seq<File>, db': Db, u: UserKey, s: nat)
    requires DbInv(db) && Next(db, Finish(input, outputs), db') && UpperClosed(db.v, db.job.value.c)
    ensures Safe(db, Finish(input, outputs), u, s)
  {
    hide Sorted, VersionInv, Picked, Resurfaces, Replaced, MemInv, NumbersBelow, Connected, Reserved;
    var j := db.job.value;
    forall i: nat, x | Resurfaces(db.v, j.c, MemEntries(db), input, j.snap, j.base, s, i, x)
      ensures false
    {
      BoundaryClosedIsSafe(db.v, j.c, MemEntries(db), input, j.snap, j.base, s, i, x);
    }
  }

  lemma InstallViews(db: Db, c: Inputs, base: Version, snap: SequenceNumber, input: seq<Entry>, outputs: seq<File>,
                     db': Db, u: UserKey, s: nat)
    requires DbInv(db) && JobOk(db.v, c, base) && InstallStep(db, c, base, snap, input, outputs, db') && snap <= s
    ensures var back := ComesBack(db.v, c, MemEntries(db), input, snap, base, u, s);
      && (View(Contents(db), u, s) == View(Contents(db'), u, s) <==> !back)
      && (back ==> View(Contents(db), u, s) == None && View(Contents(db'), u, s) != None)
  {
    hide Sorted, VersionInv, JobOk, ComesBack, Produced, Replaced, View, MemInv, JobInv, NumbersBelow;
    MemAbove(db);
    CompactionPreservesViews(db.v, c, MemEntries(db), input, snap, base, outputs, db'.v, u, s);
    assert MemEntries(db') == MemEntries(db);
  }

  lemma WriteKeepsView(db: Db, batch: seq<Entry>, db': Db, u: UserKey, s: nat)
    requires DbInv(db) && WriteStep(db, batch, db') && s <= db.lastSeq
    ensures View(Contents(db), u, s) == View(Contents(db'), u, s)
  {
    assert DbInv(db') by { WriteKeepsInv(db, batch, db'); }
    hide Sorted, VersionInv, JobInv, NumbersBelow, Above;
    assert UniqueSeqs(Contents(db)) && UniqueSeqs(Contents(db')) by { ContentsUnique(db); ContentsUnique(db'); }
    hide MemInv;
    forall e | e in Contents(db')
      ensures e in Contents(db) || e in batch
    {
    }
    SameVisible(Contents(db), Contents(db'), u, s) by {
      forall e | e in Contents(db) ensures e in Contents(db') {}
    }
  }

  lemma ContentsUnique(db: Db)
    requires DbInv(db)
    ensures UniqueSeqs(Contents(db))
  {
    hide VersionInv, MemInv, JobInv;
    MemAbove(db);
  }

  lemma SameVisible(a: iset<Entry>, b: iset<Entry>, u: UserKey, s: nat)
    requires UniqueSeqs(a) && UniqueSeqs(b) && forall e :: Visible(e, u, s) ==> (e in a <==> e in b)
    ensures View(a, u, s) == View(b, u, s)
  {
    var found, e := ViewCases(a, u, s);
    if found {
      assert IsNewest(b, u, s, e);
      ViewIsNewest(b, u, s, e);
    } else {
      NothingVisible(b, u, s);
    }
  }

  /** A step changes what a reader of a live snapshot, or of the newest state, sees of a key exactly when it installs
      a compaction that brings a covered value back; then the reader sees a value where it saw none. */
  lemma StepKeepsViews(db: Db, step: Step, db': Db, u: UserKey, s: SequenceNumber)
    requires DbInv(db) && Next(db, step, db') && Readable(db, s)
    ensures View(Contents(db), u, s) == View(Contents(db'), u, s) <==> Safe(db, step, u, s)
    ensures !Safe(db, step, u, s) ==> View(Contents(db), u, s) == None && View(Contents(db'), u, s) != None
  {
    hide Sorted, VersionInv, DeeperKnown, Connected, WriteStep, SwitchStep, FlushStep, BeginStep, OpenStep, InstallStep;
    hide MoveStep, MemInv, Contents, View, ComesBack, Picked;
    match step
    case Write(batch) => WriteKeepsView(db, batch, db', u, s);
    case Switch => SwitchKeepsInv(db, db');
    case Flush(level, f) => FlushStepKeepsInv(db, level, f, db');
    case FlushEmpty => FlushEmptyKeepsInv(db, db');
    case Begin(c) => BeginKeepsInv(db, c, db');
    case Open => OpenKeepsInv(db, db');
    case Finish(input, outputs) =>
      var j := db.job.value;
      assert j.c.level + 1 < NUM_LEVELS by { PickedLevel(db.v, j.c); }
      InstallViews(db, j.c, j.base, j.snap, input, outputs, db', u, s);
    case Move(c) => MoveKeepsInv(db, c, db');
    case Manual(c, input, outputs) =>
      var snap :| OldestSnapshot(db, snap) && InstallStep(db, c, db.v, snap, input, outputs, db');
      assert c.level + 1 < NUM_LEVELS by { PickedLevel(db.v, c); }
      assert forall t :: OldestSnapshot(db, t) ==> t == snap;
      assert JobOk(db.v, c, db.v) by { OwnBase(db.v, c); }
      InstallViews(db, c, db.v, snap, input, outputs, db', u, s);
    case TakeSnapshot => SnapshotKeepsInv(db, step, db');
    case ReleaseSnapshot(_) => SnapshotKeepsInv(db, step, db');
  }

  lemma PickedLevel(v: Version, c: Inputs)
    requires Picked(v, c)
    ensures c.level + 1 < NUM_LEVELS
  {
    hide Sorted;
  }

  lemma OwnBase(v: Version, c: Inputs)
    requires Picked(v, c)
    ensures JobOk(v, c, v)
  {
    hide Picked;
  }

  ghost predicate Init(db: Db) {
    db == Db([], None, [[], [], [], [], [], [], []], 0, multiset{}, db.nextFile, None)
  }

  ghost predicate Run(dbs: seq<Db>, steps: seq<Step>) {
    && |dbs| == |steps| + 1 && Init(dbs[0])
    && forall k :: 0 <= k < |steps| ==> Next(dbs[k], steps[k], dbs[k + 1])
  }

  /** The invariant holds in every state of every run. */
  lemma {:induction false} RunKeepsInv(dbs: seq<Db>, steps: seq<Step>, n: nat)
    requires Run(dbs, steps) && n < |dbs|
    ensures DbInv(dbs[n])
  {
    hide DbInv, Next;
    if n == 0 {
      InitInv(dbs[0]);
    } else {
      RunKeepsInv(dbs, steps, n - 1);
      StepKeepsInv(dbs[n - 1], steps[n - 1], dbs[n]);
    }
  }

  lemma EmptyVersionInv(v: Version)
    requires forall l :: 0 <= l < NUM_LEVELS ==> v[l] == []
    ensures VersionInv(v) && forall e :: !InVersion(v, e)
  {
    hide Sorted;
  }

  lemma InitInv(db: Db)
    requires Init(db)
    ensures DbInv(db)
  {
    hide VersionInv, InVersion;
    EmptyVersionInv(db.v);
  }

  /** A snapshot shows a key alike for as long as it is held, whatever runs meanwhile, exactly when no compaction
      brings a covered value of the key back for it. */
  lemma {:induction false} SnapshotStable(dbs: seq<Db>, steps: seq<Step>, i: nat, j: nat, u: UserKey, s: SequenceNumber)
    requires Run(dbs, steps) && i <= j < |dbs| && forall k :: i <= k < j ==> s in dbs[k].snapshots
    ensures View(Contents(dbs[i]), u, s) == View(Contents(dbs[j]), u, s)
            <==> forall k :: i <= k < j ==> Safe(dbs[k], steps[k], u, s)
    ensures View(Contents(dbs[i]), u, s) != View(Contents(dbs[j]), u, s) ==>
      View(Contents(dbs[i]), u, s) == None && View(Contents(dbs[j]), u, s) != None
    decreases j - i
  {
    hide DbInv, Next, View, Contents, Safe;
    if i < j {
      SnapshotStable(dbs, steps, i, j - 1, u, s);
      RunKeepsInv(dbs, steps, j - 1);
      StepKeepsViews(dbs[j - 1], steps[j - 1], dbs[j], u, s);
    }
  }
}
