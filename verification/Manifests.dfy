/** The manifest from end to end: edits are encoded, logged, cut short by a crash, read, decoded and replayed
    (VersionSet::LogAndApply and VersionSet::Recover in db/version_set.cc). */
module Manifests {
  import opened InternalKeys
  import opened Views
  import opened Lsm
  import opened Crc32c
  import opened LogFormat
  import opened LogReader
  import opened LogPieces
  import opened LogRecovery
  import opened Coding
  import opened VersionEdits
  import opened VersionBuilder

  // ---------------------------------------------------------------------------------------------------------
  // Records
  // ---------------------------------------------------------------------------------------------------------

  /** An edit, and the order in which its set of deleted files is walked when it is encoded. */
  datatype Record = Record(edit: Contents, order: seq<(nat, nat)>)

  ghost predicate GoodRecord(r: Record, tables: map<FileMeta, File>) {
    && Enumerates(r.order, r.edit.deleted) && AllEncodable(Fields(r.edit, r.order))
    && forall p :: p in r.edit.newFiles ==> p.1 in tables
  }

  function RecordOctets(r: Record): seq<Octet> {
    AllBytes(Fields(r.edit, r.order))
  }

  function Logged(rs: seq<Record>): seq<seq<Byte>> {
    seq(|rs|, i requires 0 <= i < |rs| => ToBytes(RecordOctets(rs[i])))
  }

  function FilesOf(files: seq<(nat, FileMeta)>, tables: map<FileMeta, File>): seq<(nat, File)>
    requires forall p :: p in files ==> p.1 in tables
  {
    seq(|files|, i requires 0 <= i < |files| => (files[i].0, tables[files[i].1]))
  }

  /** What the edit does to the version, the metadata standing for the tables it describes. */
  ghost function EditOf(r: Record, tables: map<FileMeta, File>): Edit
    requires GoodRecord(r, tables)
  {
    Edit(r.order, FilesOf(r.edit.newFiles, tables))
  }

  ghost function EditsOf(rs: seq<Record>, tables: map<FileMeta, File>): seq<Edit>
    requires forall r :: r in rs ==> GoodRecord(r, tables)
  {
    seq(|rs|, i requires 0 <= i < |rs| => EditOf(rs[i], tables))
  }

  // ---------------------------------------------------------------------------------------------------------
  // Counters
  // ---------------------------------------------------------------------------------------------------------

  datatype Counters = Counters(log: Option<nat>, prevLog: Option<nat>, nextFile: Option<nat>, lastSequence: Option<nat>)

  function Newer(a: Option<nat>, b: Option<nat>): Option<nat> {
    if b.Some? then b else a
  }

  /** Each counter as the last edit that has it says. */
  function CountersOf(rs: seq<Record>): Counters {
    if rs == [] then
      Counters(None, None, None, None)
    else
      var c, e := CountersOf(rs[..|rs| - 1]), rs[|rs| - 1].edit;
      Counters(Newer(c.log, e.logNumber), Newer(c.prevLog, e.prevLogNumber), Newer(c.nextFile, e.nextFile),
               Newer(c.lastSequence, e.lastSequence))
  }

  /** The value is the one in the last record that has one. */
  ghost predicate IsLast(part: Record -> Option<nat>, rs: seq<Record>, v: Option<nat>) {
    if v.None? then forall i :: 0 <= i < |rs| ==> part(rs[i]).None?
    else exists i :: 0 <= i < |rs| && part(rs[i]) == v && forall j :: i < j < |rs| ==> part(rs[j]).None?
  }

  lemma OneMoreRecord(part: Record -> Option<nat>, rs: seq<Record>, v: Option<nat>)
    requires rs != [] && IsLast(part, rs[..|rs| - 1], v)
    ensures IsLast(part, rs, Newer(v, part(rs[|rs| - 1])))
  {
    var before, n := rs[..|rs| - 1], |rs| - 1;
    assert forall i :: 0 <= i < n ==> before[i] == rs[i];
    if part(rs[n]).None? && v.Some? {
      var i :| 0 <= i < n && part(before[i]) == v && forall j :: i < j < n ==> part(before[j]).None?;
      assert part(rs[i]) == v;
    }
  }

  const LOG: Record -> Option<nat> := (r: Record) => r.edit.logNumber
  const PREV_LOG: Record -> Option<nat> := (r: Record) => r.edit.prevLogNumber
  const NEXT_FILE: Record -> Option<nat> := (r: Record) => r.edit.nextFile
  const LAST_SEQUENCE: Record -> Option<nat> := (r: Record) => r.edit.lastSequence

  /** Of each counter the last value logged counts. */
  lemma {:induction false} LastCounters(rs: seq<Record>)
    ensures var c := CountersOf(rs);
      && IsLast(LOG, rs, c.log) && IsLast(PREV_LOG, rs, c.prevLog) && IsLast(NEXT_FILE, rs, c.nextFile)
      && IsLast(LAST_SEQUENCE, rs, c.lastSequence)
  {
    if rs != [] {
      var c := CountersOf(rs[..|rs| - 1]);
      LastCounters(rs[..|rs| - 1]);
      OneMoreRecord(LOG, rs, c.log);
      OneMoreRecord(PREV_LOG, rs, c.prevLog);
      OneMoreRecord(NEXT_FILE, rs, c.nextFile);
      OneMoreRecord(LAST_SEQUENCE, rs, c.lastSequence);
    }
  }

  ghost predicate ComparatorsMatch(rs: seq<Record>, name: seq<Octet>) {
    forall i :: 0 <= i < |rs| ==> rs[i].edit.comparator.None? || rs[i].edit.comparator.value == name
  }

  ghost predicate AllKnown(c: Counters) {
    c.log.Some? && c.nextFile.Some? && c.lastSequence.Some?
  }

  datatype Recovered = Recovered(v: Version, logNumber: nat, prevLogNumber: nat, nextFile: nat, lastSequence: nat)

  // ---------------------------------------------------------------------------------------------------------
  // Replaying
  // ---------------------------------------------------------------------------------------------------------

  method Enumerate(s: set<(nat, nat)>) returns (order: seq<(nat, nat)>)
    ensures Enumerates(order, s)
  {
    order := [];
    var left := s;
    while left != {}
      invariant left <= s && forall p :: p in order <==> p in s && p !in left
    {
      var p :| p in left;
      order, left := order + [p], left - {p};
    }
  }

  lemma DecodedEdit(r: Record)
    requires Enumerates(r.order, r.edit.deleted) && AllEncodable(Fields(r.edit, r.order))
    ensures ParseAll(RecordOctets(r)).Some? && AddAll(FRESH, ParseAll(RecordOctets(r)).value) == r.edit
  {
    hide Fields, AllBytes, ParseAll, AddAll, AllEncodable;
    EditRoundTrip(r.edit, r.order, []);
    assert FRESH.(compactPointers := []) == FRESH;
  }

  /** The order in which deletions are walked does not matter. */
  lemma OrderIrrelevant(ls: LevelState, a: Edit, b: Edit, l: nat)
    requires a.added == b.added && forall p :: p in a.deleted <==> p in b.deleted
    ensures ApplyTo(ls, a, l) == ApplyTo(ls, b, l)
  {
    assert NumbersAt(a.deleted, l) == NumbersAt(b.deleted, l);
  }

  lemma GoodLevels(r: Record, tables: map<FileMeta, File>)
    requires GoodRecord(r, tables)
    ensures forall p :: p in r.edit.deleted ==> p.0 < NUM_LEVELS
    ensures forall p :: p in FilesOf(r.edit.newFiles, tables) ==> p.0 < NUM_LEVELS
  {
    hide Scalars;
    var fs := Fields(r.edit, r.order);
    forall p | p in r.edit.deleted
      ensures p.0 < NUM_LEVELS
    {
      var i :| 0 <= i < |r.order| && r.order[i] == p;
      assert Deletions(r.order)[i] == DeletedFile(p.0, p.1);
      assert DeletedFile(p.0, p.1) in fs;
    }
    forall p | p in FilesOf(r.edit.newFiles, tables)
      ensures p.0 < NUM_LEVELS
    {
      var i :| 0 <= i < |r.edit.newFiles| && FilesOf(r.edit.newFiles, tables)[i] == p;
      var f := Additions(r.edit.newFiles)[i];
      assert f == NewFile(r.edit.newFiles[i].0, r.edit.newFiles[i].1) && f in fs;
    }
  }

  /** One turn of the loop of Recover: a record that was logged decodes, and the builder collects its edit. */
  method ApplyRecord(builder: Builder, bytes: seq<Byte>, name: seq<Octet>, tables: map<FileMeta, File>, ghost r: Record)
    returns (ok: bool, edit: VersionEdit)
    requires builder.Valid() && GoodRecord(r, tables) && bytes == ToBytes(RecordOctets(r))
    modifies builder
    ensures builder.Valid() && fresh(edit) && edit.Value() == r.edit
    ensures ok <==> r.edit.comparator.None? || r.edit.comparator.value == name
    ensures ok ==> forall l :: 0 <= l < NUM_LEVELS ==>
      builder.levels[l] == ApplyTo(old(builder.levels)[l], EditOf(r, tables), l)
  {
    hide Sorted, StrictlyOrdered, ApplyTo, AllBytes, ParseAll, AddAll, Fields, ToBytes, ToOctets, FilesOf;
    edit := new VersionEdit();
    BytesRoundTrip(RecordOctets(r));
    DecodedEdit(r);
    ok := edit.DecodeFrom(ToOctets(bytes));
    assert FRESH.(compactPointers := []) == FRESH;
    if edit.comparator.Some? && edit.comparator.value != name {
      return false, edit;
    }
    var order := Enumerate(edit.deleted);
    var e := Edit(order, FilesOf(edit.newFiles, tables));
    GoodLevels(r, tables);
    ghost var before := builder.levels;
    builder.Apply(e);
    forall l | 0 <= l < NUM_LEVELS
      ensures builder.levels[l] == ApplyTo(before[l], EditOf(r, tables), l)
    {
      OrderIrrelevant(before[l], e, EditOf(r, tables), l);
    }
  }

  /** The loop of Recover, on a builder that has collected nothing yet. */
  method ApplyAll(builder: Builder, got: seq<seq<Byte>>, name: seq<Octet>, tables: map<FileMeta, File>,
                  ghost rs: seq<Record>)
    returns (ok: bool, known: Counters)
    requires builder.Valid() && got == Logged(rs) && forall r :: r in rs ==> GoodRecord(r, tables)
    requires forall l :: 0 <= l < NUM_LEVELS ==> builder.levels[l] == NO_CHANGE
    modifies builder
    ensures builder.Valid() && known == CountersOf(if ok then rs else [])
    ensures ok <==> ComparatorsMatch(rs, name)
    ensures ok ==> forall l :: 0 <= l < NUM_LEVELS ==> builder.levels[l] == Collected(EditsOf(rs, tables), l)
  {
    hide Sorted, StrictlyOrdered, ApplyTo, GoodRecord, ToBytes, RecordOctets;
    known := Counters(None, None, None, None);
    ghost var edits := EditsOf(rs, tables);
    var i := 0;
    while i < |got|
      invariant 0 <= i <= |got| && builder.Valid()
      invariant CollectsPrefix(builder.levels, edits, i)
      invariant ComparatorsMatch(rs[..i], name) && known == CountersOf(rs[..i])
    {
      ghost var before := builder.levels;
      var fits, edit := ApplyRecord(builder, got[i], name, tables, rs[i]);
      if !fits {
        return false, Counters(None, None, None, None);
      }
      CollectsNext(before, builder.levels, edits, i);
      assert rs[..i + 1][..i] == rs[..i];
      known := Counters(Newer(known.log, edit.logNumber), Newer(known.prevLog, edit.prevLogNumber),
                        Newer(known.nextFile, edit.nextFile), Newer(known.lastSequence, edit.lastSequence));
      i := i + 1;
    }
    assert rs[..i] == rs && edits[..i] == edits;
    ok := true;
  }

  ghost predicate CollectsPrefix(levels: seq<LevelState>, edits: seq<Edit>, i: nat) {
    i <= |edits| && |levels| == NUM_LEVELS && forall l :: 0 <= l < NUM_LEVELS ==> levels[l] == Collected(edits[..i], l)
  }

  lemma CollectsNext(before: seq<LevelState>, after: seq<LevelState>, edits: seq<Edit>, i: nat)
    requires CollectsPrefix(before, edits, i) && i < |edits| && |after| == NUM_LEVELS
    requires forall l :: 0 <= l < NUM_LEVELS ==> after[l] == ApplyTo(before[l], edits[i], l)
    ensures CollectsPrefix(after, edits, i + 1)
  {
    hide ApplyTo;
    assert edits[..i + 1][..i] == edits[..i];
  }

  lemma {:induction false} LivePrefix(edits: seq<Edit>, vs: seq<Version>, n: nat)
    requires Live(edits, vs) && n <= |edits|
    ensures Live(edits[..n], vs[..n + 1])
  {
    hide Installed;
    var a, b := edits[..n], vs[..n + 1];
    forall k | 0 <= k < |a|
      ensures Installed(b[k], a[k], b[k + 1])
    {
      assert Installed(vs[k], edits[k], vs[k + 1]);
    }
  }

  lemma ReplayedLevels(edits: seq<Edit>, vs: seq<Version>, n: nat, v: Version)
    requires Live(edits, vs) && n <= |edits|
    requires forall l :: 0 <= l < NUM_LEVELS ==> SavedLevel([], Collected(edits[..n], l), v[l])
    ensures forall l :: 0 <= l < NUM_LEVELS ==> (v[l] == vs[n][l] <==> Replayable(edits[..n], l))
  {
    hide Sorted, StrictlyOrdered, SavedLevel, Replayable, Installed;
    LivePrefix(edits, vs, n);
    forall l | 0 <= l < NUM_LEVELS
      ensures v[l] == vs[n][l] <==> Replayable(edits[..n], l)
    {
      ReplayLevel(edits[..n], vs[..n + 1], l, v[l]);
    }
  }

  /** What recovery makes of the first `n` records. */
  ghost predicate RecoversTo(rs: seq<Record>, n: nat, name: seq<Octet>, edits: seq<Edit>, vs: seq<Version>,
                             r: Option<Recovered>)
    requires n <= |rs| == |edits| < |vs|
  {
    var c := CountersOf(rs[..n]);
    && (r.Some? <==> ComparatorsMatch(rs[..n], name) && AllKnown(c))
    && (r.Some? ==>
          && r.value.logNumber == c.log.value && r.value.nextFile == c.nextFile.value + 1
          && r.value.prevLogNumber == (if c.prevLog.Some? then c.prevLog.value else 0)
          && r.value.lastSequence == c.lastSequence.value
          && forall l :: 0 <= l < NUM_LEVELS ==> (r.value.v[l] == vs[n][l] <==> Replayable(edits[..n], l)))
  }

  /** A manifest that a crash cut at any byte: the version that comes back is the one that was live after the last
      record that is whole, exactly if its levels can be replayed, with the last counters logged. */
  method Recover(file: seq<Byte>, name: seq<Octet>, tables: map<FileMeta, File>, ghost rs: seq<Record>,
                 ghost vs: seq<Version>)
    returns (r: Option<Recovered>)
    requires forall r :: r in rs ==> GoodRecord(r, tables)
    requires Live(EditsOf(rs, tables), vs) && file <= Bytes(AllFragments(Logged(rs), 0), 0)
    ensures RecoversTo(rs, Complete(Logged(rs), 0, |file|), name, EditsOf(rs, tables), vs, r)
  {
    hide Sorted, StrictlyOrdered, ApplyTo, Live, Replayable, GoodRecord, AllFragments, Bytes, Complete, ToBytes,
         RecordOctets;
    hide SavedLevel, AllAssembled, AllLinked, StopsQuietly, Total, TotalLength;
    var got, reports, pieces, unfinished := ReadAll(file, true, Logged(rs));
    ghost var n, edits := Complete(Logged(rs), 0, |file|), EditsOf(rs, tables);
    var builder := new Builder(EMPTY_VERSION);
    var ok, known := ApplyAll(builder, got, name, tables, rs[..n]);
    assert EditsOf(rs[..n], tables) == edits[..n];
    if !ok {
      return None;
    }
    if reports != [] || known.nextFile.None? || known.log.None? || known.lastSequence.None? {
      return None;
    }
    OrderedEmpty();
    var v := builder.SaveTo();
    ReplayedLevels(edits, vs, n, v);
    var prevLog := if known.prevLog.Some? then known.prevLog.value else 0;
    r := Some(Recovered(v, known.log.value, prevLog, known.nextFile.value + 1, known.lastSequence.value));
  }

  method EncodeAll(rs: seq<Record>) returns (records: seq<seq<Byte>>)
    requires forall r :: r in rs ==> Enumerates(r.order, r.edit.deleted)
    ensures records == Logged(rs)
  {
    hide Enumerates, ToBytes, Fields, AllBytes;
    records := [];
    for i := 0 to |rs|
      invariant records == Logged(rs[..i])
    {
      var c := rs[i].edit;
      var edit := new VersionEdit();
      edit.comparator, edit.logNumber, edit.prevLogNumber := c.comparator, c.logNumber, c.prevLogNumber;
      edit.nextFile, edit.lastSequence, edit.compactPointers := c.nextFile, c.lastSequence, c.compactPointers;
      edit.deleted, edit.newFiles := c.deleted, c.newFiles;
      assert rs[i] in rs;
      var octets := edit.EncodeTo(rs[i].order);
      records := records + [ToBytes(octets)];
      assert rs[..i + 1] == rs[..i] + [rs[i]];
    }
    assert rs[..|rs|] == rs;
  }

  /** Encode the edits, log them, cut the file at any byte, and recover. */
  method LogCutRecover(rs: seq<Record>, cut: nat, name: seq<Octet>, tables: map<FileMeta, File>, ghost vs: seq<Version>)
    returns (r: Option<Recovered>)
    requires forall r :: r in rs ==> GoodRecord(r, tables)
    requires Live(EditsOf(rs, tables), vs) && cut <= |Bytes(AllFragments(Logged(rs), 0), 0)|
    ensures RecoversTo(rs, Complete(Logged(rs), 0, cut), name, EditsOf(rs, tables), vs, r)
  {
    assert forall r :: r in rs ==> Enumerates(r.order, r.edit.deleted);
    hide Live, GoodRecord, AllFragments, Bytes, Complete, RecoversTo, Enumerates;
    var records := EncodeAll(rs);
    var file := WriteAll(records);
    r := Recover(file[..cut], name, tables, rs, vs);
  }
}
