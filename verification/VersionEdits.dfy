/** Version edits as manifest records (db/version_edit.cc). */
module VersionEdits {
  import opened Views
  import opened Lsm
  import opened Coding

  const COMPARATOR: nat := 1
  const LOG_NUMBER: nat := 2
  const NEXT_FILE_NUMBER: nat := 3
  const LAST_SEQUENCE: nat := 4
  const COMPACT_POINTER: nat := 5
  const DELETED_FILE: nat := 6
  const NEW_FILE: nat := 7
  const PREV_LOG_NUMBER: nat := 9

  datatype FileMeta = FileMeta(number: nat, size: nat, smallest: seq<Octet>, largest: seq<Octet>)

  datatype Contents = Contents(comparator: Option<seq<Octet>>, logNumber: Option<nat>, prevLogNumber: Option<nat>,
                               nextFile: Option<nat>, lastSequence: Option<nat>,
                               compactPointers: seq<(nat, seq<Octet>)>, deleted: set<(nat, nat)>,
                               newFiles: seq<(nat, FileMeta)>)

  const FRESH: Contents := Contents(None, None, None, None, None, [], {}, [])

  /** One tagged field of a record. */
  datatype Field =
    | Comparator(name: seq<Octet>)
    | LogNumber(number: nat)
    | PrevLogNumber(number: nat)
    | NextFile(number: nat)
    | LastSequence(number: nat)
    | CompactPointer(level: nat, key: seq<Octet>)
    | DeletedFile(level: nat, number: nat)
    | NewFile(level: nat, meta: FileMeta)

  // ---------------------------------------------------------------------------------------------------------
  // One field
  // ---------------------------------------------------------------------------------------------------------

  function FieldBytes(f: Field): seq<Octet> {
    match f
    case Comparator(name) => Varint(COMPARATOR) + Prefixed(name)
    case LogNumber(n) => Varint(LOG_NUMBER) + Varint(n)
    case PrevLogNumber(n) => Varint(PREV_LOG_NUMBER) + Varint(n)
    case NextFile(n) => Varint(NEXT_FILE_NUMBER) + Varint(n)
    case LastSequence(n) => Varint(LAST_SEQUENCE) + Varint(n)
    case CompactPointer(l, k) => Varint(COMPACT_POINTER) + (Varint(l) + Prefixed(k))
    case DeletedFile(l, n) => Varint(DELETED_FILE) + (Varint(l) + Varint(n))
    case NewFile(l, m) =>
      Varint(NEW_FILE)
      + (Varint(l) + (Varint(m.number) + (Varint(m.size) + (Prefixed(m.smallest) + Prefixed(m.largest)))))
  }

  /** The first byte of each field. */
  lemma FieldTag(f: Field)
    ensures FieldBytes(f) != [] && FieldBytes(f)[0] ==
      match f {
        case Comparator(_) => 1 case LogNumber(_) => 2 case NextFile(_) => 3 case LastSequence(_) => 4
        case CompactPointer(_, _) => 5 case DeletedFile(_, _) => 6 case NewFile(_, _) => 7 case PrevLogNumber(_) => 9
      }
  {
    hide Prefixed;
    assert forall tag: nat :: tag < 128 ==> Varint(tag) == [tag];
  }

  function ReadLevel(bytes: seq<Octet>): Option<(nat, seq<Octet>)> {
    match ReadVarint32(bytes)
    case None => None
    case Some(p) => if p.0 < NUM_LEVELS then Some(p) else None
  }

  function ReadKey(bytes: seq<Octet>): Option<(seq<Octet>, seq<Octet>)> {
    match ReadPrefixed(bytes)
    case None => None
    case Some(p) => if p.0 == [] then None else Some(p)
  }

  function ReadMeta(bytes: seq<Octet>): Option<(FileMeta, seq<Octet>)> {
    match ReadVarint64(bytes)
    case None => None
    case Some(a) =>
      match ReadVarint64(a.1)
      case None => None
      case Some(b) =>
        match ReadKey(b.1)
        case None => None
        case Some(c) =>
          match ReadKey(c.1)
          case None => None
          case Some(d) => Some((FileMeta(a.0, b.0, c.0, d.0), d.1))
  }

  function ReadNumber(bytes: seq<Octet>, make: nat -> Field): Option<(Field, seq<Octet>)> {
    match ReadVarint64(bytes)
    case None => None
    case Some(p) => Some((make(p.0), p.1))
  }

  /** The field after a tag. */
  function ReadBody(tag: nat, bytes: seq<Octet>): Option<(Field, seq<Octet>)> {
    if tag == COMPARATOR then
      match ReadPrefixed(bytes)
      case None => None
      case Some(p) => Some((Comparator(p.0), p.1))
    else if tag == LOG_NUMBER then ReadNumber(bytes, (n: nat) => LogNumber(n))
    else if tag == PREV_LOG_NUMBER then ReadNumber(bytes, (n: nat) => PrevLogNumber(n))
    else if tag == NEXT_FILE_NUMBER then ReadNumber(bytes, (n: nat) => NextFile(n))
    else if tag == LAST_SEQUENCE then ReadNumber(bytes, (n: nat) => LastSequence(n))
    else if tag == COMPACT_POINTER || tag == DELETED_FILE || tag == NEW_FILE then
      match ReadLevel(bytes)
      case None => None
      case Some(l) => ReadLevelled(tag, l.0, l.1)
    else None
  }

  function ReadLevelled(tag: nat, level: nat, bytes: seq<Octet>): Option<(Field, seq<Octet>)> {
    if tag == COMPACT_POINTER then
      match ReadKey(bytes)
      case None => None
      case Some(k) => Some((CompactPointer(level, k.0), k.1))
    else if tag == DELETED_FILE then ReadNumber(bytes, (n: nat) => DeletedFile(level, n))
    else
      match ReadMeta(bytes)
      case None => None
      case Some(m) => Some((NewFile(level, m.0), m.1))
  }

  function ReadField(bytes: seq<Octet>): Option<(Field, seq<Octet>)> {
    match ReadVarint32(bytes)
    case None => None
    case Some(t) => ReadBody(t.0, t.1)
  }

  ghost predicate GoodKey(k: seq<Octet>) {
    k != [] && |k| < LIMIT32
  }

  ghost predicate Encodable(f: Field) {
    match f
    case Comparator(name) => |name| < LIMIT32
    case CompactPointer(l, k) => l < NUM_LEVELS && GoodKey(k)
    case DeletedFile(l, n) => l < NUM_LEVELS && n < LIMIT64
    case NewFile(l, m) => l < NUM_LEVELS && m.number < LIMIT64 && m.size < LIMIT64 && GoodKey(m.smallest)
      && GoodKey(m.largest)
    case _ => f.number < LIMIT64
  }

  lemma KeyRoundTrip(k: seq<Octet>, rest: seq<Octet>)
    requires GoodKey(k)
    ensures ReadKey(Prefixed(k) + rest) == Some((k, rest))
  {
    hide Prefixed, ReadPrefixed;
    PrefixedRoundTrip(k, rest);
  }

  lemma MetaRoundTrip(m: FileMeta, rest: seq<Octet>)
    requires m.number < LIMIT64 && m.size < LIMIT64 && GoodKey(m.smallest) && GoodKey(m.largest)
    ensures ReadMeta(Varint(m.number) + (Varint(m.size) + (Prefixed(m.smallest) + Prefixed(m.largest))) + rest)
      == Some((m, rest))
  {
    hide Varint, Prefixed, ReadVarint64, ReadKey;
    var d := Prefixed(m.largest) + rest;
    var c := Prefixed(m.smallest) + d;
    var b := Varint(m.size) + c;
    KeyRoundTrip(m.largest, rest);
    KeyRoundTrip(m.smallest, d);
    Varint64RoundTrip(m.size, c);
    Varint64RoundTrip(m.number, b);
    assert Varint(m.number) + (Varint(m.size) + (Prefixed(m.smallest) + Prefixed(m.largest))) + rest
      == Varint(m.number) + b;
  }

  lemma LevelRoundTrip(l: nat, body: seq<Octet>, rest: seq<Octet>)
    requires l < NUM_LEVELS
    ensures ReadLevel(Varint(l) + body + rest) == Some((l, body + rest))
  {
    hide Varint, ReadVarint32;
    Varint32RoundTrip(l, body + rest);
    assert Varint(l) + body + rest == Varint(l) + (body + rest);
  }

  lemma TagRoundTrip(tag: nat, body: seq<Octet>, rest: seq<Octet>)
    requires tag < LIMIT32
    ensures ReadField(Varint(tag) + body + rest) == ReadBody(tag, body + rest)
  {
    hide Varint, ReadVarint32, ReadBody;
    Varint32RoundTrip(tag, body + rest);
    assert Varint(tag) + body + rest == Varint(tag) + (body + rest);
  }

  /** What was written as a field is read back as that field, and nothing after it is touched. */
  lemma FieldRoundTrip(f: Field, rest: seq<Octet>)
    requires Encodable(f)
    ensures ReadField(FieldBytes(f) + rest) == Some((f, rest))
  {
    hide Varint, Prefixed, ReadVarint64, ReadLevel, ReadPrefixed, ReadField, ReadKey, ReadMeta;
    match f
    case Comparator(name) => TagRoundTrip(COMPARATOR, Prefixed(name), rest); PrefixedRoundTrip(name, rest);
    case LogNumber(n) => TagRoundTrip(LOG_NUMBER, Varint(n), rest); Varint64RoundTrip(n, rest);
    case PrevLogNumber(n) => TagRoundTrip(PREV_LOG_NUMBER, Varint(n), rest); Varint64RoundTrip(n, rest);
    case NextFile(n) => TagRoundTrip(NEXT_FILE_NUMBER, Varint(n), rest); Varint64RoundTrip(n, rest);
    case LastSequence(n) => TagRoundTrip(LAST_SEQUENCE, Varint(n), rest); Varint64RoundTrip(n, rest);
    case CompactPointer(l, k) =>
      TagRoundTrip(COMPACT_POINTER, Varint(l) + Prefixed(k), rest);
      LevelRoundTrip(l, Prefixed(k), rest);
      KeyRoundTrip(k, rest);
    case DeletedFile(l, n) =>
      TagRoundTrip(DELETED_FILE, Varint(l) + Varint(n), rest);
      LevelRoundTrip(l, Varint(n), rest);
      Varint64RoundTrip(n, rest);
    case NewFile(l, m) =>
      var body := Varint(m.number) + (Varint(m.size) + (Prefixed(m.smallest) + Prefixed(m.largest)));
      TagRoundTrip(NEW_FILE, Varint(l) + body, rest);
      LevelRoundTrip(l, body, rest);
      MetaRoundTrip(m, rest);
  }

  lemma FieldShrinks(bytes: seq<Octet>)
    ensures ReadField(bytes).Some? ==> |ReadField(bytes).value.1| < |bytes|
  {
    hide ReadVarint32, ReadVarint64, ReadPrefixed, ReadBody;
    PrefixedShrinks(bytes);
    if ReadVarint32(bytes).Some? {
      BodyShrinks(ReadVarint32(bytes).value.0, ReadVarint32(bytes).value.1);
    }
  }

  lemma BodyShrinks(tag: nat, bytes: seq<Octet>)
    ensures ReadBody(tag, bytes).Some? ==> |ReadBody(tag, bytes).value.1| < |bytes|
  {
    hide ReadVarint32, ReadVarint64, ReadPrefixed, ReadMeta;
    PrefixedShrinks(bytes);
    if ReadLevel(bytes).Some? {
      var rest := ReadLevel(bytes).value.1;
      PrefixedShrinks(rest);
      MetaShrinks(rest);
    }
  }

  lemma MetaShrinks(bytes: seq<Octet>)
    ensures ReadMeta(bytes).Some? ==> |ReadMeta(bytes).value.1| < |bytes|
  {
    hide ReadVarint64, ReadPrefixed;
    PrefixedShrinks(bytes);
    if ReadVarint64(bytes).Some? {
      var a := ReadVarint64(bytes).value.1;
      PrefixedShrinks(a);
      if ReadVarint64(a).Some? {
        var b := ReadVarint64(a).value.1;
        PrefixedShrinks(b);
        if ReadKey(b).Some? {
          PrefixedShrinks(ReadKey(b).value.1);
        }
      }
    }
  }

  // ---------------------------------------------------------------------------------------------------------
  // Whole records
  // ---------------------------------------------------------------------------------------------------------

  function AllBytes(fs: seq<Field>): seq<Octet> {
    if fs == [] then [] else FieldBytes(fs[0]) + AllBytes(fs[1..])
  }

  /** Fields until the bytes run out; None if they do not end with a field. */
  function ParseAll(bytes: seq<Octet>): Option<seq<Field>>
    decreases |bytes|
  {
    if bytes == [] then Some([])
    else
      FieldShrinks(bytes);
      match ReadField(bytes)
      case None => None
      case Some(p) =>
        match ParseAll(p.1)
        case None => None
        case Some(fs) => Some([p.0] + fs)
  }

  function AddField(c: Contents, f: Field): Contents {
    match f
    case Comparator(name) => c.(comparator := Some(name))
    case LogNumber(n) => c.(logNumber := Some(n))
    case PrevLogNumber(n) => c.(prevLogNumber := Some(n))
    case NextFile(n) => c.(nextFile := Some(n))
    case LastSequence(n) => c.(lastSequence := Some(n))
    case CompactPointer(l, k) => c.(compactPointers := c.compactPointers + [(l, k)])
    case DeletedFile(l, n) => c.(deleted := c.deleted + {(l, n)})
    case NewFile(l, m) => c.(newFiles := c.newFiles + [(l, m)])
  }

  function AddAll(c: Contents, fs: seq<Field>): Contents
    decreases |fs|
  {
    if fs == [] then c else AddAll(AddField(c, fs[0]), fs[1..])
  }

  function Scalars(c: Contents): seq<Field> {
    (if c.comparator.Some? then [Comparator(c.comparator.value)] else [])
    + (if c.logNumber.Some? then [LogNumber(c.logNumber.value)] else [])
    + (if c.prevLogNumber.Some? then [PrevLogNumber(c.prevLogNumber.value)] else [])
    + (if c.nextFile.Some? then [NextFile(c.nextFile.value)] else [])
    + (if c.lastSequence.Some? then [LastSequence(c.lastSequence.value)] else [])
  }

  function Pointers(ps: seq<(nat, seq<Octet>)>): seq<Field> {
    seq(|ps|, i requires 0 <= i < |ps| => CompactPointer(ps[i].0, ps[i].1))
  }

  function Deletions(order: seq<(nat, nat)>): seq<Field> {
    seq(|order|, i requires 0 <= i < |order| => DeletedFile(order[i].0, order[i].1))
  }

  function Additions(files: seq<(nat, FileMeta)>): seq<Field> {
    seq(|files|, i requires 0 <= i < |files| => NewFile(files[i].0, files[i].1))
  }

  /** The fields of an edit, its deleted files in the given order. */
  function Fields(c: Contents, order: seq<(nat, nat)>): seq<Field> {
    Scalars(c) + (Pointers(c.compactPointers) + (Deletions(order) + Additions(c.newFiles)))
  }

  ghost predicate Enumerates(order: seq<(nat, nat)>, deleted: set<(nat, nat)>) {
    forall p :: p in order <==> p in deleted
  }

  ghost predicate AllEncodable(fs: seq<Field>) {
    forall f :: f in fs ==> Encodable(f)
  }

  lemma {:induction false} ParseAllBytes(fs: seq<Field>)
    requires AllEncodable(fs)
    ensures ParseAll(AllBytes(fs)) == Some(fs)
  {
    hide FieldBytes, ReadField, Encodable;
    if fs != [] {
      var rest := AllBytes(fs[1..]);
      FieldRoundTrip(fs[0], rest);
      assert AllEncodable(fs[1..]);
      ParseAllBytes(fs[1..]);
      NoField();
      assert [fs[0]] + fs[1..] == fs;
    }
  }

  lemma NoField()
    ensures ReadField([]) == None
  {
  }

  lemma {:induction false} AddAllConcat(c: Contents, a: seq<Field>, b: seq<Field>)
    ensures AddAll(c, a + b) == AddAll(AddAll(c, a), b)
    decreases |a|
  {
    if a == [] {
      assert a + b == b;
    } else {
      AddAllConcat(AddField(c, a[0]), a[1..], b);
      assert (a + b)[1..] == a[1..] + b;
    }
  }

  lemma {:induction false} AddPointers(c: Contents, ps: seq<(nat, seq<Octet>)>)
    ensures AddAll(c, Pointers(ps)) == c.(compactPointers := c.compactPointers + ps)
    decreases |ps|
  {
    if ps == [] {
      assert c.compactPointers + ps == c.compactPointers;
    } else {
      AddPointers(AddField(c, Pointers(ps)[0]), ps[1..]);
      assert Pointers(ps)[1..] == Pointers(ps[1..]);
      assert c.compactPointers + [ps[0]] + ps[1..] == c.compactPointers + ps;
    }
  }

  lemma {:induction false} AddDeletions(c: Contents, order: seq<(nat, nat)>)
    ensures AddAll(c, Deletions(order)) == c.(deleted := c.deleted + set p | p in order)
    decreases |order|
  {
    if order == [] {
      assert c.deleted + (set p | p in order) == c.deleted;
    } else {
      AddDeletions(AddField(c, Deletions(order)[0]), order[1..]);
      assert Deletions(order)[1..] == Deletions(order[1..]);
      assert c.deleted + {order[0]} + (set p | p in order[1..]) == c.deleted + set p | p in order;
    }
  }

  lemma {:induction false} AddAdditions(c: Contents, files: seq<(nat, FileMeta)>)
    ensures AddAll(c, Additions(files)) == c.(newFiles := c.newFiles + files)
    decreases |files|
  {
    if files == [] {
      assert c.newFiles + files == c.newFiles;
    } else {
      AddAdditions(AddField(c, Additions(files)[0]), files[1..]);
      assert Additions(files)[1..] == Additions(files[1..]);
      assert c.newFiles + [files[0]] + files[1..] == c.newFiles + files;
    }
  }

  lemma AddOne(c: Contents, f: Field)
    ensures AddAll(c, [f]) == AddField(c, f)
  {
  }

  lemma AddScalars(c: Contents, pointers: seq<(nat, seq<Octet>)>)
    ensures AddAll(FRESH.(compactPointers := pointers), Scalars(c))
      == Contents(c.comparator, c.logNumber, c.prevLogNumber, c.nextFile, c.lastSequence, pointers, {}, [])
  {
    hide AddAll;
    var base := FRESH.(compactPointers := pointers);
    var f0 := if c.comparator.Some? then [Comparator(c.comparator.value)] else [];
    var f1 := if c.logNumber.Some? then [LogNumber(c.logNumber.value)] else [];
    var f2 := if c.prevLogNumber.Some? then [PrevLogNumber(c.prevLogNumber.value)] else [];
    var f3 := if c.nextFile.Some? then [NextFile(c.nextFile.value)] else [];
    var f4 := if c.lastSequence.Some? then [LastSequence(c.lastSequence.value)] else [];
    AddAllConcat(base, f0 + f1 + f2 + f3, f4);
    AddAllConcat(base, f0 + f1 + f2, f3);
    AddAllConcat(base, f0 + f1, f2);
    AddAllConcat(base, f0, f1);
    AddOption(base, f0);
    AddOption(AddAll(base, f0), f1);
    AddOption(AddAll(AddAll(base, f0), f1), f2);
    AddOption(AddAll(AddAll(AddAll(base, f0), f1), f2), f3);
    AddOption(AddAll(AddAll(AddAll(AddAll(base, f0), f1), f2), f3), f4);
  }

  lemma AddOption(c: Contents, fs: seq<Field>)
    requires |fs| <= 1
    ensures AddAll(c, fs) == if fs == [] then c else AddField(c, fs[0])
  {
    if fs != [] {
      assert fs == [fs[0]];
      AddOne(c, fs[0]);
    }
  }

  /**
   * Decoding an encoded edit gives the edit back, except that pointers the target already held stay in front: into a
   * fresh edit, and only into one without pointers, decoding is the identity.
   */
  lemma EditRoundTrip(c: Contents, order: seq<(nat, nat)>, held: seq<(nat, seq<Octet>)>)
    requires Enumerates(order, c.deleted) && AllEncodable(Fields(c, order))
    ensures ParseAll(AllBytes(Fields(c, order))) == Some(Fields(c, order))
    ensures var r := AddAll(FRESH.(compactPointers := held), Fields(c, order));
      r == c.(compactPointers := held + c.compactPointers) && (r == c <==> held == [])
  {
    hide AddAll, Scalars, Pointers, Deletions, Additions, AllEncodable;
    ParseAllBytes(Fields(c, order));
    var base := FRESH.(compactPointers := held);
    var ps, ds, ns := Pointers(c.compactPointers), Deletions(order), Additions(c.newFiles);
    AddAllConcat(base, Scalars(c), ps + (ds + ns));
    AddScalars(c, held);
    var c1 := AddAll(base, Scalars(c));
    AddAllConcat(c1, ps, ds + ns);
    AddPointers(c1, c.compactPointers);
    var c2 := AddAll(c1, ps);
    AddAllConcat(c2, ds, ns);
    AddDeletions(c2, order);
    assert {} + (set p | p in order) == c.deleted;
    AddAdditions(AddAll(c2, ds), c.newFiles);
    assert [] + c.newFiles == c.newFiles;
    assert held == [] ==> held + c.compactPointers == c.compactPointers;
    assert |held + c.compactPointers| == |held| + |c.compactPointers|;
  }

  // ---------------------------------------------------------------------------------------------------------
  // The object
  // ---------------------------------------------------------------------------------------------------------

  class VersionEdit {
    var comparator: Option<seq<Octet>>
    var logNumber: Option<nat>
    var prevLogNumber: Option<nat>
    var nextFile: Option<nat>
    var lastSequence: Option<nat>
    var compactPointers: seq<(nat, seq<Octet>)>
    var deleted: set<(nat, nat)>
    var newFiles: seq<(nat, FileMeta)>

    ghost function Value(): Contents
      reads this
    {
      Contents(comparator, logNumber, prevLogNumber, nextFile, lastSequence, compactPointers, deleted, newFiles)
    }

    constructor ()
      ensures Value() == FRESH
    {
      comparator, logNumber, prevLogNumber, nextFile, lastSequence := None, None, None, None, None;
      compactPointers, deleted, newFiles := [], {}, [];
    }

    /** The compaction pointers are not cleared. */
    method Clear()
      modifies this
      ensures Value() == FRESH.(compactPointers := old(compactPointers))
    {
      comparator, logNumber, prevLogNumber, nextFile, lastSequence := None, None, None, None, None;
      deleted, newFiles := {}, [];
    }

    method Set(f: Field)
      modifies this
      ensures Value() == AddField(old(Value()), f)
    {
      match f
      case Comparator(name) => comparator := Some(name);
      case LogNumber(n) => logNumber := Some(n);
      case PrevLogNumber(n) => prevLogNumber := Some(n);
      case NextFile(n) => nextFile := Some(n);
      case LastSequence(n) => lastSequence := Some(n);
      case CompactPointer(l, k) => compactPointers := compactPointers + [(l, k)];
      case DeletedFile(l, n) => deleted := deleted + {(l, n)};
      case NewFile(l, m) => newFiles := newFiles + [(l, m)];
    }

    /** A record decodes exactly when it is a sequence of whole fields; then the edit holds them in order. */
    method DecodeFrom(src: seq<Octet>) returns (ok: bool)
      modifies this
      ensures ok == ParseAll(src).Some?
      ensures ok ==> Value() == AddAll(FRESH.(compactPointers := old(compactPointers)), ParseAll(src).value)
    {
      hide ReadField, AddField;
      Clear();
      ghost var base, done := Value(), [];
      var input := src;
      assert AddAll(base, done) == base;
      while input != []
        invariant Value() == AddAll(base, done)
        invariant ParseAll(src).Some? == ParseAll(input).Some?
        invariant ParseAll(input).Some? ==> ParseAll(src).value == done + ParseAll(input).value
        decreases |input|
      {
        FieldShrinks(input);
        var p := GetField(input);
        if p == None {
          return false;
        }
        AddAllConcat(base, done, [p.value.0]);
        AddOne(AddAll(base, done), p.value.0);
        Set(p.value.0);
        done := done + [p.value.0];
        input := p.value.1;
      }
      assert done + [] == done;
      return true;
    }

    /** The record, the deleted files in the order in which their set is walked. */
    method EncodeTo(order: seq<(nat, nat)>) returns (dst: seq<Octet>)
      requires Enumerates(order, deleted)
      ensures dst == AllBytes(Fields(Value(), order))
    {
      hide FieldBytes, AllBytes, Scalars;
      var fields := ScalarFields();
      fields := fields + (Pointers(compactPointers) + (Deletions(order) + Additions(newFiles)));
      dst := [];
      for i := 0 to |fields|
        invariant AllBytes(fields) == dst + AllBytes(fields[i..])
      {
        BytesStep(fields, i);
        dst := dst + FieldBytes(fields[i]);
      }
      assert fields[|fields|..] == [];
      BytesStep(fields, |fields|);
    }

    method ScalarFields() returns (fields: seq<Field>)
      ensures fields == Scalars(Value())
    {
      fields := [];
      if comparator.Some? { fields := fields + [Comparator(comparator.value)]; }
      if logNumber.Some? { fields := fields + [LogNumber(logNumber.value)]; }
      if prevLogNumber.Some? { fields := fields + [PrevLogNumber(prevLogNumber.value)]; }
      if nextFile.Some? { fields := fields + [NextFile(nextFile.value)]; }
      if lastSequence.Some? { fields := fields + [LastSequence(lastSequence.value)]; }
    }
  }

  lemma BytesStep(fields: seq<Field>, i: nat)
    requires i <= |fields|
    ensures i == |fields| ==> AllBytes(fields[i..]) == []
    ensures i < |fields| ==> AllBytes(fields[i..]) == FieldBytes(fields[i]) + AllBytes(fields[i + 1..])
  {
    hide FieldBytes;
    if i < |fields| {
      assert fields[i..][0] == fields[i] && fields[i..][1..] == fields[i + 1..];
    }
  }

  /** One turn of the decoding loop. */
  method GetField(input: seq<Octet>) returns (r: Option<(Field, seq<Octet>)>)
    ensures r == ReadField(input)
  {
    hide ReadBody;
    var t := GetVarint32(input);
    if t == None {
      return None;
    }
    r := GetBody(t.value.0, t.value.1);
  }

  method GetBody(tag: nat, input: seq<Octet>) returns (r: Option<(Field, seq<Octet>)>)
    ensures r == ReadBody(tag, input)
  {
    hide ReadVarint32, ReadVarint64, ReadPrefixed;
    if tag == COMPARATOR {
      var p := GetLengthPrefixedSlice(input);
      return if p == None then None else Some((Comparator(p.value.0), p.value.1));
    } else if tag == LOG_NUMBER || tag == PREV_LOG_NUMBER || tag == NEXT_FILE_NUMBER || tag == LAST_SEQUENCE {
      var p := GetVarint64(input);
      if p == None {
        return None;
      }
      var n := p.value.0;
      var f := if tag == LOG_NUMBER then LogNumber(n) else if tag == PREV_LOG_NUMBER then PrevLogNumber(n)
               else if tag == NEXT_FILE_NUMBER then NextFile(n) else LastSequence(n);
      return Some((f, p.value.1));
    } else if tag == COMPACT_POINTER || tag == DELETED_FILE || tag == NEW_FILE {
      var l := GetVarint32(input);
      if l == None || l.value.0 >= NUM_LEVELS {
        return None;
      }
      r := GetLevelled(tag, l.value.0, l.value.1);
    } else {
      return None;
    }
  }

  method GetKey(input: seq<Octet>) returns (r: Option<(seq<Octet>, seq<Octet>)>)
    ensures r == ReadKey(input)
  {
    r := GetLengthPrefixedSlice(input);
    if r.Some? && r.value.0 == [] {
      r := None;
    }
  }

  method GetLevelled(tag: nat, level: nat, input: seq<Octet>) returns (r: Option<(Field, seq<Octet>)>)
    requires tag == COMPACT_POINTER || tag == DELETED_FILE || tag == NEW_FILE
    ensures r == ReadLevelled(tag, level, input)
  {
    hide ReadVarint64, ReadKey;
    if tag == COMPACT_POINTER {
      var k := GetKey(input);
      return if k == None then None else Some((CompactPointer(level, k.value.0), k.value.1));
    }
    var a := GetVarint64(input);
    if a == None {
      return None;
    }
    if tag == DELETED_FILE {
      return Some((DeletedFile(level, a.value.0), a.value.1));
    }
    var b := GetVarint64(a.value.1);
    if b == None {
      return None;
    }
    var c := GetKey(b.value.1);
    if c == None {
      return None;
    }
    var d := GetKey(c.value.1);
    if d == None {
      return None;
    }
    return Some((NewFile(level, FileMeta(a.value.0, b.value.0, c.value.0, d.value.0)), d.value.1));
  }
}
