/** A log with a damaged byte: nothing of it is lost without a report (db/log_reader.cc). */
module LogDamage {
  import opened Crc32c
  import opened LogFormat
  import opened LogWriter
  import opened LogPieces
  import opened LogReader

  // ---------------------------------------------------------------------------------------------------------
  // The way that a reading without a report takes through the file
  // ---------------------------------------------------------------------------------------------------------

  /** One fragment, or one thing that is passed over. */
  ghost predicate Step(file: seq<Byte>, a: nat, c: nat) {
    || SkipStep(file, true, a, c)
    || exists kind, payload :: 1 <= kind <= 4 && Intact(file, true, a, kind, payload) && c == a + 7 + |payload|
  }

  ghost predicate Path(file: seq<Byte>, a: nat, b: nat)
    decreases if a < b then b - a else 0
  {
    a == b || exists c :: a < c <= b && Step(file, a, c) && Path(file, c, b)
  }

  lemma {:induction false} PathOn(file: seq<Byte>, a: nat, b: nat, c: nat)
    requires Path(file, a, b) && Path(file, b, c)
    ensures Path(file, a, c) && a <= b <= c
    decreases if a < b then b - a else 0
  {
    hide Step;
    if a != b {
      var d: nat :| a < d <= b && Step(file, a, d) && Path(file, d, b);
      PathOn(file, d, b, c);
    }
  }

  lemma {:induction false} SkipsPath(file: seq<Byte>, a: nat, b: nat)
    requires Skips(file, true, a, b)
    ensures Path(file, a, b)
    decreases if a < b then b - a else 0
  {
    hide SkipStep;
    if a != b {
      var c: nat :| a < c <= b && SkipStep(file, true, a, c) && Skips(file, true, c, b);
      SkipsPath(file, c, b);
      assert Step(file, a, c);
    }
  }

  ghost predicate Sound(file: seq<Byte>, piece: Piece) {
    1 <= piece.kind <= 4 && Intact(file, true, piece.offset, piece.kind, piece.payload)
  }

  lemma PiecePath(file: seq<Byte>, from: nat, to: nat, piece: Piece)
    requires Path(file, from, to) && Skips(file, true, to, piece.offset) && Sound(file, piece)
    ensures Path(file, from, End(piece))
  {
    hide Intact, Skips, Path, SkipStep;
    SkipsPath(file, to, piece.offset);
    PathOn(file, from, to, piece.offset);
    assert Step(file, piece.offset, End(piece));
    OneStep(file, piece.offset, End(piece));
    PathOn(file, from, piece.offset, End(piece));
  }

  lemma OneStep(file: seq<Byte>, a: nat, c: nat)
    requires Step(file, a, c) && a < c
    ensures Path(file, a, c)
  {
    hide Step;
    assert Path(file, c, c);
  }

  lemma {:induction false} PiecesPath(file: seq<Byte>, from: nat, pieces: seq<Piece>, n: nat)
    requires pieces != [] && Linked(file, true, from, pieces, End(pieces[|pieces| - 1])) && n < |pieces|
    requires forall i :: 0 <= i < |pieces| ==> Sound(file, pieces[i])
    ensures Path(file, from, End(pieces[n]))
    decreases n
  {
    hide Sound, Skips, Path;
    if n == 0 {
      Here(file, from);
      PiecePath(file, from, from, pieces[0]);
    } else {
      PiecesPath(file, from, pieces, n - 1);
      PiecePath(file, from, End(pieces[n - 1]), pieces[n]);
    }
  }

  lemma Here(file: seq<Byte>, a: nat)
    ensures Path(file, a, a)
  {
  }

  lemma AssembledSound(file: seq<Byte>, pieces: seq<Piece>, from: nat, record: seq<Byte>)
    requires Assembled(file, true, pieces, from, record)
    ensures pieces != [] && forall i :: 0 <= i < |pieces| ==> Sound(file, pieces[i])
  {
    hide Intact, Payloads;
  }

  lemma BeginsSound(file: seq<Byte>, pieces: seq<Piece>, from: nat)
    requires Begins(file, true, pieces, from)
    ensures forall i :: 0 <= i < |pieces| ==> Sound(file, pieces[i])
  {
    hide Intact;
  }

  lemma {:induction false} RecordsPath(file: seq<Byte>, pieces: seq<seq<Piece>>, got: seq<seq<Byte>>, n: nat)
    requires AllAssembled(file, true, pieces, got) && AllLinked(file, true, pieces) && n <= |pieces|
    ensures Path(file, 0, EndOfPieces(pieces, n))
    decreases n
  {
    hide Assembled, Linked, Path;
    Here(file, 0);
    if n > 0 {
      RecordsPath(file, pieces, got, n - 1);
      var own, from := pieces[n - 1], EndOfPieces(pieces, n - 1);
      assert Assembled(file, true, own, from, got[n - 1]) && Linked(file, true, from, own, EndOfPieces(pieces, n));
      AssembledSound(file, own, from, got[n - 1]);
      PiecesPath(file, from, own, |own| - 1);
      PathOn(file, 0, from, End(own[|own| - 1]));
    }
  }

  /** A reading without a report goes from the start of the file to where it ends. */
  lemma QuietPath(file: seq<Byte>, pieces: seq<seq<Piece>>, got: seq<seq<Byte>>, unfinished: seq<Piece>)
    returns (q: nat)
    requires AllAssembled(file, true, pieces, got) && AllLinked(file, true, pieces)
    requires StopsQuietly(file, true, EndOfPieces(pieces, |pieces|), unfinished)
    ensures Path(file, 0, q) && Ends(file, true, q)
  {
    hide AllAssembled, AllLinked, EndOfPieces, Path, Begins, Linked, Ends, Skips;
    var from := EndOfPieces(pieces, |pieces|);
    RecordsPath(file, pieces, got, |pieces|);
    if unfinished != [] {
      BeginsSound(file, unfinished, from);
      PiecesPath(file, from, unfinished, |unfinished| - 1);
      PathOn(file, 0, from, End(unfinished[|unfinished| - 1]));
      from := End(unfinished[|unfinished| - 1]);
    }
    q :| Skips(file, true, from, q) && Ends(file, true, q);
    SkipsPath(file, from, q);
    PathOn(file, 0, from, q);
  }

  // ---------------------------------------------------------------------------------------------------------
  // The way goes through every fragment
  // ---------------------------------------------------------------------------------------------------------

  /** The bytes of a fragment are in the file. */
  ghost predicate Stored(file: seq<Byte>, f: Fragment, s: nat) {
    && s + 7 + |f.payload| <= |file| && s % 32768 + 7 + |f.payload| <= 32768 && 1 <= NatOf(f.kind) <= 4
    && file[s..s + 7 + |f.payload|] == Physical(f)
  }

  lemma StoredIsIntact(file: seq<Byte>, f: Fragment, s: nat)
    requires Stored(file, f, s)
    ensures Intact(file, true, s, NatOf(f.kind), f.payload)
  {
    hide Value, Mask, Unmask, Join, ByteOf, Length, Header, NatOf;
    var bytes := file[s..s + 7 + |f.payload|];
    assert forall i :: 0 <= i < |bytes| ==> bytes[i] == file[s + i];
    HeaderFields(f, bytes);
    SameWord(file, s, bytes);
    assert file[s + 7..s + 7 + |f.payload|] == bytes[7..];
  }

  /** Less than a header before the end of its block, there is no other way than to the next block. */
  lemma OverTheTail(file: seq<Byte>, o: nat, q: nat)
    requires Path(file, o, q) && Ends(file, true, q) && Start(o) + 7 <= |file|
    ensures Path(file, Start(o), q)
  {
    hide Length, NatOf, Path;
    if Start(o) != o {
      BlocksOf32K(o);
      assert forall kind, payload :: !Intact(file, true, o, kind, payload);
      hide Intact;
      assert !Ends(file, true, o);
      var c := FirstStep(file, o, q);
      TailStart(o, Start(o));
      assert c % 32768 == 0 && c - o < 7;
      TailStart(o, c);
    }
  }

  lemma FirstStep(file: seq<Byte>, a: nat, q: nat) returns (c: nat)
    requires Path(file, a, q) && a != q
    ensures a < c <= q && Step(file, a, c) && Path(file, c, q)
  {
    hide Step;
    c :| a < c <= q && Step(file, a, c) && Path(file, c, q);
  }

  /** At an intact fragment there is no other way than over it. */
  lemma OverAFragment(file: seq<Byte>, s: nat, kind: nat, payload: seq<Byte>, q: nat)
    requires Intact(file, true, s, kind, payload) && 1 <= kind <= 4
    requires Path(file, s, q) && Ends(file, true, q)
    ensures Path(file, s + 7 + |payload|, q)
  {
    hide Length, NatOf, Path, Value, Unmask, Word;
    assert forall k, other :: Intact(file, true, s, k, other) ==> k == kind && |other| == |payload|;
    assert !Ends(file, true, s);
    var c := FirstStep(file, s, q);
    NotTheTail(s, c);
    assert c == s + 7 + |payload|;
  }

  lemma NotTheTail(s: nat, c: nat)
    requires s < c && s % 32768 + 7 <= 32768
    ensures !(c % 32768 == 0 && c - s < 7)
  {
    if c % 32768 == 0 && c - s < 7 {
      TailStart(s, c);
      assert false;
    }
  }

  /** Nor is there a way on from a damaged one. */
  lemma Stuck(file: seq<Byte>, s: nat, q: nat)
    requires s + 7 <= |file| && s % 32768 + 7 <= 32768 && s + 7 + Length(file[s + 4], file[s + 5]) <= |file|
    requires !(Length(file[s + 4], file[s + 5]) == 0 && NatOf(file[s + 6]) == 0)
    requires forall kind, payload :: !Intact(file, true, s, kind, payload)
    ensures !(Path(file, s, q) && Ends(file, true, q))
  {
    hide Length, NatOf, Path, Intact;
    if Path(file, s, q) && Ends(file, true, q) {
      assert !Ends(file, true, s);
      var c := FirstStep(file, s, q);
      NotTheTail(s, c);
      assert false;
    }
  }

  // ---------------------------------------------------------------------------------------------------------
  // One damaged byte
  // ---------------------------------------------------------------------------------------------------------

  lemma UnmaskInjective(x: bv32, y: bv32)
    requires Unmask(x) == Unmask(y)
    ensures x == y
  {
  }

  lemma JoinInjective(a: Byte, b: Byte, c: Byte, d: Byte, a': Byte, b': Byte, c': Byte, d': Byte)
    requires Join(a, b, c, d) == Join(a', b', c', d')
    ensures a == a' && b == b' && c == c' && d == d'
  {
  }

  lemma WordInjective(file: seq<Byte>, p: nat, i: nat, c: Byte)
    requires p + 4 <= |file| && i < 4 && file[p + i] != c
    ensures Unmask(Word(file[p + i := c], p)) != Unmask(Word(file, p))
  {
    hide Unmask, Join;
    var file' := file[p + i := c];
    if Unmask(Word(file', p)) == Unmask(Word(file, p)) {
      UnmaskInjective(Word(file', p), Word(file, p));
      JoinInjective(file'[p], file'[p + 1], file'[p + 2], file'[p + 3], file[p], file[p + 1], file[p + 2], file[p + 3]);
      assert false;
    }
  }

  /** A fragment with a byte of its checksum, its type or its payload changed is not intact. */
  lemma DamagedIsNotIntact(file: seq<Byte>, p: nat, kind: nat, payload: seq<Byte>, i: nat, c: Byte)
    requires Intact(file, true, p, kind, payload) && (i < 4 || 6 <= i < 7 + |payload|) && file[p + i] != c
    ensures var file' := file[p + i := c]; forall kind', payload' :: !Intact(file', true, p, kind', payload')
  {
    hide Length, NatOf, Value, Unmask, Word;
    var file' := file[p + i := c];
    forall kind', payload' | Intact(file', true, p, kind', payload')
      ensures false
    {
      if i < 4 {
        CheckedPart(file, p, kind, payload);
        CheckedPart(file', p, kind', payload');
        assert file'[p + 6..p + 7 + |payload|] == file[p + 6..p + 7 + |payload|];
        WordInjective(file, p, i, c);
      } else {
        ChangedIsNotIntact(file, p, kind, payload, i, c, kind', payload');
      }
    }
  }

  /** Where the fragment at `k` starts. */
  function StartAt(fs: seq<Fragment>, o: nat, k: nat): nat
    requires k < |fs|
    decreases k
  {
    if k == 0 then Start(o) else StartAt(fs[1..], EndOf(o, fs[0]), k - 1)
  }

  lemma FirstStored(file: seq<Byte>, fs: seq<Fragment>, o: nat)
    requires Holds(file, fs, o) && o + |Bytes(fs, o)| == |file| && fs != []
    ensures Stored(file, fs[0], Start(o)) && o <= Start(o)
    ensures var e := EndOf(o, fs[0]); Holds(file, fs[1..], e) && e + |Bytes(fs[1..], e)| == |file|
  {
    hide Fits, Bytes, Start, Avail, Physical, NatOf, Zeros;
    StartFacts(o);
    FitsFirst(fs, o);
    FitsKind(fs, o);
    BytesFirst(fs, o);
    var z, f, tail := Zeros(Start(o) - o), Physical(fs[0]), Bytes(fs[1..], EndOf(o, fs[0]));
    assert file[o..] == z + f + tail;
    Parts(file, o, z, f, tail);
  }

  lemma Parts(file: seq<Byte>, o: nat, z: seq<Byte>, f: seq<Byte>, tail: seq<Byte>)
    requires o <= |file| && file[o..] == z + f + tail
    ensures var s, e := o + |z|, o + |z| + |f|; e + |tail| == |file| && file[s..e] == f && file[e..] == tail
  {
    var s, e := o + |z|, o + |z| + |f|;
    assert file[s..e] == file[o..][|z|..|z| + |f|];
    assert file[e..] == file[o..][|z| + |f|..];
  }

  lemma FitsKind(fs: seq<Fragment>, o: nat)
    requires Fits(fs, o) && fs != []
    ensures 1 <= NatOf(fs[0].kind) <= 4
  {
    KindNumbers();
    hide NatOf;
  }

  /** Fragments before the damaged byte are still there. */
  lemma StillStored(file: seq<Byte>, f: Fragment, s: nat, d: nat, c: Byte)
    requires Stored(file, f, s) && s + 7 + |f.payload| <= d < |file|
    ensures Stored(file[d := c], f, s)
  {
    hide Physical, NatOf;
    assert file[d := c][s..s + 7 + |f.payload|] == file[s..s + 7 + |f.payload|];
  }

  lemma {:induction false} StartBehind(fs: seq<Fragment>, o: nat, k: nat)
    requires k < |fs|
    ensures o <= StartAt(fs, o, k)
    decreases k
  {
    hide Start;
    StartBound(o);
    if k > 0 {
      StartBehind(fs[1..], EndOf(o, fs[0]), k - 1);
    }
  }

  /** What a damage to fragment `k` may be. */
  ghost predicate Harms(f: Fragment, i: nat, c: Byte) {
    && (i < 4 || 6 <= i < 7 + |f.payload|) && Physical(f)[i] != c
    && !(f.payload == [] && i == 6 && c == 0)
  }

  lemma HarmedIsStuck(file: seq<Byte>, f: Fragment, s: nat, i: nat, c: Byte, q: nat)
    requires Stored(file, f, s) && Harms(f, i, c)
    ensures !(Path(file[s + i := c], s, q) && Ends(file[s + i := c], true, q))
  {
    hide Length, NatOf, Path, Ends, Physical;
    assert file[s..s + 7 + |f.payload|][i] == file[s + i];
    StoredIsIntact(file, f, s);
    DamagedIsNotIntact(file, s, NatOf(f.kind), f.payload, i, c);
    IntactHeader(file, s, NatOf(f.kind), f.payload);
    hide Intact;
    var file' := file[s + i := c];
    assert file'[s + 4] == file[s + 4] && file'[s + 5] == file[s + 5];
    if f.payload == [] {
      ZeroByte(file'[s + 6]);
    }
    Stuck(file', s, q);
  }

  lemma IntactHeader(file: seq<Byte>, s: nat, kind: nat, payload: seq<Byte>)
    requires Intact(file, true, s, kind, payload)
    ensures Length(file[s + 4], file[s + 5]) == |payload| && NatOf(file[s + 6]) == kind
  {
    hide Length, NatOf, Value, Unmask, Word;
  }

  lemma ZeroByte(b: Byte)
    ensures NatOf(b) == 0 ==> b == 0
  {
  }

  /** A quiet way through a log with a damaged fragment does not exist. */
  lemma {:induction false} NoWay(file: seq<Byte>, fs: seq<Fragment>, o: nat, k: nat, i: nat, c: Byte, q: nat)
    requires Holds(file, fs, o) && o + |Bytes(fs, o)| == |file| && k < |fs| && Harms(fs[k], i, c)
    requires StartAt(fs, o, k) + i < |file|
    ensures var file' := file[StartAt(fs, o, k) + i := c]; !(Path(file', o, q) && Ends(file', true, q))
    decreases k
  {
    hide Holds, Bytes, Start, Path, Ends, Harms, Physical, NatOf;
    var d := StartAt(fs, o, k) + i;
    var file' := file[d := c];
    FirstStored(file, fs, o);
    if Path(file', o, q) && Ends(file', true, q) {
      OverTheTail(file', o, q);
      if k == 0 {
        HarmedIsStuck(file, fs[0], Start(o), i, c, q);
        assert false;
      } else {
        var e := EndOf(o, fs[0]);
        StartBehind(fs[1..], e, k - 1);
        StillStored(file, fs[0], Start(o), d, c);
        StoredIsIntact(file', fs[0], Start(o));
        OverAFragment(file', Start(o), NatOf(fs[0].kind), fs[0].payload, q);
        NoWay(file, fs[1..], e, k - 1, i, c, q);
        assert false;
      }
    }
  }

  /** Write records, change one byte of the checksum, the type or the payload of any fragment, and read: something is
      reported. */
  method WriteDamageRead(records: seq<seq<Byte>>, k: nat, i: nat, c: Byte)
    returns (got: seq<seq<Byte>>, reports: seq<nat>)
    requires k < |AllFragments(records, 0)| && Harms(AllFragments(records, 0)[k], i, c)
    ensures reports != []
  {
    hide AllFragments, Bytes, Holds, Harms, AllAssembled, AllLinked, StopsQuietly, Path, Ends, StartAt;
    var file := WriteAll(records);
    var fs := AllFragments(records, 0);
    FileStart(file, records);
    var d := StartAt(fs, 0, k) + i;
    HarmedInside(file, fs, 0, k, i, c);
    ghost var pieces, unfinished;
    got, reports, pieces, unfinished := ReadAll(file[d := c], true, records);
    if reports == [] {
      ghost var q := QuietPath(file[d := c], pieces, got, unfinished);
      NoWay(file, fs, 0, k, i, c, q);
    }
  }

  /** The length is not covered by the checksum: with a greater length, an empty record at the end of the file is taken
      for an unfinished write. */
  method LengthDamageIsSilent() returns (file: seq<Byte>, ok: bool, reports: seq<nat>)
    ensures var written := Bytes(AllFragments([[]], 0), 0); |written| == 7 && written[4] == 0 && file == written[4 := 1]
    ensures !ok && reports == []
  {
    hide Assembled, Linked, StopsQuietly, Bytes;
    var written := WriteAll([[]]);
    OneEmptyRecord();
    file := written[4 := 1];
    assert Length(1, 0) == 1;
    hide Length;
    assert Torn(file, 0);
    var reader := new Reader(file, true);
    var record;
    ghost var pieces;
    ok, record, pieces := reader.ReadRecord([[]], 0);
    reports := reader.reports;
  }

  lemma OneEmptyRecord()
    ensures Bytes(AllFragments([[]], 0), 0) == [0x05, 0x2b, 0x28, 0x43, 0x00, 0x00, 0x01]
  {
    EmptyRecordBytes();
    hide FragmentsOf, Physical;
    var f := Fragment(1, []);
    assert AllFragments([[]], 0) == [f] + AllFragments([], RecordEnd([], 0));
    assert Start(0) == 0 && Zeros(0) == [];
    assert Bytes([f], 0) == Zeros(0) + Physical(f) + Bytes([f][1..], EndOf(0, f));
  }

  lemma {:induction false} HarmedInside(file: seq<Byte>, fs: seq<Fragment>, o: nat, k: nat, i: nat, c: Byte)
    requires Holds(file, fs, o) && o + |Bytes(fs, o)| == |file| && k < |fs| && Harms(fs[k], i, c)
    ensures StartAt(fs, o, k) + i < |file|
    decreases k
  {
    hide Holds, Bytes, Start, Physical, NatOf;
    FirstStored(file, fs, o);
    if k > 0 {
      HarmedInside(file, fs[1..], EndOf(o, fs[0]), k - 1, i, c);
    }
  }
}
