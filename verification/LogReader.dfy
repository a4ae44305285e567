/** Reading a log back, with its tail possibly cut off (db/log_reader.cc). */
module LogReader {
  import opened Crc32c
  import opened LogFormat
  import opened LogWriter
  import opened LogPieces

  const ZERO: nat := 0
  const FULL: nat := 1
  const FIRST: nat := 2
  const MIDDLE: nat := 3
  const LAST: nat := 4
  const EOF: nat := 5
  const BAD_RECORD: nat := 6

  // ---------------------------------------------------------------------------------------------------------
  // The reader inside a prefix of a well-formed log
  // ---------------------------------------------------------------------------------------------------------

  /** The file continues at `o` with as much of the bytes of `rest` as it has. */
  ghost predicate Holds(file: seq<Byte>, rest: seq<Fragment>, o: nat) {
    && o <= |file|
    && Fits(rest, o)
    && |file| - o <= |Bytes(rest, o)|
    && file[o..] == Bytes(rest, o)[..|file| - o]
  }

  /** The buffer holds what was read of the block at `o` and not yet consumed. */
  ghost predicate Buffered(file: seq<Byte>, o: nat, filePos: nat, buffer: seq<Byte>, eof: bool) {
    && o <= filePos <= |file|
    && buffer == file[o..filePos]
    && (if eof then filePos == |file| < o - o % BLOCK_SIZE + BLOCK_SIZE
        else filePos % BLOCK_SIZE == 0 && filePos <= o + BLOCK_SIZE)
  }

  /** Whether the next fragment ends inside the file. */
  ghost predicate Whole(file: seq<Byte>, rest: seq<Fragment>, o: nat) {
    rest != [] && EndOf(o, rest[0]) <= |file|
  }

  /** A record never starts in the tail of a block that the reader skips. */
  lemma NotATail(file: seq<Byte>, o: nat, filePos: nat, buffer: seq<Byte>, eof: bool)
    requires Buffered(file, o, filePos, buffer, eof)
    requires |buffer| >= HEADER_SIZE
    ensures Start(o) == o
    ensures !eof ==> o + HEADER_SIZE + Avail(o) == filePos
  {
    assert |buffer| == filePos - o;
    if !eof {
      BlockEnd(o, filePos);
    }
  }

  lemma BlockEnd(o: nat, e: nat)
    requires e % BLOCK_SIZE == 0 && o + HEADER_SIZE <= e <= o + BLOCK_SIZE
    ensures Start(o) == o && o + HEADER_SIZE + Avail(o) == e
  {
    var k, j := e / BLOCK_SIZE, o / BLOCK_SIZE;
    assert k == j + 1;
  }

  /** Skipping a tail leaves the same fragments to read. */
  lemma AfterTail(file: seq<Byte>, rest: seq<Fragment>, o: nat, filePos: nat)
    requires Holds(file, rest, o)
    requires o <= filePos <= |file| && filePos % BLOCK_SIZE == 0 && filePos < o + HEADER_SIZE
    ensures Holds(file, rest, filePos)
    ensures Whole(file, rest, filePos) == Whole(file, rest, o)
    ensures rest != [] ==> EndOf(o, rest[0]) == EndOf(filePos, rest[0]) && Start(filePos) == Start(o)
  {
    hide Fits, Bytes, Zeros, Physical;
    if o != filePos {
      BytesNone(o);
      TailStart(o, filePos);
      BytesFrom(rest, o, filePos);
      assert file[filePos..] == file[o..][filePos - o..];
      assert file[o..][filePos - o..] == Bytes(rest, o)[filePos - o..][..|file| - filePos];
    }
  }

  lemma BytesNone(o: nat)
    ensures Bytes([], o) == []
  {
  }

  lemma TailStart(o: nat, e: nat)
    requires e % BLOCK_SIZE == 0 && o < e < o + HEADER_SIZE
    ensures Start(o) == e && Start(e) == e && Avail(o) == Avail(e)
  {
    var k, j := e / BLOCK_SIZE, o / BLOCK_SIZE;
    assert k == j + 1;
  }

  lemma BytesFrom(rest: seq<Fragment>, o: nat, e: nat)
    requires Start(o) == e == Start(e) && o <= e && Avail(o) == Avail(e)
    requires rest != []
    ensures |Bytes(rest, o)| == e - o + |Bytes(rest, e)|
    ensures Bytes(rest, o)[e - o..] == Bytes(rest, e)
    ensures Fits(rest, o) ==> Fits(rest, e)
  {
    hide Physical, Start, Avail, Bytes, Zeros;
    BytesFirst(rest, o);
    BytesFirst(rest, e);
    var body := Physical(rest[0]) + Bytes(rest[1..], EndOf(o, rest[0]));
    assert Zeros(0) == [];
    assert Bytes(rest, e) == body;
    assert Bytes(rest, o) == Zeros(e - o) + body;
  }

  /** A whole header in the buffer is the header of the next fragment. */
  lemma HeaderRead(file: seq<Byte>, rest: seq<Fragment>, o: nat, filePos: nat, buffer: seq<Byte>, eof: bool)
    requires Holds(file, rest, o) && Buffered(file, o, filePos, buffer, eof)
    requires |buffer| >= HEADER_SIZE
    ensures rest != [] && rest[0].kind != ZERO_TYPE
    ensures var f := rest[0];
      && Length(buffer[4], buffer[5]) == |f.payload|
      && buffer[6] == f.kind
      && Unmask(Word(buffer, 0)) == Value([f.kind] + f.payload)
    ensures EndOf(o, rest[0]) == o + HEADER_SIZE + |rest[0].payload|
    ensures !Whole(file, rest, o) ==> eof
    ensures HEADER_SIZE + |rest[0].payload| <= |buffer| <==> Whole(file, rest, o)
  {
    hide Bytes, Fits, Value, Mask, Unmask, Join, ByteOf, Length, Start, Avail, Header, Fixed32;
    NotATail(file, o, filePos, buffer, eof);
    BytesNone(o);
    var f := rest[0];
    FitsFirst(rest, o);
    BytesHere(rest, o);
    var all := Bytes(rest, o);
    assert forall i | 0 <= i < |buffer| :: buffer[i] == file[o..][i] == all[i];
    HeaderFields(f, buffer);
  }

  lemma FitsFirst(rest: seq<Fragment>, o: nat)
    requires rest != [] && Fits(rest, o)
    ensures rest[0].kind != ZERO_TYPE && |rest[0].payload| <= Avail(o) < 65536
    ensures Fits(rest[1..], EndOf(o, rest[0]))
  {
  }

  lemma BytesHere(rest: seq<Fragment>, o: nat)
    requires rest != [] && Start(o) == o
    ensures Bytes(rest, o) == Header(rest[0]) + rest[0].payload + Bytes(rest[1..], EndOf(o, rest[0]))
  {
    hide Start, Bytes, Header, Zeros;
    BytesFirst(rest, o);
    assert Zeros(0) == [];
  }

  lemma HeaderFields(f: Fragment, buffer: seq<Byte>)
    requires |f.payload| < 65536
    requires |buffer| >= HEADER_SIZE && forall i | 0 <= i < HEADER_SIZE :: buffer[i] == Header(f)[i]
    ensures Length(buffer[4], buffer[5]) == |f.payload|
    ensures buffer[6] == f.kind
    ensures Unmask(Word(buffer, 0)) == Value([f.kind] + f.payload)
  {
    hide Value, Mask, Unmask, Join, ByteOf, Length, Fixed32;
    LengthRoundTrip(|f.payload|);
    var crc := Value([f.kind] + f.payload);
    UnmaskMask(crc);
    Fixed32RoundTrip(Mask(crc));
    var w := Fixed32(Mask(crc));
    assert forall i | 0 <= i < 4 :: Header(f)[i] == w[i];
    assert Word(buffer, 0) == Word(w, 0);
  }

  /** A whole fragment in the buffer is its payload, and what follows is what is left to read. */
  lemma PayloadRead(file: seq<Byte>, rest: seq<Fragment>, o: nat, filePos: nat, buffer: seq<Byte>, eof: bool)
    requires Holds(file, rest, o) && Buffered(file, o, filePos, buffer, eof)
    requires |buffer| >= HEADER_SIZE && Whole(file, rest, o)
    requires EndOf(o, rest[0]) == o + HEADER_SIZE + |rest[0].payload|
    requires HEADER_SIZE + |rest[0].payload| <= |buffer|
    requires buffer[6] == rest[0].kind
    ensures var f, n := rest[0], HEADER_SIZE + |rest[0].payload|;
      && buffer[HEADER_SIZE..n] == f.payload
      && buffer[6..n] == [f.kind] + f.payload
      && Holds(file, rest[1..], EndOf(o, f))
      && Buffered(file, EndOf(o, f), filePos, buffer[n..], eof)
  {
    hide Bytes, Fits, Start, Avail, Header;
    NotATail(file, o, filePos, buffer, eof);
    FitsFirst(rest, o);
    BytesHere(rest, o);
    var f, n := rest[0], HEADER_SIZE + |rest[0].payload|;
    var all, tail := Bytes(rest, o), Bytes(rest[1..], EndOf(o, f));
    Slices(file, o, all, Header(f), f.payload, tail);
    SliceOfSlice(file, o, filePos, HEADER_SIZE, n);
    SliceOfSlice(file, o, filePos, n, |buffer|);
    assert buffer[6..n] == [buffer[6]] + buffer[HEADER_SIZE..n];
    assert buffer[n..] == buffer[n..|buffer|];
    InSameBlock(|file|, o, n);
  }

  lemma SliceOfSlice(file: seq<Byte>, o: nat, p: nat, a: nat, b: nat)
    requires o <= p <= |file| && a <= b <= p - o
    ensures file[o..p][a..b] == file[o + a..o + b]
  {
    forall i | 0 <= i < b - a
      ensures file[o..p][a..b][i] == file[o + a..o + b][i]
    {
      assert file[o..p][a + i] == file[o + a + i];
    }
  }

  lemma InSameBlock(size: nat, o: nat, n: nat)
    requires o + n <= size
    ensures size < o - o % BLOCK_SIZE + BLOCK_SIZE ==> size < o + n - (o + n) % BLOCK_SIZE + BLOCK_SIZE
  {
    if size < o - o % BLOCK_SIZE + BLOCK_SIZE {
      assert (o + n) / BLOCK_SIZE == o / BLOCK_SIZE;
    }
  }

  lemma Slices(file: seq<Byte>, o: nat, all: seq<Byte>, h: seq<Byte>, p: seq<Byte>, tail: seq<Byte>)
    requires all == h + p + tail && o + |h| + |p| <= |file|
    requires |file| - o <= |all| && file[o..] == all[..|file| - o]
    ensures file[o + |h|..o + |h| + |p|] == p
    ensures |file| - (o + |h| + |p|) <= |tail|
    ensures file[o + |h| + |p|..] == tail[..|file| - (o + |h| + |p|)]
  {
    var i, j := o + |h|, o + |h| + |p|;
    assert file[i..j] == file[o..][|h|..|h| + |p|] == all[|h|..|h| + |p|];
    assert file[j..] == file[o..][|h| + |p|..];
  }

  /** Inside a prefix of a log, the header is that of the next fragment, and its payload follows if it is whole. */
  lemma FragmentAhead(file: seq<Byte>, rest: seq<Fragment>, q: nat, filePos: nat, buffer: seq<Byte>, eof: bool)
    requires Holds(file, rest, q) && Buffered(file, q, filePos, buffer, eof) && |buffer| >= HEADER_SIZE
    ensures rest != [] && NatOf(buffer[6]) == NatOf(rest[0].kind) != ZERO
    ensures var n := HEADER_SIZE + Length(buffer[4], buffer[5]);
      && (n <= |buffer| <==> Whole(file, rest, q))
      && (!Whole(file, rest, q) ==> eof)
      && (Whole(file, rest, q) ==>
            && buffer[HEADER_SIZE..n] == rest[0].payload
            && Value(buffer[6..n]) == Unmask(Word(buffer, 0))
            && Holds(file, rest[1..], EndOf(q, rest[0]))
            && Buffered(file, EndOf(q, rest[0]), filePos, buffer[n..], eof))
  {
    hide Holds, Buffered, Whole, Unmask, Word, Value, Length, EndOf, NatOf;
    HeaderRead(file, rest, q, filePos, buffer, eof);
    KindNumber(rest[0].kind);
    if Whole(file, rest, q) {
      PayloadRead(file, rest, q, filePos, buffer, eof);
    }
  }

  lemma KindNumber(b: Byte)
    ensures NatOf(b) == ZERO <==> b == ZERO_TYPE
  {
  }

  lemma KindNumbers()
    ensures NatOf(FULL_TYPE) == FULL && NatOf(FIRST_TYPE) == FIRST && NatOf(MIDDLE_TYPE) == MIDDLE
      && NatOf(LAST_TYPE) == LAST
  {
  }

  /** Less than a header before the end of the file: no whole fragment follows. */
  lemma TooShort(file: seq<Byte>, rest: seq<Fragment>, o: nat, filePos: nat, buffer: seq<Byte>, eof: bool)
    requires Buffered(file, o, filePos, buffer, eof)
    requires |buffer| < HEADER_SIZE && eof
    ensures !Whole(file, rest, o)
  {
    hide Start;
    StartBound(o);
  }

  /** Less than a header before the end of a block: what follows is in the next block. */
  lemma BlockRead(file: seq<Byte>, rest: seq<Fragment>, o: nat, filePos: nat, buffer: seq<Byte>, eof: bool,
                  filePos': nat)
    requires Holds(file, rest, o) && Buffered(file, o, filePos, buffer, eof)
    requires |buffer| < HEADER_SIZE && !eof
    requires filePos' == if filePos + BLOCK_SIZE <= |file| then filePos + BLOCK_SIZE else |file|
    ensures Holds(file, rest, filePos)
    ensures Buffered(file, filePos, filePos', file[filePos..filePos'], |file| < filePos + BLOCK_SIZE)
    ensures Whole(file, rest, filePos) == Whole(file, rest, o)
    ensures rest != [] ==> EndOf(o, rest[0]) == EndOf(filePos, rest[0])
  {
    hide Holds, Whole, EndOf;
    AfterTail(file, rest, o, filePos);
  }

  // ---------------------------------------------------------------------------------------------------------
  // Logical records
  // ---------------------------------------------------------------------------------------------------------

  /** Where the reader is inside the first of `records`, which starts at `o`: `left` of it is in the file at `q`. */
  ghost predicate Reading(records: seq<seq<Byte>>, o: nat, left: seq<Byte>, q: nat, inFragmented: bool,
                          scratch: seq<Byte>)
  {
    if records == [] then
      q == o && !inFragmented && scratch == []
    else
      && RecordEnd(left, q) == RecordEnd(records[0], o)
      && scratch + left == records[0]
      && (!inFragmented ==> q == o && scratch == [])
  }

  function Ahead(records: seq<seq<Byte>>, o: nat, left: seq<Byte>, q: nat, inFragmented: bool): seq<Fragment> {
    if records == [] then []
    else FragmentsOf(left, q, !inFragmented) + AllFragments(records[1..], RecordEnd(records[0], o))
  }

  lemma AtStart(records: seq<seq<Byte>>, o: nat)
    ensures var left := if records == [] then [] else records[0];
      Reading(records, o, left, o, false, []) && Ahead(records, o, left, o, false) == AllFragments(records, o)
  {
    hide FragmentsOf, RecordEnd;
  }

  /** What the next fragment is, and what is ahead after it. */
  lemma NextFragment(records: seq<seq<Byte>>, o: nat, left: seq<Byte>, q: nat, inFragmented: bool, scratch: seq<Byte>)
    requires Reading(records, o, left, q, inFragmented, scratch) && records != []
    ensures var rest := Ahead(records, o, left, q, inFragmented);
      && rest != []
      && EndOf(q, rest[0]) <= RecordEnd(records[0], o)
      && rest[0].payload <= left
      && var left' := left[|rest[0].payload|..];
      && (if |left| <= Avail(q) then
        && rest[0].kind == (if inFragmented then LAST_TYPE else FULL_TYPE)
        && rest[0].payload == left
        && EndOf(q, rest[0]) == RecordEnd(records[0], o)
        && rest[1..] == AllFragments(records[1..], RecordEnd(records[0], o))
      else
        && rest[0].kind == (if inFragmented then MIDDLE_TYPE else FIRST_TYPE)
        && Reading(records, o, left', EndOf(q, rest[0]), true, scratch + rest[0].payload)
        && rest[1..] == Ahead(records, o, left', EndOf(q, rest[0]), true))
  {
    hide Start, Avail, AllFragments;
    var f, more := FragmentsOf(left, q, !inFragmented), AllFragments(records[1..], RecordEnd(records[0], o));
    var n := Avail(q);
    assert (f + more)[0] == f[0] && (f + more)[1..] == f[1..] + more;
    EndMonotone(left, q);
    if |left| <= n {
      assert f[1..] == [];
    } else {
      assert f[1..] == FragmentsOf(left[n..], EndOf(q, f[0]), false);
      assert scratch + left[..n] + left[n..] == scratch + left;
    }
  }

  lemma {:induction false} EndMonotone(d: seq<Byte>, o: nat)
    ensures Start(o) + HEADER_SIZE + (if |d| <= Avail(o) then |d| else Avail(o)) <= RecordEnd(d, o)
    decreases |d|, Avail(o) == 0
  {
    hide Start, Avail;
    var n := Avail(o);
    if |d| > n {
      var o1 := Start(o) + HEADER_SIZE + n;
      AvailNext(o);
      EndMonotone(d[n..], o1);
      StartBound(o1);
    }
  }

  /** The buffer is the last part of what was read of the file. */
  ghost predicate Window(file: seq<Byte>, filePos: nat, buffer: seq<Byte>) {
    |buffer| <= filePos <= |file| && buffer == file[filePos - |buffer|..filePos]
  }

  /** Blocks are read one at a time, up to the end of the file. */
  ghost predicate Aligned(size: nat, filePos: nat, buffered: nat, eof: bool) {
    if eof then filePos == size && buffered <= size % BLOCK_SIZE
    else filePos % BLOCK_SIZE == 0 && buffered <= BLOCK_SIZE
  }

  lemma AlignedLess(size: nat, filePos: nat, buffered: nat, eof: bool)
    requires Aligned(size, filePos, buffered, eof)
    ensures forall n: nat :: n <= buffered ==> Aligned(size, filePos, n, eof)
  {
  }

  lemma TornBlock(file: seq<Byte>, filePos: nat, buffered: nat, eof: bool)
    requires buffered <= filePos <= |file| && Torn(file, filePos - buffered) && Aligned(|file|, filePos, buffered, eof)
    ensures 7 <= buffered ==> eof && buffered < 7 + Length(file[filePos - buffered + 4], file[filePos - buffered + 5])
  {
    hide Length;
    if !eof && buffered > 0 {
      LastBlock(filePos - buffered, filePos);
    }
  }

  lemma HeaderThere(file: seq<Byte>, filePos: nat, buffered: nat, eof: bool)
    requires buffered <= filePos <= |file| && buffered < 7 && Aligned(|file|, filePos, buffered, eof)
    requires Torn(file, filePos - buffered) || Zeroed(file, filePos - buffered)
    ensures buffered == 0 && !eof
  {
    hide Length, NatOf;
    if !eof && buffered > 0 {
      LastBlock(filePos - buffered, filePos);
    }
  }

  lemma LastBlock(a: nat, e: nat)
    requires e % BLOCK_SIZE == 0 && a < e <= a + BLOCK_SIZE
    ensures e == a - a % BLOCK_SIZE + BLOCK_SIZE
  {
    var k := e / BLOCK_SIZE;
    assert a / BLOCK_SIZE == k - 1;
  }

  lemma ZeroedHeader(file: seq<Byte>, a: nat)
    requires Zeroed(file, a)
    ensures a + 7 <= |file| && Length(file[a + 4], file[a + 5]) == 0 && NatOf(file[a + 6]) == 0
  {
    hide Length, NatOf;
  }

  /** What is buffered lies in one block. */
  lemma InBlock(size: nat, filePos: nat, buffered: nat, eof: bool)
    requires Aligned(size, filePos, buffered, eof) && buffered <= filePos
    ensures (filePos - buffered) % BLOCK_SIZE + buffered <= BLOCK_SIZE && buffered <= BLOCK_SIZE
    ensures if eof then filePos == size else filePos % BLOCK_SIZE == 0
  {
    if !eof && 0 < buffered < BLOCK_SIZE {
      var k := filePos / BLOCK_SIZE;
      assert filePos - buffered == (k - 1) * BLOCK_SIZE + (BLOCK_SIZE - buffered);
    }
  }

  class Reader {
    const file: seq<Byte>
    const checksum: bool
    var filePos: nat
    var buffer: seq<Byte>
    var eof: bool
    var endOfBufferOffset: nat
    var lastRecordOffset: int
    /** The sizes reported as dropped. */
    var reports: seq<nat>

    ghost predicate Valid()
      reads this
    {
      && filePos <= |file| && endOfBufferOffset == filePos && |buffer| <= filePos && Window(file, filePos, buffer)
      && Aligned(|file|, filePos, |buffer|, eof)
    }

    /** Where the reader is in the file. */
    ghost function Position(): nat
      requires Valid()
      reads this
    {
      filePos - |buffer|
    }

    ghost predicate At(rest: seq<Fragment>, o: nat)
      reads this
    {
      Holds(file, rest, o) && Buffered(file, o, filePos, buffer, eof)
    }

    ghost function Remaining(): nat
      requires Valid()
      reads this
    {
      |file| - filePos + |buffer|
    }

    constructor (file: seq<Byte>, checksum: bool)
      ensures this.file == file && this.checksum == checksum && Valid() && reports == []
      ensures filePos == 0 && buffer == [] && !eof
    {
      this.file, this.checksum := file, checksum;
      filePos, buffer, eof := 0, [], false;
      endOfBufferOffset, lastRecordOffset, reports := 0, 0, [];
    }

    method ReportCorruption(bytes: nat)
      modifies this`reports
      ensures reports == old(reports) + [bytes] && Total(reports) == Total(old(reports)) + bytes
    {
      TotalMore(reports, bytes);
      reports := reports + [bytes];
    }

    /** file_->Read(kBlockSize, ...). */
    method ReadBlock()
      requires Valid() && !eof
      modifies this`filePos, this`buffer, this`eof, this`endOfBufferOffset
      ensures Valid()
      ensures filePos == (if old(filePos) + BLOCK_SIZE <= |file| then old(filePos) + BLOCK_SIZE else |file|)
      ensures eof <==> |file| < old(filePos) + BLOCK_SIZE
      ensures buffer == file[old(filePos)..filePos]
    {
      var end := if filePos + BLOCK_SIZE <= |file| then filePos + BLOCK_SIZE else |file|;
      buffer := file[filePos..end];
      filePos := end;
      endOfBufferOffset := endOfBufferOffset + |buffer|;
      if |buffer| < BLOCK_SIZE {
        eof := true;
      }
    }

    /**
     * Inside a prefix of a well-formed log, the next fragment if the prefix holds all of it and otherwise the end of
     * the file, without a report either way. Whatever the file holds, no fragment is given out whose checksum is wrong.
     */
    method ReadPhysicalRecord(ghost rest: seq<Fragment>, ghost o: nat) returns (kind: nat, fragment: seq<Byte>)
      requires Valid()
      modifies this`filePos, this`buffer, this`eof, this`endOfBufferOffset, this`reports
      ensures Valid()
      ensures kind != EOF ==> Remaining() < old(Remaining())
      ensures old(At(rest, o)) ==> reports == old(reports)
      ensures old(At(rest, o)) && Whole(file, rest, o) ==>
        kind == NatOf(rest[0].kind) && fragment == rest[0].payload && At(rest[1..], EndOf(o, rest[0]))
      ensures old(At(rest, o)) && !Whole(file, rest, o) ==> kind == EOF
      ensures old(Position()) <= Position()
      ensures |reports| >= |old(reports)| && (kind != BAD_RECORD ==> reports == old(reports))
      ensures Torn(file, old(Position())) ==> kind == EOF
      ensures Zeroed(file, old(Position())) ==> kind == BAD_RECORD && reports == old(reports)
      ensures Passed(file, checksum, old(Position()), Position(), kind, fragment, |reports| == |old(reports)|,
                     Total(reports) - Total(old(reports)))
    {
      hide Holds, Buffered, EndOf, NatOf, Window, Aligned, Passed, Skips, Total, EndsQuietly, Torn,
           Zeroed;
      var more;
      ghost var q;
      more, q := FillBuffer(rest, o);
      if !more {
        PassedEnd(file, checksum, old(Position()), Position());
        return EOF, [];
      }
      ghost var at := Position();
      kind, fragment := ParseRecord(rest, q);
      PassedFrom(file, checksum, old(Position()), at, Position(), kind, fragment, |reports| == |old(reports)|,
                 Total(reports) - Total(old(reports)));
    }

    /** Reads on until the buffer holds a header. */
    method FillBuffer(ghost rest: seq<Fragment>, ghost o: nat) returns (more: bool, ghost q: nat)
      requires Valid()
      modifies this`filePos, this`buffer, this`eof, this`endOfBufferOffset
      ensures Valid() && Remaining() <= old(Remaining()) && old(Position()) <= Position()
      ensures more ==> |buffer| >= HEADER_SIZE
      ensures old(At(rest, o)) && more ==> At(rest, q) && Whole(file, rest, q) == Whole(file, rest, o)
      ensures old(At(rest, o)) && more && rest != [] ==> EndOf(o, rest[0]) == EndOf(q, rest[0])
      ensures old(At(rest, o)) && !more ==> !Whole(file, rest, o)
      ensures more ==> Skips(file, checksum, old(Position()), Position())
      ensures !more ==> EndsQuietly(file, checksum, old(Position()))
      ensures Torn(file, old(Position())) || Zeroed(file, old(Position())) ==> more && Position() == old(Position())
    {
      hide Holds, Buffered, Whole, EndOf, Window, Aligned, Skips, EndsQuietly, Torn, Zeroed;
      ghost var from := Position();
      ghost var there := Torn(file, Position()) || Zeroed(file, Position());
      SkipsNothing(file, checksum, Position());
      ghost var good := At(rest, o);
      q := o;
      while |buffer| < HEADER_SIZE
        invariant Valid() && Remaining() <= old(Remaining()) && from <= Position()
        invariant good ==> At(rest, q) && Whole(file, rest, q) == Whole(file, rest, o)
        invariant good && rest != [] ==> EndOf(o, rest[0]) == EndOf(q, rest[0])
        invariant Skips(file, checksum, from, Position())
        invariant there ==> Position() == from
        decreases !eof, |file| - filePos
      {
        if there {
          HeaderThere(file, filePos, |buffer|, eof);
        }
        if eof {
          EndsShort(file, checksum, from, filePos, |buffer|);
          AlignedLess(|file|, filePos, |buffer|, eof);
          if good {
            TooShort(file, rest, q, filePos, buffer, eof);
          }
          buffer := [];
          EmptyWindow(file, filePos);
          return false, q;
        }
        ghost var pos, was := filePos, buffer;
        SkipsTrailer(file, checksum, from, pos, |buffer|);
        ReadBlock();
        if good {
          BlockRead(file, rest, q, pos, was, false, filePos);
          q := pos;
        }
      }
      more := true;
    }

    /** Gives up what is buffered, with a report of its size. */
    method DropBuffer()
      requires Valid() && buffer != []
      modifies this`buffer, this`reports
      ensures Valid() && buffer == [] && |reports| == |old(reports)| + 1
      ensures Passed(file, checksum, old(Position()), Position(), BAD_RECORD, [], false,
                     Total(reports) - Total(old(reports)))
    {
      hide Window, Passed, Total;
      var drop := |buffer|;
      EmptyWindow(file, filePos);
      PassedDropped(file, checksum, Position(), filePos);
      buffer := [];
      ReportCorruption(drop);
    }

    /** Takes the record at the front of the buffer apart. */
    method ParseRecord(ghost rest: seq<Fragment>, ghost q: nat) returns (kind: nat, fragment: seq<Byte>)
      requires Valid() && |buffer| >= HEADER_SIZE
      modifies this`buffer, this`reports
      ensures Valid() && Remaining() < old(Remaining()) && old(Position()) <= Position()
      ensures old(At(rest, q)) ==> reports == old(reports)
      ensures old(At(rest, q)) && Whole(file, rest, q) ==>
        kind == NatOf(rest[0].kind) && fragment == rest[0].payload && At(rest[1..], EndOf(q, rest[0]))
      ensures old(At(rest, q)) && !Whole(file, rest, q) ==> kind == EOF
      ensures |reports| >= |old(reports)| && (kind != BAD_RECORD ==> reports == old(reports))
      ensures Torn(file, old(Position())) ==> kind == EOF
      ensures Zeroed(file, old(Position())) ==> kind == BAD_RECORD && reports == old(reports)
      ensures Passed(file, checksum, old(Position()), Position(), kind, fragment, |reports| == |old(reports)|,
                     Total(reports) - Total(old(reports)))
    {
      hide Holds, Buffered, Whole, Unmask, Word, Value, Length, EndOf, NatOf, Intact, Window, Aligned, Passed, Total,
           Torn, Zeroed;
      EmptyWindow(file, filePos);
      HeaderHere(file, filePos, buffer, eof);
      AlignedLess(|file|, filePos, |buffer|, eof);
      ghost var at := Position();
      if At(rest, q) {
        FragmentAhead(file, rest, q, filePos, buffer, eof);
      }
      fragment := [];
      var length := Length(buffer[4], buffer[5]);
      kind := NatOf(buffer[6]);
      if HEADER_SIZE + length > |buffer| {
        if !eof {
          DropBuffer();
          return BAD_RECORD, [];
        }
        buffer := [];
        PassedTorn(file, checksum, at, filePos);
        return EOF, [];
      }
      if kind == ZERO && length == 0 {
        buffer := [];
        PassedZero(file, checksum, at, filePos, eof);
        return BAD_RECORD, [];
      }
      if checksum {
        var expected := Unmask(Word(buffer, 0));
        var actual := Value(buffer[6..HEADER_SIZE + length]);
        if actual != expected {
          DropBuffer();
          return BAD_RECORD, [];
        }
      }
      IntactHere(file, checksum, filePos, buffer, length, eof);
      fragment := buffer[HEADER_SIZE..HEADER_SIZE + length];
      buffer := buffer[HEADER_SIZE + length..];
      PassedIntact(file, checksum, at, kind, fragment);
    }

    /**
     * Inside a prefix of a log of `records`, the next record if the prefix holds all of it and otherwise nothing,
     * without a report either way. Whatever the file holds, a record is put together from intact fragments, in order.
     */
    method ReadRecord(ghost records: seq<seq<Byte>>, ghost o: nat)
      returns (ok: bool, record: seq<Byte>, ghost pieces: seq<Piece>)
      requires Valid()
      modifies this`filePos, this`buffer, this`eof, this`endOfBufferOffset, this`lastRecordOffset, this`reports
      ensures Valid()
      ensures ok ==> Remaining() < old(Remaining())
      ensures old(At(AllFragments(records, o), o)) ==>
        && reports == old(reports)
        && ok == (records != [] && RecordEnd(records[0], o) <= |file|)
        && (ok ==>
          && record == records[0]
          && lastRecordOffset == Start(o)
          && At(AllFragments(records[1..], RecordEnd(records[0], o)), RecordEnd(records[0], o)))
      ensures old(Position()) <= Position()
      ensures ok ==> Assembled(file, checksum, pieces, old(Position()), record) && pieces != []
      ensures ok ==> End(pieces[|pieces| - 1]) == Position()
      ensures |reports| >= |old(reports)|
      ensures Total(reports) + |record| <= Total(old(reports)) + Position() - old(Position())
      ensures Torn(file, old(Position())) ==> !ok && reports == old(reports)
      ensures ok && |reports| == |old(reports)| ==> Linked(file, checksum, old(Position()), pieces, Position())
      ensures !ok && |reports| == |old(reports)| ==> StopsQuietly(file, checksum, old(Position()), pieces)
    {
      hide Passed, Track, Assembled, Window, Aligned, Holds, Buffered, Start, RecordEnd, AllFragments, Reading, Ahead,
           Avail, NatOf, Total, Linked, StopsQuietly, EndOf, Torn;
      KindNumbers();
      AtStart(records, o);
      ghost var good, q, left := At(AllFragments(records, o), o), o, if records == [] then [] else records[0];
      ghost var rest := Ahead(records, o, left, q, false);
      var scratch, inFragmented, prospective: int := [], false, 0;
      ghost var from, was, spent := Position(), |reports|, 0;
      pieces := [];
      TrackNothing(file, checksum, from);
      while true
        invariant Valid() && Remaining() <= old(Remaining()) && from <= Position()
        invariant Torn(file, from) ==> Position() == from && reports == old(reports)
        invariant was <= |reports| && spent == Total(reports) - Total(old(reports))
        invariant Track(file, checksum, from, Position(), inFragmented, scratch, pieces, |reports| == was, spent)
        invariant good ==>
          && reports == old(reports) && At(rest, q)
          && Reading(records, o, left, q, inFragmented, scratch) && rest == Ahead(records, o, left, q, inFragmented)
          && (inFragmented ==> prospective == Start(o))
        decreases Remaining()
      {
        ghost var kept, at, count, total := scratch, Position(), |reports|, Total(reports);
        if good {
          Situation(file, records, o, left, q, inFragmented, scratch);
        }
        var kind, fragment := ReadPhysicalRecord(rest, q);
        var physical := endOfBufferOffset - |buffer| - HEADER_SIZE - |fragment|;
        if good && Whole(file, rest, q) {
          PhysicalOffset(file, rest, q, filePos, buffer, eof);
        }
        ghost var quiet, more := |reports| == count, Total(reports) - total;
        var done;
        done, ok, inFragmented, scratch, prospective, pieces, spent := TakeFragment(kind, fragment, physical,
          inFragmented, scratch, prospective, from, at, Position(), pieces, count == was, spent, quiet, more);
        if done {
          return ok, scratch, pieces;
        }
        if good {
          assert kept == [] ==> kept + fragment == fragment;
          left := left[|fragment|..];
          q := EndOf(q, rest[0]);
          rest := rest[1..];
        }
      }
    }

    /** What becomes of the record that is being put together when a fragment comes. */
    method TakeFragment(kind: nat, fragment: seq<Byte>, physical: int, inFragmented: bool, scratch: seq<Byte>,
                        prospective: int, ghost from: nat, ghost at: nat, ghost b: nat, ghost pieces: seq<Piece>,
                        ghost quiet: bool, ghost spent: int, ghost quiet': bool, ghost more: int)
      returns (done: bool, ok: bool, inFragmented': bool, scratch': seq<Byte>, prospective': int,
               ghost pieces': seq<Piece>, ghost spent': int)
      requires Track(file, checksum, from, at, inFragmented, scratch, pieces, quiet, spent)
      requires Passed(file, checksum, at, b, kind, fragment, quiet', more)
      modifies this`reports, this`lastRecordOffset
      ensures |reports| >= |old(reports)| && Total(reports) - Total(old(reports)) == spent' - spent - more
      ensures var silent := quiet && quiet' && |reports| == |old(reports)|;
        && (!done ==> Track(file, checksum, from, b, inFragmented', scratch', pieces', silent, spent'))
        && (done && ok ==>
              && Assembled(file, checksum, pieces', from, scratch') && pieces' != [] && End(pieces'[|pieces'| - 1]) == b
              && (silent ==> Linked(file, checksum, from, pieces', b)))
        && (done && !ok ==> scratch' == [] && (silent ==> StopsQuietly(file, checksum, from, pieces')))
        && (done ==> spent' + |scratch'| <= b - from)
      ensures kind == FULL ==> done && ok && scratch' == fragment && lastRecordOffset == physical
      ensures kind == FIRST ==> !done && inFragmented' && scratch' == fragment && prospective' == physical
      ensures (kind == FULL || kind == FIRST) && scratch == [] ==> reports == old(reports)
      ensures (kind == MIDDLE || kind == LAST) && inFragmented ==>
        scratch' == scratch + fragment && reports == old(reports)
      ensures kind == MIDDLE && inFragmented ==> !done && inFragmented' && prospective' == prospective
      ensures kind == LAST && inFragmented ==> done && ok && lastRecordOffset == prospective
      ensures kind == EOF ==> done && !ok && reports == old(reports)
      ensures done ==> ok == (kind != EOF)
    {
      hide Passed, Track, Assembled, Total, Linked, StopsQuietly;
      TrackOutside(file, checksum, from, at, inFragmented, scratch, pieces, quiet, spent);
      PassedQuiet(file, checksum, at, b, kind, fragment, quiet', more);
      done, ok, inFragmented', scratch', prospective' := false, false, inFragmented, scratch, prospective;
      pieces', spent' := pieces, spent;
      if kind == FULL {
        if inFragmented && scratch != [] {
          ReportCorruption(|scratch|);
        }
        lastRecordOffset := physical;
        TrackDrop(file, checksum, from, at, inFragmented, scratch, pieces, quiet, spent, quiet && scratch == []);
        ghost var piece := TrackFull(file, checksum, from, at, quiet && scratch == [], spent + |scratch|, b, fragment);
        return true, true, false, fragment, prospective, [piece], spent + |scratch|;
      } else if kind == FIRST {
        if inFragmented && scratch != [] {
          ReportCorruption(|scratch|);
        }
        TrackDrop(file, checksum, from, at, inFragmented, scratch, pieces, quiet, spent, quiet && scratch == []);
        ghost var piece := TrackFirst(file, checksum, from, at, quiet && scratch == [], spent + |scratch|, b, fragment);
        inFragmented', scratch', prospective' := true, fragment, physical;
        pieces', spent' := [piece], spent + |scratch|;
      } else if kind == MIDDLE {
        if !inFragmented {
          ReportCorruption(|fragment|);
          TrackStray(file, checksum, from, at, quiet, spent, b, kind, fragment);
          spent' := spent + |fragment|;
        } else {
          ghost var piece := TrackMiddle(file, checksum, from, at, scratch, pieces, quiet, spent, b, fragment);
          scratch', pieces' := scratch + fragment, pieces + [piece];
        }
      } else if kind == LAST {
        if !inFragmented {
          ReportCorruption(|fragment|);
          TrackStray(file, checksum, from, at, quiet, spent, b, kind, fragment);
          spent' := spent + |fragment|;
        } else {
          ghost var piece := TrackLast(file, checksum, from, at, scratch, pieces, quiet, spent, b, fragment);
          lastRecordOffset := prospective;
          return true, true, false, scratch + fragment, prospective, pieces + [piece], spent;
        }
      } else if kind == EOF {
        TrackEnd(file, checksum, from, at, inFragmented, scratch, pieces, quiet, spent, b, fragment);
        return true, false, false, [], prospective, pieces, spent;
      } else if kind == BAD_RECORD {
        TrackDrop(file, checksum, from, at, inFragmented, scratch, pieces, quiet, spent, quiet && !inFragmented);
        TrackBad(file, checksum, from, at, quiet && !inFragmented, spent + |scratch|, b, fragment, quiet', more);
        spent', pieces' := spent + |scratch| + more, [];
        if inFragmented {
          ReportCorruption(|scratch|);
          inFragmented', scratch' := false, [];
        }
      } else {
        ReportCorruption(|fragment| + if inFragmented then |scratch| else 0);
        TrackDrop(file, checksum, from, at, inFragmented, scratch, pieces, quiet, spent, false);
        TrackStray(file, checksum, from, at, false, spent + |scratch|, b, kind, fragment);
        inFragmented', scratch' := false, [];
        spent', pieces' := spent + |scratch| + |fragment|, [];
      }
    }
  }

  lemma EmptyWindow(file: seq<Byte>, filePos: nat)
    requires filePos <= |file|
    ensures Window(file, filePos, [])
  {
  }

  lemma IntactHere(file: seq<Byte>, checked: bool, filePos: nat, buffer: seq<Byte>, length: nat, eof: bool)
    requires Window(file, filePos, buffer) && 7 + length <= |buffer| && length == Length(buffer[4], buffer[5])
    requires checked ==> Value(buffer[6..7 + length]) == Unmask(Word(buffer, 0))
    requires Aligned(|file|, filePos, |buffer|, eof)
    ensures Intact(file, checked, filePos - |buffer|, NatOf(buffer[6]), buffer[7..7 + length])
    ensures Window(file, filePos, buffer[7 + length..])
  {
    hide Length, NatOf, Value, Unmask, Aligned;
    InBlock(|file|, filePos, |buffer|, eof);
    var p := filePos - |buffer|;
    assert buffer[6..7 + length] == [buffer[6]] + buffer[7..7 + length];
    assert file[p + 7..p + 7 + length] == buffer[7..7 + length] by {
      assert forall i :: 0 <= i < |buffer| ==> buffer[i] == file[p + i];
    }
    SameWord(file, p, buffer);
  }

  /** The header in the buffer is the one in the file. */
  lemma HeaderHere(file: seq<Byte>, filePos: nat, buffer: seq<Byte>, eof: bool)
    requires Window(file, filePos, buffer) && 7 <= |buffer| && Aligned(|file|, filePos, |buffer|, eof)
    ensures var a := filePos - |buffer|;
      && a + 7 <= |file| && Length(file[a + 4], file[a + 5]) == Length(buffer[4], buffer[5])
      && NatOf(file[a + 6]) == NatOf(buffer[6])
      && (Torn(file, a) ==> eof && |buffer| < 7 + Length(buffer[4], buffer[5]))
      && (Zeroed(file, a) ==> Length(buffer[4], buffer[5]) == 0 && NatOf(buffer[6]) == 0)
  {
    hide Length, NatOf, Torn, Zeroed, Aligned;
    var a := filePos - |buffer|;
    assert forall i :: 0 <= i < 7 ==> buffer[i] == file[a + i];
    if Torn(file, a) {
      TornBlock(file, filePos, |buffer|, eof);
    }
    if Zeroed(file, a) {
      ZeroedHeader(file, a);
    }
  }

  lemma SkipsNothing(file: seq<Byte>, checked: bool, a: nat)
    ensures Skips(file, checked, a, a)
  {
  }

  lemma SkipsTrailer(file: seq<Byte>, checked: bool, from: nat, b: nat, buffered: nat)
    requires buffered < 7 && buffered <= b <= |file| && Aligned(|file|, b, buffered, false)
    requires Skips(file, checked, from, b - buffered)
    ensures Skips(file, checked, from, b)
  {
    var a := b - buffered;
    hide Skips;
    if a < b {
      assert SkipStep(file, checked, a, b);
      SkipOne(file, checked, a, b);
      SkipsOn(file, checked, from, a, b);
    }
  }

  lemma EndsShort(file: seq<Byte>, checked: bool, from: nat, filePos: nat, buffered: nat)
    requires buffered < 7 && buffered <= filePos && Aligned(|file|, filePos, buffered, true)
    requires Skips(file, checked, from, filePos - buffered)
    ensures EndsQuietly(file, checked, from)
  {
    hide Skips;
    assert Ends(file, checked, filePos - buffered);
  }

  lemma PassedEnd(file: seq<Byte>, checked: bool, a: nat, b: nat)
    requires a <= b && EndsQuietly(file, checked, a)
    ensures Passed(file, checked, a, b, EOF, [], true, 0)
  {
  }

  lemma PassedDropped(file: seq<Byte>, checked: bool, a: nat, b: nat)
    requires a <= b
    ensures Passed(file, checked, a, b, BAD_RECORD, [], false, b - a)
  {
  }

  lemma PassedTorn(file: seq<Byte>, checked: bool, a: nat, b: nat)
    requires a + 7 <= b <= |file| && b < a + 7 + Length(file[a + 4], file[a + 5]) && Aligned(|file|, b, b - a, true)
    ensures Passed(file, checked, a, b, EOF, [], true, 0)
  {
    InBlock(|file|, b, b - a, true);
    SkipsNothing(file, checked, a);
    hide Skips;
    assert Ends(file, checked, a);
  }

  lemma PassedZero(file: seq<Byte>, checked: bool, a: nat, b: nat, eof: bool)
    requires a + 7 <= b <= |file| && Aligned(|file|, b, b - a, eof)
    requires Length(file[a + 4], file[a + 5]) == 0 && NatOf(file[a + 6]) == ZERO
    ensures Passed(file, checked, a, b, BAD_RECORD, [], true, 0)
  {
    hide Intact, Length, NatOf, Aligned;
    InBlock(|file|, b, b - a, eof);
    assert SkipStep(file, checked, a, b);
    SkipOne(file, checked, a, b);
  }

  lemma SameWord(file: seq<Byte>, p: nat, buffer: seq<Byte>)
    requires p + |buffer| <= |file| && buffer == file[p..p + |buffer|] && 4 <= |buffer|
    ensures Word(buffer, 0) == Word(file, p)
  {
    hide Join;
    assert forall i :: 0 <= i < 4 ==> buffer[i] == file[p + i];
  }

  /** What a read of the next fragment finds. */
  lemma Situation(file: seq<Byte>, records: seq<seq<Byte>>, o: nat, left: seq<Byte>, q: nat, inFragmented: bool,
                  scratch: seq<Byte>)
    requires Reading(records, o, left, q, inFragmented, scratch)
    ensures var rest := Ahead(records, o, left, q, inFragmented);
      if !Whole(file, rest, q) then
        !(records != [] && RecordEnd(records[0], o) <= |file|)
      else
        && records != []
        && rest[0].payload <= left
        && (!inFragmented ==> q == o && scratch == [])
        && (if |left| <= Avail(q) then
          && rest[0].kind == (if inFragmented then LAST_TYPE else FULL_TYPE)
          && scratch + rest[0].payload == records[0]
          && EndOf(q, rest[0]) == RecordEnd(records[0], o) <= |file|
          && rest[1..] == AllFragments(records[1..], RecordEnd(records[0], o))
        else
          && rest[0].kind == (if inFragmented then MIDDLE_TYPE else FIRST_TYPE)
          && var left' := left[|rest[0].payload|..];
          && Reading(records, o, left', EndOf(q, rest[0]), true, scratch + rest[0].payload)
          && rest[1..] == Ahead(records, o, left', EndOf(q, rest[0]), true))
  {
    hide Start, Avail, AllFragments, RecordEnd, FragmentsOf, EndOf;
    if records != [] {
      NextFragment(records, o, left, q, inFragmented, scratch);
    }
  }

  /** The offset computed from what is left in the buffer is where the fragment starts. */
  lemma PhysicalOffset(file: seq<Byte>, rest: seq<Fragment>, q: nat, filePos: nat, buffer: seq<Byte>, eof: bool)
    requires rest != [] && Buffered(file, EndOf(q, rest[0]), filePos, buffer, eof)
    ensures filePos - |buffer| - HEADER_SIZE - |rest[0].payload| == Start(q)
  {
    hide Start;
  }

  // ---------------------------------------------------------------------------------------------------------
  // Whole logs
  // ---------------------------------------------------------------------------------------------------------

  /** Reading a log until nothing more comes, as recovery does. */
  method ReadAll(file: seq<Byte>, checksum: bool, ghost records: seq<seq<Byte>>)
      returns (got: seq<seq<Byte>>, reports: seq<nat>, ghost pieces: seq<seq<Piece>>, ghost unfinished: seq<Piece>)
    ensures file <= Bytes(AllFragments(records, 0), 0) ==>
      got == records[..Complete(records, 0, |file|)] && reports == []
    ensures AllAssembled(file, checksum, pieces, got)
    ensures Total(reports) + TotalLength(got) <= |file|
    ensures reports == [] ==>
      AllLinked(file, checksum, pieces) && StopsQuietly(file, checksum, EndOfPieces(pieces, |pieces|), unfinished)
  {
    hide Holds, Buffered, Start, RecordEnd, AllFragments, Bytes, Fits, AllAssembled, Assembled, Window, Aligned,
         EndOfPieces, Total, TotalLength, AllLinked, Linked, StopsQuietly, Torn;
    var reader := new Reader(file, checksum);
    ghost var good, rest, o := file <= Bytes(AllFragments(records, 0), 0), records, 0;
    if good {
      FileStart(file, records);
    }
    got, pieces, unfinished := [], [], [];
    NoneAssembled(file, checksum);
    var ok := true;
    while ok
      invariant fresh(reader) && reader.Valid() && reader.file == file
      invariant good ==> reader.reports == [] && |got| + Complete(rest, o, |file|) == Complete(records, 0, |file|)
      invariant good ==> got + rest == records
      invariant good && ok ==> reader.At(AllFragments(rest, o), o)
      invariant good && !ok ==> Complete(rest, o, |file|) == 0
      invariant reader.checksum == checksum && AllAssembled(file, checksum, pieces, got)
      invariant |pieces| == |got| && Total(reader.reports) + TotalLength(got) <= reader.Position()
      invariant ok ==> EndOfPieces(pieces, |pieces|) == reader.Position()
      invariant reader.reports == [] ==> AllLinked(file, checksum, pieces)
      invariant !ok && reader.reports == [] ==>
        StopsQuietly(file, checksum, EndOfPieces(pieces, |pieces|), unfinished)
      decreases ok, reader.Remaining()
    {
      var record;
      ok, record, unfinished := reader.ReadRecord(rest, o);
      if ok {
        ghost var own := unfinished;
        OneMore(file, checksum, pieces, got, own, record);
        if reader.reports == [] {
          LinkMore(file, checksum, pieces, own);
        }
        pieces := pieces + [own];
        got := got + [record];
        if good {
          o := RecordEnd(rest[0], o);
          rest := rest[1..];
        }
      }
    }
    reports := reader.reports;
  }

  lemma FileStart(file: seq<Byte>, records: seq<seq<Byte>>)
    requires file <= Bytes(AllFragments(records, 0), 0)
    ensures Holds(file, AllFragments(records, 0), 0) && Buffered(file, 0, 0, [], false)
  {
    hide Bytes, Fits, AllFragments;
    AllFit(records, 0);
    assert file[0..] == file;
  }

  /** The file that a run of AddRecord calls leaves. */
  method WriteAll(records: seq<seq<Byte>>) returns (file: seq<Byte>)
    ensures file == Bytes(AllFragments(records, 0), 0)
  {
    hide AllFragments, Bytes, Fits, RecordEnd;
    var writer := new Writer([]);
    ghost var left := records;
    assert Bytes(AllFragments(records, 0), 0) == [] + Bytes(AllFragments(records, 0), 0);
    for i := 0 to |records|
      invariant fresh(writer) && writer.Valid()
      invariant left == records[i..]
      invariant Bytes(AllFragments(records, 0), 0)
        == writer.dest + Bytes(AllFragments(left, |writer.dest|), |writer.dest|)
    {
      FirstRecord(left, writer.dest);
      writer.AddRecord(records[i]);
      left := left[1..];
    }
    NoRecords(|writer.dest|);
    file := writer.dest;
  }

  /**
   * A log written by a run of AddRecord calls and cut at any byte: the reader gives exactly the records that lie
   * wholly before the cut, in order, and reports nothing.
   */
  method WriteCutRead(records: seq<seq<Byte>>, cut: nat, checksum: bool)
    returns (got: seq<seq<Byte>>, reports: seq<nat>)
    ensures cut <= |Bytes(AllFragments(records, 0), 0)| ==> got == records[..Complete(records, 0, cut)] && reports == []
  {
    hide AllFragments, Bytes, Complete;
    var file := WriteAll(records);
    var n := if cut <= |file| then cut else |file|;
    ghost var pieces, unfinished;
    got, reports, pieces, unfinished := ReadAll(file[..n], checksum, records);
  }

  lemma NoRecords(o: nat)
    ensures Bytes(AllFragments([], o), o) == []
  {
  }

  lemma FirstRecord(records: seq<seq<Byte>>, dest: seq<Byte>)
    requires records != []
    ensures var dest' := dest + Bytes(FragmentsOf(records[0], |dest|, true), |dest|);
      dest + Bytes(AllFragments(records, |dest|), |dest|) == dest' + Bytes(AllFragments(records[1..], |dest'|), |dest'|)
  {
    hide Bytes, FragmentsOf, RecordEnd;
    RecordBytes(records[0], |dest|, true);
    var o := RecordEnd(records[0], |dest|);
    BytesConcat(FragmentsOf(records[0], |dest|, true), AllFragments(records[1..], o), |dest|);
  }
}
