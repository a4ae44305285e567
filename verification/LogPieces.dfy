/** What a log reader gives out, passes over and reports, whatever the file holds (db/log_reader.cc). */
module LogPieces {
  import opened Crc32c
  import opened LogFormat

  // ---------------------------------------------------------------------------------------------------------
  // Records put together from fragments
  // ---------------------------------------------------------------------------------------------------------

  /** A physical record lies at `p` of the file, in one block; with `checked`, its checksum is the one stored with it.
      */
  ghost predicate Intact(file: seq<Byte>, checked: bool, p: int, kind: nat, payload: seq<Byte>) {
    && 0 <= p && p + 7 + |payload| <= |file| && p % 32768 + 7 + |payload| <= 32768
    && Length(file[p + 4], file[p + 5]) == |payload| && NatOf(file[p + 6]) == kind
    && file[p + 7..p + 7 + |payload|] == payload
    && (checked ==> Unmask(Word(file, p)) == Value([file[p + 6]] + payload))
  }

  /** A fragment that was read: where it lies, and its type and payload. */
  datatype Piece = Piece(offset: nat, kind: nat, payload: seq<Byte>)

  function End(piece: Piece): nat {
    piece.offset + 7 + |piece.payload|
  }

  function Payloads(pieces: seq<Piece>): seq<Byte> {
    if pieces == [] then [] else Payloads(pieces[..|pieces| - 1]) + pieces[|pieces| - 1].payload
  }

  /** Intact pieces, one after the other, that begin a record. */
  ghost predicate Begins(file: seq<Byte>, checked: bool, pieces: seq<Piece>, from: nat) {
    && pieces != [] && from <= pieces[0].offset && pieces[0].kind == 2
    && (forall i :: 0 < i < |pieces| ==> pieces[i].kind == 3 && End(pieces[i - 1]) <= pieces[i].offset)
    && forall i :: 0 <= i < |pieces| ==>
      Intact(file, checked, pieces[i].offset, pieces[i].kind, pieces[i].payload)
  }

  /** A record is one intact full piece, or intact pieces from a first to a last one. */
  ghost predicate Assembled(file: seq<Byte>, checked: bool, pieces: seq<Piece>, from: nat, record: seq<Byte>) {
    && pieces != [] && record == Payloads(pieces)
    && var last := pieces[|pieces| - 1];
    && Intact(file, checked, last.offset, last.kind, last.payload)
    && if |pieces| == 1 then last.kind == 1 && from <= last.offset
       else
         var before := pieces[..|pieces| - 1];
         && Begins(file, checked, before, from) && last.kind == 4
         && End(before[|before| - 1]) <= last.offset
  }

  lemma OnePayload(piece: Piece)
    ensures Payloads([piece]) == piece.payload
  {
    assert [piece][..0] == [];
  }

  lemma MorePayload(pieces: seq<Piece>, piece: Piece)
    ensures Payloads(pieces + [piece]) == Payloads(pieces) + piece.payload
  {
    assert (pieces + [piece])[..|pieces|] == pieces;
  }

  /** A fragment with one byte of its type or payload changed is not intact any more. */
  lemma ChangedIsNotIntact(file: seq<Byte>, p: nat, kind: nat, payload: seq<Byte>, i: nat, c: Byte, kind': nat,
                           payload': seq<Byte>)
    requires Intact(file, true, p, kind, payload) && 6 <= i < 7 + |payload| && file[p + i] != c
    ensures !Intact(file[p + i := c], true, p, kind', payload')
  {
    hide Length, NatOf, Value, Unmask, Join;
    var file' := file[p + i := c];
    if Intact(file', true, p, kind', payload') {
      CheckedPart(file, p, kind, payload);
      CheckedPart(file', p, kind', payload');
      hide Intact;
      ChangedPart(file, p, |payload|, i, c);
    }
  }

  lemma CheckedPart(file: seq<Byte>, p: nat, kind: nat, payload: seq<Byte>)
    requires Intact(file, true, p, kind, payload)
    ensures |payload| == Length(file[p + 4], file[p + 5]) && p + 7 + |payload| <= |file|
    ensures Unmask(Word(file, p)) == Value(file[p + 6..p + 7 + |payload|])
  {
    hide Length, NatOf, Value, Unmask, Word;
    assert file[p + 6..p + 7 + |payload|] == [file[p + 6]] + payload;
  }

  lemma ChangedPart(file: seq<Byte>, p: nat, n: nat, i: nat, c: Byte)
    requires p + 7 + n <= |file| && 6 <= i < 7 + n && file[p + i] != c
    ensures Value(file[p + i := c][p + 6..p + 7 + n]) != Value(file[p + 6..p + 7 + n])
  {
    hide Value;
    var data, j := file[p + 6..p + 7 + n], i - 6;
    assert data == data[..j] + [data[j]] + data[j + 1..];
    assert file[p + i := c][p + 6..p + 7 + n] == data[..j] + [c] + data[j + 1..];
    OneByteDetected(data[..j], data[j], c, data[j + 1..]);
  }

  // ---------------------------------------------------------------------------------------------------------
  // What is passed over without a report
  // ---------------------------------------------------------------------------------------------------------

  /** The bytes from `a` to `c` are the end of a block too short for a header, what follows a header of zeros in its
      block, an empty first or middle fragment, or a record whose type is the number that stands for a bad one. */
  ghost predicate SkipStep(file: seq<Byte>, checked: bool, a: nat, c: nat) {
    && a < c <= |file|
    && (|| (c % 32768 == 0 && c - a < 7)
        || (7 <= c - a <= 32768 && a % 32768 <= 32761 && Length(file[a + 4], file[a + 5]) == 0
            && NatOf(file[a + 6]) == 0
            && (c % 32768 == 0 || c == |file|))
        || (c == a + 7 && (Intact(file, checked, a, 2, []) || Intact(file, checked, a, 3, [])))
        || (c >= a + 7 && Intact(file, checked, a, 6, file[a + 7..c])))
  }

  ghost predicate Skips(file: seq<Byte>, checked: bool, a: nat, b: nat)
    decreases if a < b then b - a else 0
  {
    a == b || exists c :: a < c <= b && SkipStep(file, checked, a, c) && Skips(file, checked, c, b)
  }

  lemma SkipOne(file: seq<Byte>, checked: bool, a: nat, b: nat)
    requires SkipStep(file, checked, a, b)
    ensures Skips(file, checked, a, b)
  {
    hide SkipStep;
    assert a < b by { StepForward(file, checked, a, b); }
    assert Skips(file, checked, b, b);
  }

  lemma StepForward(file: seq<Byte>, checked: bool, a: nat, c: nat)
    requires SkipStep(file, checked, a, c)
    ensures a < c <= |file|
  {
  }

  lemma {:induction false} SkipsForward(file: seq<Byte>, checked: bool, a: nat, b: nat)
    requires Skips(file, checked, a, b)
    ensures a <= b
  {
    hide SkipStep;
  }

  lemma {:induction false} SkipsOn(file: seq<Byte>, checked: bool, a: nat, b: nat, c: nat)
    requires Skips(file, checked, a, b) && Skips(file, checked, b, c)
    ensures Skips(file, checked, a, c)
    decreases if a < b then b - a else 0
  {
    hide SkipStep;
    SkipsForward(file, checked, a, b);
    SkipsForward(file, checked, b, c);
    if a != b {
      var d: nat :| a < d <= b && SkipStep(file, checked, a, d) && Skips(file, checked, d, b);
      SkipsOn(file, checked, d, b, c);
    }
  }

  /** Reading ends at `q`: the file has no whole record there, or one whose type is the number that stands for the end
      of the file. */
  ghost predicate Ends(file: seq<Byte>, checked: bool, q: nat) {
    && q <= |file|
    && (|| |file| - q < 7
        || (q % 32768 <= 32761 && q + 7 + Length(file[q + 4], file[q + 5]) > |file|)
        || exists payload :: Intact(file, checked, q, 5, payload))
  }

  /** A header with length and type zero, as preallocated parts of a file have it. */
  ghost predicate Zeroed(file: seq<Byte>, a: nat) {
    && a + 7 <= |file| && a % 32768 <= 32761
    && Length(file[a + 4], file[a + 5]) == 0 && NatOf(file[a + 6]) == 0
  }

  /** The last block of the file ends before the record at `a` does. */
  ghost predicate Torn(file: seq<Byte>, a: nat) {
    a + 7 <= |file| < a + 7 + Length(file[a + 4], file[a + 5]) && |file| < a - a % 32768 + 32768
  }

  ghost predicate EndsQuietly(file: seq<Byte>, checked: bool, a: nat) {
    exists q :: Skips(file, checked, a, q) && Ends(file, checked, q)
  }

  /** Pieces that follow each other from one position to another, with nothing but what is passed over in between. */
  ghost predicate Linked(file: seq<Byte>, checked: bool, from: nat, pieces: seq<Piece>, to: nat) {
    && pieces != [] && Skips(file, checked, from, pieces[0].offset)
    && (forall i :: 0 < i < |pieces| ==> Skips(file, checked, End(pieces[i - 1]), pieces[i].offset))
    && End(pieces[|pieces| - 1]) == to
  }

  /** From `from` on there is nothing but the beginning of a record, if that, up to where reading ends. */
  ghost predicate StopsQuietly(file: seq<Byte>, checked: bool, from: nat, pieces: seq<Piece>) {
    if pieces == [] then EndsQuietly(file, checked, from)
    else
      var to := End(pieces[|pieces| - 1]);
      Begins(file, checked, pieces, from) && Linked(file, checked, from, pieces, to) && EndsQuietly(file, checked, to)
  }

  // ---------------------------------------------------------------------------------------------------------
  // One fragment
  // ---------------------------------------------------------------------------------------------------------

  function Total(sizes: seq<nat>): nat {
    if sizes == [] then 0 else Total(sizes[..|sizes| - 1]) + sizes[|sizes| - 1]
  }

  lemma TotalMore(sizes: seq<nat>, n: nat)
    ensures Total(sizes + [n]) == Total(sizes) + n
  {
    assert (sizes + [n])[..|sizes|] == sizes;
  }

  /** Reading on from `a` gave a fragment of a kind, or 5 at the end, or 6 for a bad record, and went to `b`; `quiet` if
      nothing was reported, and otherwise with `spent` bytes in the report. */
  ghost predicate Passed(file: seq<Byte>, checked: bool, a: nat, b: nat, kind: nat, fragment: seq<Byte>, quiet: bool,
                         spent: int)
  {
    && a <= b && 0 <= spent
    && (kind != 6 ==> quiet && spent == 0)
    && (kind == 5 ==> EndsQuietly(file, checked, a))
    && (kind == 6 ==> spent <= b - a && (quiet ==> Skips(file, checked, a, b)))
    && (kind != 5 && kind != 6 ==>
          var p := b - 7 - |fragment|;
          a <= p && Intact(file, checked, p, kind, fragment) && Skips(file, checked, a, p))
  }

  lemma PassedIntact(file: seq<Byte>, checked: bool, a: nat, kind: nat, fragment: seq<Byte>)
    requires Intact(file, checked, a, kind, fragment)
    ensures Passed(file, checked, a, a + 7 + |fragment|, kind, fragment, true, 0)
  {
    assert Skips(file, checked, a, a);
    var b := a + 7 + |fragment|;
    if kind == 6 {
      assert file[a + 7..b] == fragment && b <= |file|;
      hide Intact;
      assert SkipStep(file, checked, a, b);
      SkipOne(file, checked, a, b);
    } else {
      hide Intact;
      if kind == 5 {
        assert Ends(file, checked, a) by { EndsAtFive(file, checked, a, fragment); }
      }
    }
  }

  lemma EndsAtFive(file: seq<Byte>, checked: bool, a: nat, payload: seq<Byte>)
    requires Intact(file, checked, a, 5, payload)
    ensures Ends(file, checked, a)
  {
  }

  /** What was passed over before the fragment. */
  lemma PassedFrom(file: seq<Byte>, checked: bool, a: nat, a': nat, b: nat, kind: nat, fragment: seq<Byte>, quiet: bool,
                   spent: int)
    requires Skips(file, checked, a, a') && Passed(file, checked, a', b, kind, fragment, quiet, spent)
    ensures Passed(file, checked, a, b, kind, fragment, quiet, spent)
  {
    hide Skips, Intact, Ends;
    SkipsForward(file, checked, a, a');
    if kind == 5 {
      EndsFrom(file, checked, a, a');
    } else if kind == 6 {
      if quiet {
        SkipsOn(file, checked, a, a', b);
      }
    } else {
      SkipsOn(file, checked, a, a', b - 7 - |fragment|);
    }
  }

  lemma EndsFrom(file: seq<Byte>, checked: bool, a: nat, a': nat)
    requires Skips(file, checked, a, a') && EndsQuietly(file, checked, a')
    ensures EndsQuietly(file, checked, a)
  {
    hide Skips, Ends;
    var q: nat :| Skips(file, checked, a', q) && Ends(file, checked, q);
    SkipsOn(file, checked, a, a', q);
  }

  // ---------------------------------------------------------------------------------------------------------
  // One record
  // ---------------------------------------------------------------------------------------------------------

  /** Reading from `from` up to `at`, inside a fragmented record or not: what was begun is intact; if nothing was
      reported then nothing but what may be was passed over; and no byte was reported that was not there. */
  ghost predicate Track(file: seq<Byte>, checked: bool, from: nat, at: nat, inside: bool, scratch: seq<Byte>,
                        pieces: seq<Piece>, quiet: bool, spent: int)
  {
    && 0 <= spent && spent + |scratch| <= at - from
    && if inside then
         && Begins(file, checked, pieces, from) && Payloads(pieces) == scratch && End(pieces[|pieces| - 1]) <= at
         && (quiet ==> Linked(file, checked, from, pieces, at))
       else scratch == [] && pieces == [] && (quiet ==> Skips(file, checked, from, at))
  }

  lemma TrackNothing(file: seq<Byte>, checked: bool, from: nat)
    ensures Track(file, checked, from, from, false, [], [], true, 0)
  {
  }

  lemma TrackOutside(file: seq<Byte>, checked: bool, from: nat, at: nat, inside: bool, scratch: seq<Byte>,
                     pieces: seq<Piece>, quiet: bool, spent: int)
    requires Track(file, checked, from, at, inside, scratch, pieces, quiet, spent)
    ensures !inside ==> scratch == [] && pieces == []
  {
    hide Begins, Linked, Skips;
  }

  lemma PassedQuiet(file: seq<Byte>, checked: bool, a: nat, b: nat, kind: nat, fragment: seq<Byte>, quiet: bool,
                    spent: int)
    requires Passed(file, checked, a, b, kind, fragment, quiet, spent)
    ensures kind != 6 ==> quiet && spent == 0
  {
    hide Skips, Intact, EndsQuietly;
  }

  lemma {:induction false} EmptyPieces(file: seq<Byte>, checked: bool, from: nat, pieces: seq<Piece>)
    requires Begins(file, checked, pieces, from) && Payloads(pieces) == []
    requires Linked(file, checked, from, pieces, End(pieces[|pieces| - 1]))
    ensures Skips(file, checked, from, End(pieces[|pieces| - 1]))
    decreases |pieces|
  {
    hide Intact, Skips;
    var last := pieces[|pieces| - 1];
    assert last.payload == [];
    assert Intact(file, checked, last.offset, last.kind, []) && (last.kind == 2 || last.kind == 3);
    EmptyStep(file, checked, last);
    if |pieces| > 1 {
      var before := pieces[..|pieces| - 1];
      EmptyPieces(file, checked, from, before);
      SkipsOn(file, checked, from, End(before[|before| - 1]), last.offset);
    }
    SkipsOn(file, checked, from, last.offset, End(last));
  }

  lemma EmptyStep(file: seq<Byte>, checked: bool, piece: Piece)
    requires piece.payload == [] && (piece.kind == 2 || piece.kind == 3)
    requires Intact(file, checked, piece.offset, piece.kind, [])
    ensures Skips(file, checked, piece.offset, End(piece))
  {
    assert End(piece) <= |file|;
    hide Intact;
    assert SkipStep(file, checked, piece.offset, End(piece));
    SkipOne(file, checked, piece.offset, End(piece));
  }

  /** What was begun is given up, with a report of its bytes if there are any. */
  lemma TrackDrop(file: seq<Byte>, checked: bool, from: nat, at: nat, inside: bool, scratch: seq<Byte>,
                  pieces: seq<Piece>, quiet: bool, spent: int, quiet': bool)
    requires Track(file, checked, from, at, inside, scratch, pieces, quiet, spent)
    requires quiet' ==> quiet && scratch == []
    ensures Track(file, checked, from, at, false, [], [], quiet', spent + |scratch|)
  {
    hide Begins, Skips, Payloads;
    if inside && quiet' {
      EmptyPieces(file, checked, from, pieces);
    }
  }

  /** A full fragment. */
  lemma TrackFull(file: seq<Byte>, checked: bool, from: nat, at: nat, quiet: bool, spent: int, b: nat,
                  fragment: seq<Byte>) returns (piece: Piece)
    requires Track(file, checked, from, at, false, [], [], quiet, spent)
    requires Passed(file, checked, at, b, 1, fragment, true, 0)
    ensures Assembled(file, checked, [piece], from, fragment) && End(piece) == b
    ensures (quiet ==> Linked(file, checked, from, [piece], b)) && spent + |fragment| <= b - from
  {
    hide Skips, Intact, Begins;
    piece := Piece(b - 7 - |fragment|, 1, fragment);
    OnePayload(piece);
    if quiet {
      SkipsOn(file, checked, from, at, piece.offset);
    }
  }

  /** A first fragment. */
  lemma TrackFirst(file: seq<Byte>, checked: bool, from: nat, at: nat, quiet: bool, spent: int, b: nat,
                   fragment: seq<Byte>) returns (piece: Piece)
    requires Track(file, checked, from, at, false, [], [], quiet, spent)
    requires Passed(file, checked, at, b, 2, fragment, true, 0)
    ensures Track(file, checked, from, b, true, fragment, [piece], quiet, spent)
  {
    hide Skips, Intact;
    piece := Piece(b - 7 - |fragment|, 2, fragment);
    OnePayload(piece);
    if quiet {
      SkipsOn(file, checked, from, at, piece.offset);
    }
  }

  lemma LinkedMore(file: seq<Byte>, checked: bool, from: nat, pieces: seq<Piece>, at: nat, piece: Piece)
    requires Linked(file, checked, from, pieces, at) && Skips(file, checked, at, piece.offset)
    ensures Linked(file, checked, from, pieces + [piece], End(piece))
  {
    hide Skips;
  }

  lemma BeginsMore(file: seq<Byte>, checked: bool, from: nat, pieces: seq<Piece>, at: nat, piece: Piece)
    requires Begins(file, checked, pieces, from) && End(pieces[|pieces| - 1]) <= at <= piece.offset
    requires piece.kind == 3 && Intact(file, checked, piece.offset, 3, piece.payload)
    ensures Begins(file, checked, pieces + [piece], from)
  {
    hide Intact;
  }

  /** A middle fragment. */
  lemma TrackMiddle(file: seq<Byte>, checked: bool, from: nat, at: nat, scratch: seq<Byte>, pieces: seq<Piece>,
                    quiet: bool, spent: int, b: nat, fragment: seq<Byte>) returns (piece: Piece)
    requires Track(file, checked, from, at, true, scratch, pieces, quiet, spent)
    requires Passed(file, checked, at, b, 3, fragment, true, 0)
    ensures Track(file, checked, from, b, true, scratch + fragment, pieces + [piece], quiet, spent)
  {
    hide Skips, Intact;
    piece := Piece(b - 7 - |fragment|, 3, fragment);
    MorePayload(pieces, piece);
    BeginsMore(file, checked, from, pieces, at, piece);
    hide Begins;
    if quiet {
      LinkedMore(file, checked, from, pieces, at, piece);
    }
  }

  /** A last fragment. */
  lemma TrackLast(file: seq<Byte>, checked: bool, from: nat, at: nat, scratch: seq<Byte>, pieces: seq<Piece>,
                  quiet: bool, spent: int, b: nat, fragment: seq<Byte>) returns (piece: Piece)
    requires Track(file, checked, from, at, true, scratch, pieces, quiet, spent)
    requires Passed(file, checked, at, b, 4, fragment, true, 0)
    ensures Assembled(file, checked, pieces + [piece], from, scratch + fragment) && End(piece) == b
    ensures quiet ==> Linked(file, checked, from, pieces + [piece], b)
    ensures spent + |scratch + fragment| <= b - from
  {
    hide Skips, Intact;
    piece := Piece(b - 7 - |fragment|, 4, fragment);
    MorePayload(pieces, piece);
    assert pieces != [];
    hide Begins;
    assert (pieces + [piece])[..|pieces|] == pieces;
    if quiet {
      LinkedMore(file, checked, from, pieces, at, piece);
    }
  }

  /** A fragment that belongs to nothing, with a report. */
  lemma TrackStray(file: seq<Byte>, checked: bool, from: nat, at: nat, quiet: bool, spent: int, b: nat, kind: nat,
                   fragment: seq<Byte>)
    requires Track(file, checked, from, at, false, [], [], quiet, spent)
    requires Passed(file, checked, at, b, kind, fragment, true, 0) && kind != 5 && kind != 6
    ensures Track(file, checked, from, b, false, [], [], false, spent + |fragment|)
  {
    hide Skips, Intact;
  }

  /** A bad record. */
  lemma TrackBad(file: seq<Byte>, checked: bool, from: nat, at: nat, quiet: bool, spent: int, b: nat,
                 fragment: seq<Byte>, quiet': bool, more: int)
    requires Track(file, checked, from, at, false, [], [], quiet, spent)
    requires Passed(file, checked, at, b, 6, fragment, quiet', more)
    ensures Track(file, checked, from, b, false, [], [], quiet && quiet', spent + more)
  {
    hide Skips, Intact;
    if quiet && quiet' {
      SkipsOn(file, checked, from, at, b);
    }
  }

  /** The end. */
  lemma TrackEnd(file: seq<Byte>, checked: bool, from: nat, at: nat, inside: bool, scratch: seq<Byte>,
                 pieces: seq<Piece>, quiet: bool, spent: int, b: nat, fragment: seq<Byte>)
    requires Track(file, checked, from, at, inside, scratch, pieces, quiet, spent)
    requires Passed(file, checked, at, b, 5, fragment, true, 0)
    ensures (quiet ==> StopsQuietly(file, checked, from, pieces)) && spent <= b - from
  {
    hide Skips, Ends, Intact, Begins, EndsQuietly;
    if quiet && !inside {
      EndsFrom(file, checked, from, at);
    }
  }

  // ---------------------------------------------------------------------------------------------------------
  // All records
  // ---------------------------------------------------------------------------------------------------------

  /** Where the first `i` records end. */
  ghost function EndOfPieces(pieces: seq<seq<Piece>>, i: nat): nat
    requires i <= |pieces|
  {
    if i == 0 || pieces[i - 1] == [] then 0 else End(pieces[i - 1][|pieces[i - 1]| - 1])
  }

  /** Every record that was given out is put together from intact fragments, behind those of the record before. */
  ghost predicate AllAssembled(file: seq<Byte>, checked: bool, pieces: seq<seq<Piece>>, got: seq<seq<Byte>>) {
    && |pieces| == |got|
    && forall i :: 0 <= i < |got| ==> Assembled(file, checked, pieces[i], EndOfPieces(pieces, i), got[i])
  }

  /** Nothing but what may be passed over lies before, between and inside the records. */
  ghost predicate AllLinked(file: seq<Byte>, checked: bool, pieces: seq<seq<Piece>>) {
    forall i :: 0 <= i < |pieces| ==>
      Linked(file, checked, EndOfPieces(pieces, i), pieces[i], EndOfPieces(pieces, i + 1))
  }

  function TotalLength(got: seq<seq<Byte>>): nat {
    if got == [] then 0 else TotalLength(got[..|got| - 1]) + |got[|got| - 1]|
  }

  lemma NoneAssembled(file: seq<Byte>, checked: bool)
    ensures AllAssembled(file, checked, [], []) && AllLinked(file, checked, []) && EndOfPieces([], 0) == 0
    ensures TotalLength([]) == 0 && Total([]) == 0
  {
  }

  lemma OneMore(file: seq<Byte>, checked: bool, pieces: seq<seq<Piece>>, got: seq<seq<Byte>>, own: seq<Piece>,
                record: seq<Byte>)
    requires AllAssembled(file, checked, pieces, got) && own != []
    requires Assembled(file, checked, own, EndOfPieces(pieces, |pieces|), record)
    ensures AllAssembled(file, checked, pieces + [own], got + [record])
    ensures EndOfPieces(pieces + [own], |pieces| + 1) == End(own[|own| - 1])
    ensures TotalLength(got + [record]) == TotalLength(got) + |record|
  {
    hide Assembled, EndOfPieces;
    forall i: nat | i <= |pieces|
      ensures EndOfPieces(pieces + [own], i) == EndOfPieces(pieces, i)
    {
      EndsAlike(pieces, own, i);
    }
    EndsLast(pieces, own);
    assert (got + [record])[..|got|] == got;
  }

  lemma LinkMore(file: seq<Byte>, checked: bool, pieces: seq<seq<Piece>>, own: seq<Piece>)
    requires AllLinked(file, checked, pieces) && own != []
    requires Linked(file, checked, EndOfPieces(pieces, |pieces|), own, End(own[|own| - 1]))
    ensures AllLinked(file, checked, pieces + [own])
  {
    hide Linked, EndOfPieces;
    forall i: nat | i <= |pieces|
      ensures EndOfPieces(pieces + [own], i) == EndOfPieces(pieces, i)
    {
      EndsAlike(pieces, own, i);
    }
    EndsLast(pieces, own);
  }

  lemma EndsAlike(pieces: seq<seq<Piece>>, own: seq<Piece>, i: nat)
    requires i <= |pieces|
    ensures EndOfPieces(pieces + [own], i) == EndOfPieces(pieces, i)
  {
    assert i > 0 ==> (pieces + [own])[i - 1] == pieces[i - 1];
  }

  lemma EndsLast(pieces: seq<seq<Piece>>, own: seq<Piece>)
    requires own != []
    ensures EndOfPieces(pieces + [own], |pieces| + 1) == End(own[|own| - 1])
  {
    assert (pieces + [own])[|pieces|] == own;
  }
}
