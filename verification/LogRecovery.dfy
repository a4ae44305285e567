/** A write-ahead log from end to end: batches are encoded, logged, cut short by a crash, read and inserted again
    (DBImpl::Write and DBImpl::RecoverLogFile in db/db_impl.cc). */
module LogRecovery {
  import opened Crc32c
  import opened LogFormat
  import opened LogReader
  import opened LogPieces
  import opened Coding
  import opened WriteBatches

  // ---------------------------------------------------------------------------------------------------------
  // Records
  // ---------------------------------------------------------------------------------------------------------

  function OctetOf(b: Byte): Octet {
    NatOf(b)
  }

  function ToBytes(s: seq<Octet>): seq<Byte> {
    seq(|s|, i requires 0 <= i < |s| => ByteOf(s[i]))
  }

  function ToOctets(s: seq<Byte>): seq<Octet> {
    seq(|s|, i requires 0 <= i < |s| => OctetOf(s[i]))
  }

  lemma BytesRoundTrip(s: seq<Octet>)
    ensures ToOctets(ToBytes(s)) == s
  {
    hide ByteOf, NatOf;
    forall i | 0 <= i < |s|
      ensures OctetOf(ByteOf(s[i])) == s[i]
    {
      ByteRoundTrip(s[i]);
    }
  }

  /** A batch as it was logged: its first sequence number and its operations. */
  datatype Written = Written(first: nat, ops: seq<Op>)

  ghost predicate GoodBatch(w: Written) {
    0 < w.first < LIMIT64 && GoodOps(w.ops)
  }

  function LoggedBatches(ws: seq<Written>): seq<seq<Byte>> {
    seq(|ws|, i requires 0 <= i < |ws| => ToBytes(Rep(ws[i].first, ws[i].ops)))
  }

  /** The entries of the batches, in the order in which they were logged. */
  function EntriesOf(ws: seq<Written>): seq<Stamped> {
    if ws == [] then [] else EntriesOf(ws[..|ws| - 1]) + Stamp(ws[|ws| - 1].first, ws[|ws| - 1].ops)
  }

  function Max(a: int, b: int): int {
    if a < b then b else a
  }

  /** The greatest of `last` and the last sequence numbers of the batches. */
  function LastOf(ws: seq<Written>, last: nat): int {
    if ws == [] then last
    else Max(LastOf(ws[..|ws| - 1], last), ws[|ws| - 1].first + |ws[|ws| - 1].ops| - 1)
  }

  // ---------------------------------------------------------------------------------------------------------
  // Recovering
  // ---------------------------------------------------------------------------------------------------------

  /** One turn of the loop of RecoverLogFile. */
  method ReplayRecord(record: seq<Byte>, ghost w: Written) returns (stamped: seq<Stamped>, top: int, ok: bool)
    requires GoodBatch(w) && record == ToBytes(Rep(w.first, w.ops))
    ensures ok && stamped == Stamp(w.first, w.ops) && top == w.first + |w.ops| - 1
  {
    hide ToBytes, ToOctets, Rep, Stamp, GoodOps, Count, Sequence, OpsBytes;
    BytesRoundTrip(Rep(w.first, w.ops));
    RepParts(w.first, w.ops);
    var batch := new WriteBatch();
    batch.rep := ToOctets(record);
    assert batch.rep == Rep(w.first, w.ops);
    stamped, ok := batch.InsertInto();
    assert batch.Holds(w.first, w.ops);
    top := Sequence(batch.rep) + Count(batch.rep) - 1;
  }

  /** A log that a crash cut at any byte: the entries of the batches that are whole come back, in order and under
      their own sequence numbers, and none of a batch that is not. */
  method RecoverLogFile(file: seq<Byte>, last: nat, ghost ws: seq<Written>)
    returns (entries: seq<Stamped>, maxSequence: int, ok: bool)
    requires forall w :: w in ws ==> GoodBatch(w)
    requires file <= Bytes(AllFragments(LoggedBatches(ws), 0), 0)
    ensures var n := Complete(LoggedBatches(ws), 0, |file|);
      ok && entries == EntriesOf(ws[..n]) && maxSequence == LastOf(ws[..n], last)
  {
    hide AllFragments, Bytes, Complete, ToBytes, Rep, Stamp, GoodBatch, AllAssembled, AllLinked, StopsQuietly, Total,
         TotalLength;
    var got, reports, pieces, unfinished := ReadAll(file, true, LoggedBatches(ws));
    ghost var n := Complete(LoggedBatches(ws), 0, |file|);
    entries, maxSequence, ok := [], last, reports == [];
    var i := 0;
    while i < |got|
      invariant 0 <= i <= |got| == n && ok
      invariant entries == EntriesOf(ws[..i]) && maxSequence == LastOf(ws[..i], last)
    {
      var stamped, top;
      stamped, top, ok := ReplayRecord(got[i], ws[i]);
      entries, maxSequence := entries + stamped, Max(maxSequence, top);
      assert ws[..i + 1][..i] == ws[..i];
      i := i + 1;
    }
  }

  method EncodeBatches(ws: seq<Written>) returns (records: seq<seq<Byte>>)
    requires forall w :: w in ws ==> GoodBatch(w)
    ensures records == LoggedBatches(ws)
  {
    hide ToBytes, Rep;
    records := [];
    for i := 0 to |ws|
      invariant records == LoggedBatches(ws[..i])
    {
      var batch := EncodeBatch(ws[i]);
      records := records + [ToBytes(batch.rep)];
      assert ws[..i + 1] == ws[..i] + [ws[i]];
    }
    assert ws[..|ws|] == ws;
  }

  method EncodeBatch(w: Written) returns (batch: WriteBatch)
    requires GoodBatch(w)
    ensures fresh(batch) && batch.rep == Rep(w.first, w.ops)
  {
    hide Rep, OpsBytes;
    batch := new WriteBatch();
    for i := 0 to |w.ops|
      invariant batch.Valid() && fresh(batch) && batch.Holds(0, w.ops[..i])
    {
      assert w.ops[..i + 1] == w.ops[..i] + [w.ops[i]];
      match w.ops[i] {
        case Put(k, v) => batch.PutOp(k, v);
        case Delete(k) => batch.DeleteOp(k);
      }
    }
    assert w.ops[..|w.ops|] == w.ops;
    batch.SetSequence(w.first);
  }

  /** Encode the batches, log them, cut the file at any byte, and recover. */
  method LogCutReplay(ws: seq<Written>, cut: nat, last: nat) returns (entries: seq<Stamped>, maxSequence: int, ok: bool)
    requires forall w :: w in ws ==> GoodBatch(w)
    requires cut <= |Bytes(AllFragments(LoggedBatches(ws), 0), 0)|
    ensures var n := Complete(LoggedBatches(ws), 0, cut);
      ok && entries == EntriesOf(ws[..n]) && maxSequence == LastOf(ws[..n], last)
  {
    hide AllFragments, Bytes, Complete, GoodBatch;
    var records := EncodeBatches(ws);
    var file := WriteAll(records);
    entries, maxSequence, ok := RecoverLogFile(file[..cut], last, ws);
  }

  // ---------------------------------------------------------------------------------------------------------
  // Sequence numbers
  // ---------------------------------------------------------------------------------------------------------

  /** Each batch starts after the last sequence number of the one before, as the writers number them. */
  ghost predicate Follow(ws: seq<Written>, last: nat) {
    ws == [] || (Follow(ws[..|ws| - 1], last) && ws[|ws| - 1].first == last + 1 + |EntriesOf(ws[..|ws| - 1])|)
  }

  /** What comes back of numbered batches is numbered without gaps, and the counter goes on after it. */
  lemma {:induction false} RecoveredNumbers(ws: seq<Written>, last: nat)
    requires Follow(ws, last)
    ensures forall i :: 0 <= i < |EntriesOf(ws)| ==> EntriesOf(ws)[i].seqno == last + 1 + i
    ensures LastOf(ws, last) == last + |EntriesOf(ws)|
  {
    if ws != [] {
      RecoveredNumbers(ws[..|ws| - 1], last);
    }
  }

  /** So after every cut: the entries are a prefix of those that were logged. */
  lemma {:induction false} RecoveredPrefix(ws: seq<Written>, n: nat, last: nat)
    requires n <= |ws| && Follow(ws, last)
    ensures EntriesOf(ws[..n]) <= EntriesOf(ws) && Follow(ws[..n], last)
    ensures LastOf(ws[..n], last) == last + |EntriesOf(ws[..n])|
    decreases |ws|
  {
    RecoveredNumbers(ws, last);
    if n == |ws| {
      assert ws[..n] == ws;
    } else {
      RecoveredPrefix(ws[..|ws| - 1], n, last);
      assert ws[..|ws| - 1][..n] == ws[..n];
    }
  }
}
