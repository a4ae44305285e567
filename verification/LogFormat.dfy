/** The layout of a log file: 32 KB blocks of physical records (db/log_format.h, doc of db/log_writer.cc). */
module LogFormat {
  import opened Crc32c

  const BLOCK_SIZE: nat := 32768
  const HEADER_SIZE: nat := 7

  const ZERO_TYPE: Byte := 0
  const FULL_TYPE: Byte := 1
  const FIRST_TYPE: Byte := 2
  const MIDDLE_TYPE: Byte := 3
  const LAST_TYPE: Byte := 4

  datatype Fragment = Fragment(kind: Byte, payload: seq<Byte>)

  // ---------------------------------------------------------------------------------------------------------
  // Numbers as bytes
  // ---------------------------------------------------------------------------------------------------------

  function Low(v: bv32): Byte { (v & 0xff) as bv8 }

  function Fixed32(v: bv32): (r: seq<Byte>)
    ensures |r| == 4
  {
    [Low(v), Low(v >> 8), Low(v >> 16), Low(v >> 24)]
  }

  lemma Fixed32RoundTrip(v: bv32)
    ensures Word(Fixed32(v), 0) == v
  {
    JoinLows(v);
  }

  lemma JoinLows(v: bv32)
    ensures Join(Low(v), Low(v >> 8), Low(v >> 16), Low(v >> 24)) == v
  {
  }

  function Pack8(d0: nat, d1: nat, d2: nat, d3: nat, d4: nat, d5: nat, d6: nat, d7: nat): Byte {
    (if d0 == 1 then 0x01 else 0) | (if d1 == 1 then 0x02 else 0) | (if d2 == 1 then 0x04 else 0)
    | (if d3 == 1 then 0x08 else 0) | (if d4 == 1 then 0x10 else 0) | (if d5 == 1 then 0x20 else 0)
    | (if d6 == 1 then 0x40 else 0) | (if d7 == 1 then 0x80 else 0)
  }

  function Digit(n: nat): nat {
    n % 2
  }

  function Half(n: nat): nat {
    n / 2
  }

  /** The low eight bits of a number. */
  function ByteOf(n: nat): Byte {
    var n1 := Half(n); var n2 := Half(n1); var n3 := Half(n2); var n4 := Half(n3); var n5 := Half(n4);
    var n6 := Half(n5);
    Pack8(Digit(n), Digit(n1), Digit(n2), Digit(n3), Digit(n4), Digit(n5), Digit(n6), Digit(Half(n6)))
  }

  function BitUnder(b: Byte, mask: Byte): nat {
    if b & mask != 0 then 1 else 0
  }

  /** A byte as a number. */
  function NatOf(b: Byte): nat {
    BitUnder(b, 0x01) + 2 * BitUnder(b, 0x02) + 4 * BitUnder(b, 0x04) + 8 * BitUnder(b, 0x08)
    + 16 * BitUnder(b, 0x10) + 32 * BitUnder(b, 0x20) + 64 * BitUnder(b, 0x40) + 128 * BitUnder(b, 0x80)
  }

  function Length(a: Byte, b: Byte): nat {
    NatOf(a) + 256 * NatOf(b)
  }

  lemma Unpack8(d0: nat, d1: nat, d2: nat, d3: nat, d4: nat, d5: nat, d6: nat, d7: nat)
    requires d0 <= 1 && d1 <= 1 && d2 <= 1 && d3 <= 1 && d4 <= 1 && d5 <= 1 && d6 <= 1 && d7 <= 1
    ensures var b := Pack8(d0, d1, d2, d3, d4, d5, d6, d7);
      && BitUnder(b, 0x01) == d0 && BitUnder(b, 0x02) == d1 && BitUnder(b, 0x04) == d2 && BitUnder(b, 0x08) == d3
      && BitUnder(b, 0x10) == d4 && BitUnder(b, 0x20) == d5 && BitUnder(b, 0x40) == d6 && BitUnder(b, 0x80) == d7
  {
  }

  lemma HalfOf(n: nat)
    ensures n == 2 * Half(n) + Digit(n) && Digit(n) <= 1
  {
  }

  lemma Modulo256(n: nat, q: nat, r: nat)
    requires n == 256 * q + r && r < 256
    ensures n % 256 == r
  {
  }

  /** Four binary digits at a time. */
  lemma Nibble(n: nat)
    ensures var n1 := Half(n); var n2 := Half(n1); var n3 := Half(n2);
      && n == 16 * Half(n3) + (Digit(n) + 2 * Digit(n1) + 4 * Digit(n2) + 8 * Digit(n3))
      && Digit(n) <= 1 && Digit(n1) <= 1 && Digit(n2) <= 1 && Digit(n3) <= 1
  {
    hide Digit, Half;
    var n1 := Half(n); var n2 := Half(n1); var n3 := Half(n2);
    HalfOf(n);
    HalfOf(n1);
    HalfOf(n2);
    HalfOf(n3);
  }

  lemma ByteRoundTrip(n: nat)
    ensures NatOf(ByteOf(n)) == n % 256
  {
    hide Pack8, Digit, Half, BitUnder;
    var n1 := Half(n); var n2 := Half(n1); var n3 := Half(n2); var n4 := Half(n3); var n5 := Half(n4);
    var n6 := Half(n5); var n7 := Half(n6);
    Nibble(n);
    Nibble(n4);
    var low := Digit(n) + 2 * Digit(n1) + 4 * Digit(n2) + 8 * Digit(n3);
    var high := Digit(n4) + 2 * Digit(n5) + 4 * Digit(n6) + 8 * Digit(n7);
    Modulo256(n, Half(n7), low + 16 * high);
    Unpack8(Digit(n), Digit(n1), Digit(n2), Digit(n3), Digit(n4), Digit(n5), Digit(n6), Digit(n7));
    hide ByteOf;
    assert NatOf(ByteOf(n)) == low + 16 * high;
  }

  lemma LengthRoundTrip(n: nat)
    requires n < 65536
    ensures Length(ByteOf(n), ByteOf(n / 256)) == n
  {
    hide ByteOf, NatOf;
    ByteRoundTrip(n);
    ByteRoundTrip(n / 256);
  }

  // ---------------------------------------------------------------------------------------------------------
  // Physical records
  // ---------------------------------------------------------------------------------------------------------

  function Header(f: Fragment): (r: seq<Byte>)
    ensures |r| == HEADER_SIZE
  {
    Fixed32(Mask(Value([f.kind] + f.payload))) + [ByteOf(|f.payload|), ByteOf(|f.payload| / 256), f.kind]
  }

  function Physical(f: Fragment): (r: seq<Byte>)
    ensures |r| == HEADER_SIZE + |f.payload|
  {
    Header(f) + f.payload
  }

  function Zeros(n: nat): (r: seq<Byte>)
    ensures |r| == n
  {
    seq(n, _ => 0)
  }

  /** Where a record that follows offset `o` starts: a block tail too short for a header is skipped. */
  function Start(o: nat): nat {
    if BLOCK_SIZE - o % BLOCK_SIZE < HEADER_SIZE then o - o % BLOCK_SIZE + BLOCK_SIZE else o
  }

  /** Room for payload in the block of a record that follows offset `o`. */
  function Avail(o: nat): nat {
    if BLOCK_SIZE - o % BLOCK_SIZE < HEADER_SIZE then BLOCK_SIZE - HEADER_SIZE
    else BLOCK_SIZE - HEADER_SIZE - o % BLOCK_SIZE
  }

  function EndOf(o: nat, f: Fragment): nat {
    Start(o) + HEADER_SIZE + |f.payload|
  }

  /** The bytes of fragments laid out from offset `o` on. */
  function Bytes(frags: seq<Fragment>, o: nat): seq<Byte> {
    if frags == [] then
      []
    else
      Zeros(Start(o) - o) + Physical(frags[0]) + Bytes(frags[1..], EndOf(o, frags[0]))
  }

  /** Every fragment has a real type and stays inside its block. */
  ghost predicate Fits(frags: seq<Fragment>, o: nat) {
    frags != [] ==>
      && frags[0].kind in {FULL_TYPE, FIRST_TYPE, MIDDLE_TYPE, LAST_TYPE}
      && |frags[0].payload| <= Avail(o)
      && Fits(frags[1..], EndOf(o, frags[0]))
  }

  lemma StartFacts(o: nat)
    ensures o <= Start(o) < o + HEADER_SIZE
    ensures Start(o) % BLOCK_SIZE + HEADER_SIZE + Avail(o) == BLOCK_SIZE
    ensures Start(o) != o ==> Start(o) % BLOCK_SIZE == 0
  {
  }

  /** Blocks are 32 KB and headers seven bytes: after any offset there is a place for a header in the same block or,
      with less than seven bytes left in it, at the start of the next; the payload can have all the rest of that block.
      */
  lemma BlocksOf32K(o: nat)
    ensures o <= Start(o) < o + 7 && (Start(o) != o ==> Start(o) % 32768 == 0 && o % 32768 > 32761)
    ensures Start(o) % 32768 + 7 + Avail(o) == 32768
  {
    StartFacts(o);
  }

  /** What is left of a block before the next one is filled with zeros. */
  lemma PaddingIsZero(frags: seq<Fragment>, o: nat, i: nat)
    requires frags != [] && o + i < Start(o)
    ensures i < |Bytes(frags, o)| && Bytes(frags, o)[i] == 0
  {
    hide Physical, Start;
    var z, more := Zeros(Start(o) - o), Physical(frags[0]) + Bytes(frags[1..], EndOf(o, frags[0]));
    assert Bytes(frags, o) == z + more;
  }

  /** An empty record, byte by byte: the masked checksum of the type, the length, and the type. */
  lemma EmptyRecordBytes()
    ensures FragmentsOf([], 0, true) == [Fragment(1, [])]
    ensures Physical(Fragment(1, [])) == [0x05, 0x2b, 0x28, 0x43, 0x00, 0x00, 0x01]
  {
    var f := Fragment(1, []);
    assert Value([1]) == 0xa016d052 by { ValueOfOne(); }
    assert [f.kind] + f.payload == [1];
    assert Mask(0xa016d052) == 0x43282b05;
    assert Fixed32(0x43282b05) == [0x05, 0x2b, 0x28, 0x43];
    hide Value, Mask, Fixed32;
    assert ByteOf(0) == 0;
  }

  lemma ValueOfOne()
    ensures Value([1]) == 0xa016d052
  {
    var data: seq<Byte> := [1];
    assert Xor(0, XOR_OUT) == 0xffff_ffff;
    assert Step1(0xffff_ffff, 1) == 0x5fe92fad;
    assert Xor(0x5fe92fad, XOR_OUT) == 0xa016d052;
    hide Step1, Xor;
    assert data[..0] == [];
    assert Fold(0xffff_ffff, []) == 0xffff_ffff;
  }

  lemma {:induction false} BytesConcat(a: seq<Fragment>, b: seq<Fragment>, o: nat)
    ensures Bytes(a + b, o) == Bytes(a, o) + Bytes(b, o + |Bytes(a, o)|)
  {
    hide Physical, Start, Zeros;
    if a == [] {
      assert a + b == b;
    } else {
      StartBound(o);
      var o1 := EndOf(o, a[0]);
      BytesConcat(a[1..], b, o1);
      assert (a + b)[1..] == a[1..] + b;
    }
  }

  lemma StartBound(o: nat)
    ensures o <= Start(o)
  {
  }

  lemma {:induction false} FitsConcat(a: seq<Fragment>, b: seq<Fragment>, o: nat)
    requires Fits(a, o) && Fits(b, o + |Bytes(a, o)|)
    ensures Fits(a + b, o)
  {
    hide Physical, Start, Zeros;
    if a == [] {
      assert a + b == b;
    } else {
      StartBound(o);
      FitsConcat(a[1..], b, EndOf(o, a[0]));
      assert (a + b)[1..] == a[1..] + b;
    }
  }

  // ---------------------------------------------------------------------------------------------------------
  // Logical records
  // ---------------------------------------------------------------------------------------------------------

  /** The fragments of what is left of a record, `begin` telling whether nothing of it has been written yet. */
  function FragmentsOf(d: seq<Byte>, o: nat, begin: bool): seq<Fragment>
    decreases |d|, Avail(o) == 0
  {
    var n := Avail(o);
    if |d| <= n then
      [Fragment(if begin then FULL_TYPE else LAST_TYPE, d)]
    else
      [Fragment(if begin then FIRST_TYPE else MIDDLE_TYPE, d[..n])]
        + FragmentsOf(d[n..], Start(o) + HEADER_SIZE + n, false)
  }

  /** Where the last fragment of the record ends. */
  function RecordEnd(d: seq<Byte>, o: nat): nat
    decreases |d|, Avail(o) == 0
  {
    var n := Avail(o);
    if |d| <= n then Start(o) + HEADER_SIZE + |d| else RecordEnd(d[n..], Start(o) + HEADER_SIZE + n)
  }

  lemma {:induction false} RecordBytes(d: seq<Byte>, o: nat, begin: bool)
    ensures Fits(FragmentsOf(d, o, begin), o)
    ensures o + |Bytes(FragmentsOf(d, o, begin), o)| == RecordEnd(d, o)
    decreases |d|, Avail(o) == 0
  {
    hide Physical, Zeros, Start, Avail;
    StartFacts(o);
    var n := Avail(o);
    var frags := FragmentsOf(d, o, begin);
    if |d| <= n {
      assert frags[1..] == [];
      assert Bytes(frags, o) == Zeros(Start(o) - o) + Physical(frags[0]) + [];
    } else {
      var o1 := Start(o) + HEADER_SIZE + n;
      AvailNext(o);
      RecordBytes(d[n..], o1, false);
      assert frags[1..] == FragmentsOf(d[n..], o1, false);
    }
  }

  /** A block filled up to its end leaves a whole block for what follows. */
  lemma AvailNext(o: nat)
    ensures Avail(o) == 0 ==> Avail(Start(o) + HEADER_SIZE + Avail(o)) > 0
  {
  }

  /** The fragments of a sequence of records written from offset `o` on. */
  function AllFragments(records: seq<seq<Byte>>, o: nat): seq<Fragment> {
    if records == [] then []
    else FragmentsOf(records[0], o, true) + AllFragments(records[1..], RecordEnd(records[0], o))
  }

  /** How many of the records end at or before byte `n`. */
  function Complete(records: seq<seq<Byte>>, o: nat, n: nat): (r: nat)
    ensures r <= |records|
  {
    if records == [] || RecordEnd(records[0], o) > n then 0 else 1 + Complete(records[1..], RecordEnd(records[0], o), n)
  }

  lemma {:induction false} AllFit(records: seq<seq<Byte>>, o: nat)
    ensures Fits(AllFragments(records, o), o)
  {
    hide Bytes, FragmentsOf, Fits;
    if records == [] {
      assert Fits([], o) by { FitsEmpty(o); }
    } else {
      RecordBytes(records[0], o, true);
      AllFit(records[1..], RecordEnd(records[0], o));
      FitsConcat(FragmentsOf(records[0], o, true), AllFragments(records[1..], RecordEnd(records[0], o)), o);
    }
  }

  lemma FitsEmpty(o: nat)
    ensures Fits([], o)
  {
  }
}
