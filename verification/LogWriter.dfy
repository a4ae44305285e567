/** Appending records to a log (db/log_writer.cc). */
module LogWriter {
  import opened Crc32c
  import opened LogFormat

  class Writer {
    var dest: seq<Byte>
    var blockOffset: nat

    ghost predicate Valid()
      reads this
    {
      blockOffset <= BLOCK_SIZE && (|dest| - blockOffset) % BLOCK_SIZE == 0
    }

    /** A writer for a file that already holds `contents`: empty for a new log, or a log that is reused. */
    constructor (contents: seq<Byte>)
      ensures Valid() && dest == contents
    {
      dest := contents;
      blockOffset := |contents| % BLOCK_SIZE;
    }

    /** Whatever was in the file before, the record is appended as its fragments from the end of the file on. */
    method AddRecord(slice: seq<Byte>)
      requires Valid()
      modifies this
      ensures Valid()
      ensures dest == old(dest) + Bytes(FragmentsOf(slice, |old(dest)|, true), |old(dest)|)
    {
      hide Bytes, FragmentsOf, Physical, Start, Avail;
      var left, begin, more := slice, true, true;
      ghost var all := dest + Bytes(FragmentsOf(slice, |dest|, true), |dest|);
      while more
        invariant Valid()
        invariant more ==> all == dest + Bytes(FragmentsOf(left, |dest|, begin), |dest|)
        invariant !more ==> all == dest
        decreases more, |left|, Avail(|dest|) == 0
      {
        ghost var before := dest;
        OffsetInBlock(|dest|, blockOffset);
        var leftover := BLOCK_SIZE - blockOffset;
        if leftover < HEADER_SIZE {
          if leftover > 0 {
            dest := dest + Zeros(leftover);
          }
          blockOffset := 0;
        }
        assert dest == before + Zeros(Start(|before|) - |before|);
        var avail := BLOCK_SIZE - blockOffset - HEADER_SIZE;
        var length := if |left| < avail then |left| else avail;
        var end := |left| == length;
        var kind := if begin && end then FULL_TYPE else if begin then FIRST_TYPE else if end then LAST_TYPE
          else MIDDLE_TYPE;
        Written(before, left, begin, length, kind);
        AvailNext(|before|);
        EmitPhysicalRecord(kind, left[..length]);
        left := left[length..];
        begin := false;
        more := left != [];
      }
    }

    method EmitPhysicalRecord(t: Byte, payload: seq<Byte>)
      requires Valid() && blockOffset + HEADER_SIZE + |payload| <= BLOCK_SIZE
      modifies this
      ensures Valid()
      ensures dest == old(dest) + Physical(Fragment(t, payload))
      ensures blockOffset == old(blockOffset) + HEADER_SIZE + |payload|
    {
      hide Fixed32, Mask, Extended, ByteOf;
      var crc := Extend(Value([t]), payload, 0);
      ExtendConcat(0, [t], payload);
      crc := Mask(crc);
      var buf := Fixed32(crc) + [ByteOf(|payload|), ByteOf(|payload| / 256), t];
      dest := dest + buf;
      dest := dest + payload;
      blockOffset := blockOffset + HEADER_SIZE + |payload|;
      assert dest == old(dest) + Physical(Fragment(t, payload));
    }
  }

  lemma OffsetInBlock(n: nat, off: nat)
    requires off <= BLOCK_SIZE && (n - off) % BLOCK_SIZE == 0
    ensures BLOCK_SIZE - off < HEADER_SIZE ==> Start(n) == n + BLOCK_SIZE - off && Avail(n) == BLOCK_SIZE - HEADER_SIZE
    ensures BLOCK_SIZE - off >= HEADER_SIZE ==> Start(n) == n && Avail(n) == BLOCK_SIZE - HEADER_SIZE - off
  {
    assert n % BLOCK_SIZE == if off == BLOCK_SIZE then 0 else off;
  }

  /** One pass of the loop writes the padding and the first fragment of what is left. */
  lemma Written(before: seq<Byte>, left: seq<Byte>, begin: bool, length: nat, kind: Byte)
    requires length == if |left| < Avail(|before|) then |left| else Avail(|before|)
    requires kind == if begin && |left| == length then FULL_TYPE
                     else if begin then FIRST_TYPE
                     else if |left| == length then LAST_TYPE else MIDDLE_TYPE
    ensures |before| <= Start(|before|)
    ensures var dest := before + Zeros(Start(|before|) - |before|) + Physical(Fragment(kind, left[..length]));
      before + Bytes(FragmentsOf(left, |before|, begin), |before|)
      == if |left| == length then dest else dest + Bytes(FragmentsOf(left[length..], |dest|, false), |dest|)
  {
    hide Physical, Start, Avail, Zeros, Bytes;
    StartBound(|before|);
    var o := |before|;
    var frags := FragmentsOf(left, o, begin);
    var f := Fragment(kind, left[..length]);
    var o1 := EndOf(o, f);
    assert frags[0] == f && frags[1..] == if |left| == length then [] else FragmentsOf(left[length..], o1, false) by {
      assert |left| == length ==> left[..length] == left;
    }
    BytesFirst(frags, o);
    Associate(before, Zeros(Start(o) - o), Physical(f), Bytes(frags[1..], o1));
  }

  lemma BytesFirst(frags: seq<Fragment>, o: nat)
    requires frags != []
    ensures o <= Start(o)
    ensures Bytes(frags, o) == Zeros(Start(o) - o) + Physical(frags[0]) + Bytes(frags[1..], EndOf(o, frags[0]))
    ensures Bytes([], EndOf(o, frags[0])) == []
  {
  }

  lemma Associate(a: seq<Byte>, b: seq<Byte>, c: seq<Byte>, d: seq<Byte>)
    ensures a + (b + c + d) == a + b + c + d
    ensures d == [] ==> a + (b + c + d) == a + b + c
  {
    assert a + (b + c + d) == a + b + c + d;
    if d == [] {
      assert a + b + c + d == a + b + c;
    }
  }
}
