/** Write batches as bytes (db/write_batch.cc). */
module WriteBatches {
  import opened Views
  import opened Coding

  const HEADER: nat := 12
  const TYPE_DELETION: Octet := 0
  const TYPE_VALUE: Octet := 1

  datatype Op = Put(key: seq<Octet>, value: seq<Octet>) | Delete(key: seq<Octet>)

  function OpBytes(op: Op): seq<Octet> {
    match op
    case Put(k, v) => [TYPE_VALUE] + (Prefixed(k) + Prefixed(v))
    case Delete(k) => [TYPE_DELETION] + Prefixed(k)
  }

  function OpsBytes(ops: seq<Op>): seq<Octet> {
    if ops == [] then [] else OpBytes(ops[0]) + OpsBytes(ops[1..])
  }

  /** The representation of a batch: its first sequence number, its count, and its operations. */
  function Rep(first: nat, ops: seq<Op>): (r: seq<Octet>)
    ensures |r| >= HEADER
  {
    Fixed(first, 8) + Fixed(|ops|, 4) + OpsBytes(ops)
  }

  /** A batch with a put and a deletion, byte by byte: the sequence number, the count, and each operation with its type
      and its length-prefixed strings. */
  lemma BatchBytes()
    ensures Rep(0x0102, [Put([0x61], [0x76, 0x77]), Delete([0x62])])
         == [0x02, 0x01, 0, 0, 0, 0, 0, 0, 2, 0, 0, 0, 1, 1, 0x61, 2, 0x76, 0x77, 0, 1, 0x62]
  {
    hide OpsBytes, Fixed;
    FixedLiteral();
    OpsLiteral();
  }

  lemma OpsLiteral()
    ensures OpsBytes([Put([0x61], [0x76, 0x77]), Delete([0x62])]) == [1, 1, 0x61, 2, 0x76, 0x77, 0, 1, 0x62]
  {
    var a, b := Put([0x61], [0x76, 0x77]), Delete([0x62]);
    assert OpBytes(a) == [1, 1, 0x61, 2, 0x76, 0x77] && OpBytes(b) == [0, 1, 0x62] by { OpLiteral(); }
    hide OpBytes;
    var ops := [a, b];
    assert ops[1..] == [b] && [b][1..] == [];
    assert OpsBytes([b]) == OpBytes(b) + OpsBytes([]);
    assert OpsBytes(ops) == OpBytes(a) + OpsBytes([b]);
  }

  lemma OpLiteral()
    ensures OpBytes(Put([0x61], [0x76, 0x77])) == [1, 1, 0x61, 2, 0x76, 0x77] && OpBytes(Delete([0x62])) == [0, 1, 0x62]
  {
    assert Varint(1) == [1] && Varint(2) == [2];
    hide Varint;
    assert Prefixed([0x61]) == [1, 0x61] && Prefixed([0x62]) == [1, 0x62] && Prefixed([0x76, 0x77]) == [2, 0x76, 0x77];
  }

  lemma FixedLiteral()
    ensures Fixed(0x0102, 8) == [0x02, 0x01, 0, 0, 0, 0, 0, 0] && Fixed(2, 4) == [2, 0, 0, 0]
  {
    assert Fixed(0, 0) == [];
    assert Fixed(0, 1) == [0];
    assert Fixed(0, 2) == [0, 0];
    assert Fixed(0, 3) == [0, 0, 0];
    assert Fixed(0, 4) == [0, 0, 0, 0];
    assert Fixed(0, 5) == [0, 0, 0, 0, 0];
    assert Fixed(0, 6) == [0, 0, 0, 0, 0, 0];
    assert Fixed(1, 7) == [1] + Fixed(0, 6);
    assert Fixed(0x0102, 8) == [2] + Fixed(1, 7);
    assert Fixed(2, 4) == [2] + Fixed(0, 3);
  }

  ghost predicate GoodOp(op: Op) {
    |op.key| < LIMIT32 && (op.Put? ==> |op.value| < LIMIT32)
  }

  /** Operations whose lengths and whose number fit their fields. */
  ghost predicate GoodOps(ops: seq<Op>) {
    |ops| < 0x8000_0000 && forall op :: op in ops ==> GoodOp(op)
  }

  // ---------------------------------------------------------------------------------------------------------
  // Reading operations
  // ---------------------------------------------------------------------------------------------------------

  function ReadOp(bytes: seq<Octet>): Option<(Op, seq<Octet>)>
    requires bytes != []
  {
    match ReadPrefixed(bytes[1..])
    case None => None
    case Some(k) =>
      if bytes[0] == TYPE_DELETION then Some((Delete(k.0), k.1))
      else if bytes[0] == TYPE_VALUE then
        match ReadPrefixed(k.1)
        case None => None
        case Some(v) => Some((Put(k.0, v.0), v.1))
      else None
  }

  lemma OpShrinks(bytes: seq<Octet>)
    requires bytes != []
    ensures ReadOp(bytes).Some? ==> |ReadOp(bytes).value.1| < |bytes|
  {
    hide ReadPrefixed;
    PrefixedShrinks(bytes[1..]);
    if ReadPrefixed(bytes[1..]).Some? {
      PrefixedShrinks(ReadPrefixed(bytes[1..]).value.1);
    }
  }

  /** The operations up to the first malformed one, and whether there was none. */
  function ReadOps(bytes: seq<Octet>): (seq<Op>, bool)
    decreases |bytes|
  {
    if bytes == [] then ([], true)
    else
      OpShrinks(bytes);
      match ReadOp(bytes)
      case None => ([], false)
      case Some(p) => var r := ReadOps(p.1); ([p.0] + r.0, r.1)
  }

  lemma OpRoundTrip(op: Op, rest: seq<Octet>)
    requires GoodOp(op)
    ensures OpBytes(op) + rest != [] && ReadOp(OpBytes(op) + rest) == Some((op, rest))
  {
    hide Prefixed, ReadPrefixed;
    var bytes := OpBytes(op) + rest;
    match op
    case Put(k, v) =>
      PrefixedRoundTrip(v, rest);
      PrefixedRoundTrip(k, Prefixed(v) + rest);
      assert bytes[1..] == Prefixed(k) + (Prefixed(v) + rest);
    case Delete(k) =>
      PrefixedRoundTrip(k, rest);
      assert bytes[1..] == Prefixed(k) + rest;
  }

  lemma {:induction false} OpsRoundTrip(ops: seq<Op>)
    requires forall op :: op in ops ==> GoodOp(op)
    ensures ReadOps(OpsBytes(ops)) == (ops, true)
  {
    hide OpBytes, ReadOp;
    if ops != [] {
      OpRoundTrip(ops[0], OpsBytes(ops[1..]));
      OpsRoundTrip(ops[1..]);
      assert [ops[0]] + ops[1..] == ops;
    }
  }

  lemma {:induction false} OpsConcat(a: seq<Op>, b: seq<Op>)
    ensures OpsBytes(a + b) == OpsBytes(a) + OpsBytes(b)
  {
    hide OpBytes;
    if a == [] {
      assert a + b == b;
    } else {
      OpsConcat(a[1..], b);
      FirstOp(a, b);
      var x, y, z := OpBytes(a[0]), OpsBytes(a[1..]), OpsBytes(b);
      assert x + (y + z) == (x + y) + z;
    }
  }

  lemma FirstOp(a: seq<Op>, b: seq<Op>)
    requires a != []
    ensures OpsBytes(a) == OpBytes(a[0]) + OpsBytes(a[1..])
    ensures OpsBytes(a + b) == OpBytes(a[0]) + OpsBytes(a[1..] + b)
  {
    hide OpBytes;
    assert (a + b)[1..] == a[1..] + b && (a + b)[0] == a[0];
  }

  // ---------------------------------------------------------------------------------------------------------
  // The header
  // ---------------------------------------------------------------------------------------------------------

  function Count(rep: seq<Octet>): int
    requires |rep| >= HEADER
  {
    var n := Number(rep[8..12]);
    if n < 0x8000_0000 then n else n - LIMIT32
  }

  /** The count is a signed 32-bit number. */
  lemma CountIsSigned(rep: seq<Octet>)
    requires |rep| >= HEADER
    ensures -0x8000_0000 <= Count(rep) < 0x8000_0000 && (Number(rep[8..12]) - Count(rep)) % LIMIT32 == 0
  {
    assert Number(rep[8..12]) < LIMIT32 by { FourBytes(rep[8..12]); }
    hide Number;
  }

  lemma FourBytes(b: seq<Octet>)
    requires |b| == 4
    ensures Number(b) < LIMIT32
  {
    assert b[1..][1..] == b[2..] && b[2..][1..] == b[3..] && b[3..][1..] == [];
    assert Number(b[3..]) < 0x100;
    assert Number(b[2..]) < 0x1_0000;
    assert Number(b[1..]) < 0x100_0000;
  }

  function Sequence(rep: seq<Octet>): nat
    requires |rep| >= HEADER
  {
    Number(rep[..8])
  }

  lemma RepParts(first: nat, ops: seq<Op>)
    requires first < LIMIT64 && GoodOps(ops)
    ensures Count(Rep(first, ops)) == |ops| && Sequence(Rep(first, ops)) == first
    ensures Rep(first, ops)[HEADER..] == OpsBytes(ops)
  {
    hide OpsBytes, Fixed, Number;
    var rep := Rep(first, ops);
    assert rep[..8] == Fixed(first, 8) && rep[8..12] == Fixed(|ops|, 4);
    FixedRoundTrips(first);
    FixedRoundTrips(|ops|);
  }

  /** An entry on its way to the memtable: an operation under its sequence number. */
  datatype Stamped = Stamped(seqno: nat, op: Op)

  function Stamp(first: nat, ops: seq<Op>): (r: seq<Stamped>)
    ensures |r| == |ops|
  {
    seq(|ops|, i requires 0 <= i < |ops| => Stamped(first + i, ops[i]))
  }

  class WriteBatch {
    var rep: seq<Octet>

    ghost predicate Valid()
      reads this
    {
      |rep| >= HEADER
    }

    /** The batch holds these operations, starting at this sequence number. */
    ghost predicate Holds(first: nat, ops: seq<Op>)
      reads this
    {
      rep == Rep(first, ops) && first < LIMIT64 && GoodOps(ops)
    }

    constructor ()
      ensures Valid() && Holds(0, [])
    {
      rep := seq(HEADER, _ => 0);
      new;
      EmptyRep();
    }

    method SetCount(n: int)
      requires Valid()
      modifies this
      ensures rep == old(rep)[..8] + Fixed(n % LIMIT32, 4) + old(rep)[12..]
    {
      rep := rep[..8] + Fixed(n % LIMIT32, 4) + rep[12..];
    }

    method SetSequence(first: nat)
      requires Valid() && first < LIMIT64
      modifies this
      ensures Valid() && rep == Fixed(first, 8) + old(rep)[8..]
      ensures forall was, ops :: old(Holds(was, ops)) ==> Holds(first, ops)
    {
      hide Rep, GoodOps;
      rep := Fixed(first, 8) + rep[8..];
      forall was, ops | old(Holds(was, ops))
        ensures Holds(first, ops)
      {
        Resequenced(was, first, ops);
      }
    }

    method PutOp(key: seq<Octet>, value: seq<Octet>)
      requires Valid()
      modifies this
      ensures Valid()
      ensures forall first, ops :: old(Holds(first, ops)) && GoodOps(ops + [Put(key, value)]) ==>
        Holds(first, ops + [Put(key, value)])
    {
      hide Rep, GoodOps, OpBytes;
      SetCount(Count(rep) + 1);
      rep := rep + [TYPE_VALUE];
      rep := rep + Prefixed(key);
      rep := rep + Prefixed(value);
      assert rep == Grown(old(rep), Put(key, value)) by { GrownPut(old(rep), key, value); }
      forall first, ops | old(Holds(first, ops)) && GoodOps(ops + [Put(key, value)])
        ensures Holds(first, ops + [Put(key, value)])
      {
        GrownRep(first, ops, Put(key, value));
      }
    }

    method DeleteOp(key: seq<Octet>)
      requires Valid()
      modifies this
      ensures Valid()
      ensures forall first, ops :: old(Holds(first, ops)) && GoodOps(ops + [Delete(key)]) ==>
        Holds(first, ops + [Delete(key)])
    {
      hide Rep, GoodOps, OpBytes;
      SetCount(Count(rep) + 1);
      rep := rep + [TYPE_DELETION];
      rep := rep + Prefixed(key);
      assert rep == Grown(old(rep), Delete(key)) by { GrownDelete(old(rep), key); }
      forall first, ops | old(Holds(first, ops)) && GoodOps(ops + [Delete(key)])
        ensures Holds(first, ops + [Delete(key)])
      {
        GrownRep(first, ops, Delete(key));
      }
    }

    /** The operations of another batch follow those of this one. */
    method Append(src: seq<Octet>)
      requires Valid() && |src| >= HEADER
      modifies this
      ensures Valid()
      ensures forall first: nat, ops: seq<Op>, from: nat, more: seq<Op> ::
        old(Holds(first, ops)) && src == Rep(from, more) && from < LIMIT64 && GoodOps(more) && GoodOps(ops + more) ==>
        Holds(first, ops + more)
    {
      hide Rep, GoodOps, Fixed;
      SetCount(Count(rep) + Count(src));
      rep := rep + src[HEADER..];
      forall first: nat, ops: seq<Op>, from: nat, more: seq<Op> | old(Holds(first, ops)) && src == Rep(from, more)
        && from < LIMIT64 && GoodOps(more) && GoodOps(ops + more)
        ensures Holds(first, ops + more)
      {
        AppendedRep(first, ops, from, more);
      }
    }

    /** Every operation up to a malformed one is handled; success means that the body is whole and the count right. */
    method Iterate() returns (handled: seq<Op>, ok: bool)
      requires Valid()
      ensures handled == ReadOps(rep[HEADER..]).0
      ensures ok == (ReadOps(rep[HEADER..]).1 && |handled| == Count(rep))
      ensures forall first, ops :: Holds(first, ops) ==> ok && handled == ops
    {
      hide ReadOp, Count, Rep;
      var input := rep[HEADER..];
      handled, ok := [], true;
      ghost var all := ReadOps(input);
      while input != [] && ok
        invariant ok ==> all.0 == handled + ReadOps(input).0 && all.1 == ReadOps(input).1
        invariant !ok ==> all.0 == handled && !all.1
        decreases |input|, ok
      {
        OpShrinks(input);
        var p := GetOp(input);
        if p == None {
          ok := false;
        } else {
          handled := handled + [p.value.0];
          input := p.value.1;
        }
      }
      ok := ok && |handled| == Count(rep);
      forall first, ops | Holds(first, ops)
        ensures ok && handled == ops
      {
        RepParts(first, ops);
        OpsRoundTrip(ops);
      }
    }

    /** What InsertInto adds to the memtable. */
    method InsertInto() returns (entries: seq<Stamped>, ok: bool)
      requires Valid()
      ensures forall first, ops :: Holds(first, ops) ==> ok && entries == Stamp(first, ops)
    {
      hide ReadOps, Count, Rep, GoodOps;
      var handled;
      handled, ok := Iterate();
      entries := Stamp(Sequence(rep), handled);
      forall first, ops | Holds(first, ops)
        ensures ok && entries == Stamp(first, ops)
      {
        RepParts(first, ops);
      }
    }
  }

  lemma EmptyRep()
    ensures seq(HEADER, _ => 0) == Rep(0, []) && GoodOps([])
  {
    assert Fixed(0, 8) == [0, 0, 0, 0, 0, 0, 0, 0];
    assert Fixed(0, 4) == [0, 0, 0, 0];
  }

  lemma Resequenced(was: nat, first: nat, ops: seq<Op>)
    ensures Fixed(first, 8) + Rep(was, ops)[8..] == Rep(first, ops)
  {
    hide Fixed, OpsBytes;
  }

  function Grown(rep: seq<Octet>, op: Op): seq<Octet>
    requires |rep| >= HEADER
  {
    rep[..8] + Fixed((Count(rep) + 1) % LIMIT32, 4) + rep[12..] + OpBytes(op)
  }

  lemma GrownPut(rep: seq<Octet>, key: seq<Octet>, value: seq<Octet>)
    requires |rep| >= HEADER
    ensures rep[..8] + Fixed((Count(rep) + 1) % LIMIT32, 4) + rep[12..] + [TYPE_VALUE] + Prefixed(key) + Prefixed(value)
      == Grown(rep, Put(key, value))
  {
    hide Fixed, Prefixed, Count;
  }

  lemma GrownDelete(rep: seq<Octet>, key: seq<Octet>)
    requires |rep| >= HEADER
    ensures rep[..8] + Fixed((Count(rep) + 1) % LIMIT32, 4) + rep[12..] + [TYPE_DELETION] + Prefixed(key)
      == Grown(rep, Delete(key))
  {
    hide Fixed, Prefixed, Count;
  }

  lemma OneOp(op: Op)
    ensures OpsBytes([op]) == OpBytes(op)
  {
    hide OpBytes;
    assert OpsBytes([op][1..]) == [];
  }

  lemma GrownRep(first: nat, ops: seq<Op>, op: Op)
    requires first < LIMIT64 && GoodOps(ops) && GoodOps(ops + [op])
    ensures Grown(Rep(first, ops), op) == Rep(first, ops + [op])
  {
    hide Fixed, OpsBytes, OpBytes, Count;
    RepParts(first, ops);
    OpsConcat(ops, [op]);
    OneOp(op);
    assert Rep(first, ops)[..8] == Fixed(first, 8);
    assert Rep(first, ops)[12..] == OpsBytes(ops);
  }

  lemma AppendedRep(first: nat, ops: seq<Op>, from: nat, more: seq<Op>)
    requires first < LIMIT64 && from < LIMIT64 && GoodOps(ops) && GoodOps(more) && GoodOps(ops + more)
    ensures var a, b := Rep(first, ops), Rep(from, more);
      a[..8] + Fixed((Count(a) + Count(b)) % LIMIT32, 4) + a[12..] + b[HEADER..] == Rep(first, ops + more)
  {
    hide Fixed, OpsBytes, Count;
    RepParts(first, ops);
    RepParts(from, more);
    OpsConcat(ops, more);
    assert Rep(first, ops)[..8] == Fixed(first, 8);
    assert Rep(first, ops)[12..] == OpsBytes(ops);
  }

  method GetOp(input: seq<Octet>) returns (r: Option<(Op, seq<Octet>)>)
    requires input != []
    ensures r == ReadOp(input)
  {
    hide ReadPrefixed;
    var tag := input[0];
    if tag == TYPE_VALUE {
      var k := GetLengthPrefixedSlice(input[1..]);
      if k == None {
        return None;
      }
      var v := GetLengthPrefixedSlice(k.value.1);
      return if v == None then None else Some((Put(k.value.0, v.value.0), v.value.1));
    } else if tag == TYPE_DELETION {
      var k := GetLengthPrefixedSlice(input[1..]);
      return if k == None then None else Some((Delete(k.value.0), k.value.1));
    } else {
      return None;
    }
  }
}
