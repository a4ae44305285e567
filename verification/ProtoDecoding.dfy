/** Decoding messages (nanopb: pb_decode.c). A stream is the bytes that are left of it. */
module ProtoDecoding {
  import opened Views
  import opened Coding
  import opened ProtoMessages

  const MAX_REQUIRED_FIELDS: nat := 64

  // ---------------------------------------------------------------------------------------------------------
  // Numbers
  // ---------------------------------------------------------------------------------------------------------

  /** The seven bits of a byte, moved up. */
  function Weighted(b: Octet, bitpos: nat): nat {
    (b % 128) * Pow2(bitpos)
  }

  /** pb_decode_varint32 after its first byte: bytes beyond 32 bits must be empty or repeat the sign. */
  function Read32More(bytes: seq<Octet>, bitpos: nat, result: nat): Option<(nat, seq<Octet>)>
    decreases |bytes|
  {
    if bytes == [] then None
    else
      var b := bytes[0];
      var sign := if bitpos < 63 then 0xff else 0x01;
      if bitpos >= 32 && b % 128 != 0 && (result < 0x8000_0000 || b != sign) then None
      else
        var result' := if bitpos >= 32 then result else (result + Weighted(b, bitpos)) % LIMIT32;
        if b >= 128 then Read32More(bytes[1..], bitpos + 7, result')
        else if bitpos + 7 == 35 && (b / 16) % 8 != 0 then None
        else Some((result', bytes[1..]))
  }

  function Read32(bytes: seq<Octet>): Option<(nat, seq<Octet>)> {
    if bytes == [] then None
    else if bytes[0] < 128 then Some((bytes[0] as nat, bytes[1..]))
    else Read32More(bytes[1..], 7, bytes[0] % 128)
  }

  lemma {:induction false} Read32MoreShrinks(bytes: seq<Octet>, bitpos: nat, result: nat)
    ensures Read32More(bytes, bitpos, result).Some? ==> |Read32More(bytes, bitpos, result).value.1| < |bytes|
    decreases |bytes|
  {
    hide Pow2;
    if bytes != [] {
      var b := bytes[0];
      var result' := if bitpos >= 32 then result else (result + Weighted(b, bitpos)) % LIMIT32;
      Read32MoreShrinks(bytes[1..], bitpos + 7, result');
    }
  }

  lemma Read32Shrinks(bytes: seq<Octet>)
    ensures Read32(bytes).Some? ==> |Read32(bytes).value.1| < |bytes|
  {
    hide Read32More;
    if bytes != [] {
      Read32MoreShrinks(bytes[1..], 7, bytes[0] % 128);
    }
  }

  /** One byte read. */
  lemma ByteRead(bytes: seq<Octet>, bitpos: nat, result: nat)
    requires bytes != [] && bitpos <= 28 && result + Weighted(bytes[0], bitpos) < LIMIT32
    ensures bytes[0] >= 128 ==>
      Read32More(bytes, bitpos, result) == Read32More(bytes[1..], bitpos + 7, result + Weighted(bytes[0], bitpos))
    ensures bytes[0] < 128 && (bitpos == 28 ==> bytes[0] < 16) ==>
      Read32More(bytes, bitpos, result) == Some((result + Weighted(bytes[0], bitpos), bytes[1..]))
  {
    hide Weighted;
    SmallModulo(result + Weighted(bytes[0], bitpos), LIMIT32);
  }

  lemma VarintStep(n: nat)
    ensures n < 128 ==> Varint(n) == [n]
    ensures n >= 128 ==> Varint(n) == [n % 128 + 128] + Varint(n / 128)
  {
  }

  lemma VarintParts(n: nat, rest: seq<Octet>)
    ensures var bytes := Varint(n) + rest;
      if n < 128 then bytes[0] == n && bytes[1..] == rest
      else bytes[0] == n % 128 + 128 && bytes[1..] == Varint(n / 128) + rest
  {
    hide Varint;
    VarintStep(n);
    var bytes := Varint(n) + rest;
    if n < 128 {
      assert bytes[1..] == rest;
    } else {
      assert bytes[1..] == Varint(n / 128) + rest;
    }
  }

  /** One more byte of a number, when `p` is the weight of its lowest bit. */
  lemma OneByte(n: nat, bitpos: nat, p: nat, result: nat, rest: seq<Octet>)
    requires bitpos <= 28 && p == Pow2(bitpos) && result + (n % 128) * p < LIMIT32 && (bitpos == 28 ==> n < 16)
    ensures n < 128 ==> Read32More(Varint(n) + rest, bitpos, result) == Some((result + n * p, rest))
    ensures n >= 128 ==>
      Read32More(Varint(n) + rest, bitpos, result)
      == Read32More(Varint(n / 128) + rest, bitpos + 7, result + (n % 128) * p)
  {
    hide Pow2, Read32More, Varint, Weighted;
    var bytes := Varint(n) + rest;
    VarintParts(n, rest);
    var b := bytes[0];
    assert b % 128 == n % 128;
    assert Weighted(b, bitpos) == (n % 128) * p by { WeightOf(b, bitpos); }
    ByteRead(bytes, bitpos, result);
  }

  lemma WeightOf(b: Octet, bitpos: nat)
    ensures Weighted(b, bitpos) == (b % 128) * Pow2(bitpos)
  {
  }

  lemma From28(n: nat, result: nat, rest: seq<Octet>)
    requires result + n * 0x1000_0000 < LIMIT32
    ensures Read32More(Varint(n) + rest, 28, result) == Some((result + n * 0x1000_0000, rest))
  {
    hide Pow2, Read32More, Varint;
    PowersUsed();
    OneByte(n, 28, 0x1000_0000, result, rest);
  }

  lemma From21(n: nat, result: nat, rest: seq<Octet>)
    requires result + n * 0x20_0000 < LIMIT32
    ensures Read32More(Varint(n) + rest, 21, result) == Some((result + n * 0x20_0000, rest))
  {
    hide Pow2, Read32More, Varint;
    PowersUsed();
    OneByte(n, 21, 0x20_0000, result, rest);
    if n >= 128 {
      From28(n / 128, result + (n % 128) * 0x20_0000, rest);
    }
  }

  lemma From14(n: nat, result: nat, rest: seq<Octet>)
    requires result + n * 0x4000 < LIMIT32
    ensures Read32More(Varint(n) + rest, 14, result) == Some((result + n * 0x4000, rest))
  {
    hide Pow2, Read32More, Varint;
    PowersUsed();
    OneByte(n, 14, 0x4000, result, rest);
    if n >= 128 {
      From21(n / 128, result + (n % 128) * 0x4000, rest);
    }
  }

  lemma From7(n: nat, result: nat, rest: seq<Octet>)
    requires result + n * 0x80 < LIMIT32
    ensures Read32More(Varint(n) + rest, 7, result) == Some((result + n * 0x80, rest))
  {
    hide Pow2, Read32More, Varint;
    PowersUsed();
    OneByte(n, 7, 0x80, result, rest);
    if n >= 128 {
      From14(n / 128, result + (n % 128) * 0x80, rest);
    }
  }

  lemma PowersUsed()
    ensures Pow2(7) == 0x80 && Pow2(14) == 0x4000 && Pow2(21) == 0x20_0000 && Pow2(28) == 0x1000_0000
      && Pow2(35) == 0x8_0000_0000
  {
    Pow2Add(7, 7);
    Pow2Add(7, 14);
    Pow2Add(7, 21);
    Pow2Add(7, 28);
  }

  lemma Read32RoundTrip(n: nat, rest: seq<Octet>)
    requires n < LIMIT32
    ensures Read32(Varint(n) + rest) == Some((n, rest))
  {
    hide Read32More, Varint;
    VarintParts(n, rest);
    if n >= 128 {
      From7(n / 128, n % 128, rest);
    }
  }

  // ---------------------------------------------------------------------------------------------------------
  // Scalars
  // ---------------------------------------------------------------------------------------------------------

  /** Reinterpreted as a signed number with this half range. */
  function Signed(n: nat, half: int): int
    requires half > 0
  {
    var m := n % (2 * half);
    if m < half then m else m - 2 * half
  }

  function UnZigZag(n: nat): int {
    if n % 2 == 1 then -(n / 2) - 1 else n / 2
  }

  /** A number that must fit the field. */
  function Checked(n: int, low: int, limit: int, rest: seq<Octet>): Option<(Value, seq<Octet>)> {
    if low <= n < limit then Some((NumV(n), rest)) else None
  }

  function ReadInt(kind: Kind, size: nat, bytes: seq<Octet>): Option<(Value, seq<Octet>)> {
    match ReadVarint64(bytes)
    case None => None
    case Some(p) =>
      if !IntSize(size) then None
      else if kind.UIntK? then Checked(p.0, 0, 2 * Half(size), p.1)
      else if kind.SIntK? then Checked(UnZigZag(p.0), -Half(size), Half(size), p.1)
      else Checked(Signed(p.0, if size == 8 then Half(8) else Half(4)), -Half(size), Half(size), p.1)
  }

  function ReadFixed(width: nat, bytes: seq<Octet>): Option<(Value, seq<Octet>)> {
    if |bytes| < width then None else Some((NumV(Number(bytes[..width])), bytes[width..]))
  }

  /** A length and that many bytes, if there is room for them. */
  function ReadString(room: int, bytes: seq<Octet>): Option<(Value, seq<Octet>)> {
    match Read32(bytes)
    case None => None
    case Some(p) => if p.0 > room || |p.1| < p.0 then None else Some((BytesV(p.1[..p.0]), p.1[p.0..]))
  }

  function ReadScalar(kind: Kind, bytes: seq<Octet>): Option<(Value, seq<Octet>)> {
    match kind
    case BoolK =>
      (match Read32(bytes)
       case None => None
       case Some(p) => Some((BoolV(p.0 != 0), p.1)))
    case IntK(size) => ReadInt(kind, size, bytes)
    case UIntK(size) => ReadInt(kind, size, bytes)
    case SIntK(size) => ReadInt(kind, size, bytes)
    case Fixed32K => ReadFixed(4, bytes)
    case Fixed64K => ReadFixed(8, bytes)
    case BytesK(max) => ReadString(max, bytes)
    case StringK(size) => ReadString(size - 1, bytes)
    case MessageK(_) => None
  }

  lemma SignedRoundTrip(n: int, size: nat)
    requires IntSize(size) && -Half(size) <= n < Half(size)
    ensures Unsigned(n) < LIMIT64 && Signed(Unsigned(n), if size == 8 then Half(8) else Half(4)) == n
  {
    if n < 0 {
      assert Unsigned(n) == n + LIMIT64;
    }
  }

  lemma ZigZagRoundTrip(n: int, size: nat)
    requires IntSize(size) && -Half(size) <= n < Half(size)
    ensures ZigZag(n) < LIMIT64 && UnZigZag(ZigZag(n)) == n
  {
  }

  lemma IntRoundTrip(kind: Kind, size: nat, v: Value, rest: seq<Octet>)
    requires (kind == IntK(size) || kind == UIntK(size) || kind == SIntK(size)) && GoodValue(kind, v)
    ensures ReadInt(kind, size, ValueBytes(kind, v) + rest) == Some((v, rest))
  {
    hide Varint, ReadVarint64, Unsigned, ZigZag, UnZigZag, Signed;
    if kind.IntK? {
      SignedRoundTrip(v.n, size);
      Varint64RoundTrip(Unsigned(v.n), rest);
    } else if kind.UIntK? {
      assert Unsigned(v.n) == v.n by { Positive(v.n); }
      Varint64RoundTrip(v.n, rest);
    } else {
      ZigZagRoundTrip(v.n, size);
      Varint64RoundTrip(ZigZag(v.n), rest);
    }
  }

  lemma Positive(n: int)
    ensures n >= 0 ==> Unsigned(n) == n
  {
  }

  lemma FixedValueRoundTrip(n: nat, width: nat, rest: seq<Octet>)
    requires (width == 4 && n < LIMIT32) || (width == 8 && n < LIMIT64)
    ensures ReadFixed(width, Fixed(n, width) + rest) == Some((NumV(n), rest))
  {
    hide Fixed, Number;
    var bytes := Fixed(n, width) + rest;
    assert bytes[..width] == Fixed(n, width) && bytes[width..] == rest;
    FixedRoundTrips(n);
  }

  lemma StringRoundTrip(b: seq<Octet>, room: int, rest: seq<Octet>)
    requires |b| <= room && |b| < LIMIT32
    ensures ReadString(room, Varint(|b|) + b + rest) == Some((BytesV(b), rest))
  {
    hide Varint, Read32;
    Read32RoundTrip(|b|, b + rest);
    assert Varint(|b|) + b + rest == Varint(|b|) + (b + rest);
    assert (b + rest)[..|b|] == b && (b + rest)[|b|..] == rest;
  }

  /** A value that is not a message is read back. */
  lemma ScalarRoundTrip(kind: Kind, v: Value, rest: seq<Octet>)
    requires !kind.MessageK? && GoodValue(kind, v) && |ValueBytes(kind, v)| < LIMIT32
    ensures ReadScalar(kind, ValueBytes(kind, v) + rest) == Some((v, rest))
  {
    hide Varint, Read32, Fixed, Unsigned, ReadInt, ReadFixed, ReadString;
    match kind
    case BoolK => Read32RoundTrip(if v.b then 1 else 0, rest);
    case IntK(size) => IntRoundTrip(kind, size, v, rest);
    case UIntK(size) => IntRoundTrip(kind, size, v, rest);
    case SIntK(size) => IntRoundTrip(kind, size, v, rest);
    case Fixed32K => Positive(v.n); FixedValueRoundTrip(v.n, 4, rest);
    case Fixed64K => Positive(v.n); FixedValueRoundTrip(v.n, 8, rest);
    case BytesK(max) => StringRoundTrip(v.bytes, max, rest);
    case StringK(size) => StringRoundTrip(v.bytes, size - 1, rest);
  }

  lemma ScalarShrinks(kind: Kind, bytes: seq<Octet>)
    ensures ReadScalar(kind, bytes).Some? ==> |ReadScalar(kind, bytes).value.1| < |bytes|
  {
    hide Read32, ReadVarint64, Number, Signed, UnZigZag;
    Read32Shrinks(bytes);
    PrefixedShrinks(bytes);
  }

  // ---------------------------------------------------------------------------------------------------------
  // Messages
  // ---------------------------------------------------------------------------------------------------------

  function DefaultValue(kind: Kind): Value {
    match kind
    case BoolK => BoolV(false)
    case BytesK(_) => BytesV([])
    case StringK(_) => BytesV([])
    case MessageK(fields) => MessageV(seq(|fields|, i requires 0 <= i < |fields| => DefaultSlot(fields[i])))
    case _ => NumV(0)
  }

  function DefaultSlot(f: Field): Slot {
    if f.rule.Required? then Slot([DefaultValue(f.kind)]) else Slot([])
  }

  function Defaults(fields: seq<Field>): (r: seq<Slot>)
    ensures |r| == |fields|
  {
    seq(|fields|, i requires 0 <= i < |fields| => DefaultSlot(fields[i]))
  }

  /** pb_field_iter_find: the field with the tag, or the number of fields. */
  function Find(fields: seq<Field>, tag: nat, from: nat): (i: nat)
    requires from <= |fields|
    ensures from <= i <= |fields| && (i < |fields| ==> fields[i].tag == tag)
    ensures forall j :: from <= j < i ==> fields[j].tag != tag
    decreases |fields| - from
  {
    if from == |fields| || fields[from].tag == tag then from else Find(fields, tag, from + 1)
  }

  function SkipVarint(bytes: seq<Octet>): Option<seq<Octet>> {
    if bytes == [] then None else if bytes[0] < 128 then Some(bytes[1..]) else SkipVarint(bytes[1..])
  }

  function Skip(wire: nat, bytes: seq<Octet>): Option<seq<Octet>> {
    if wire == WT_VARINT then SkipVarint(bytes)
    else if wire == WT_64BIT then (if |bytes| < 8 then None else Some(bytes[8..]))
    else if wire == WT_32BIT then (if |bytes| < 4 then None else Some(bytes[4..]))
    else if wire == WT_STRING then
      match Substream(bytes)
      case None => None
      case Some(p) => Some(p.1)
    else None
  }

  lemma {:induction false} SkipVarintShrinks(bytes: seq<Octet>)
    ensures SkipVarint(bytes).Some? ==> |SkipVarint(bytes).value| < |bytes|
  {
    if bytes != [] {
      SkipVarintShrinks(bytes[1..]);
    }
  }

  lemma SkipShrinks(wire: nat, bytes: seq<Octet>)
    ensures Skip(wire, bytes).Some? ==> |Skip(wire, bytes).value| <= |bytes|
  {
    hide Substream;
    SkipVarintShrinks(bytes);
    SubstreamShrinks(bytes);
  }

  /** A length-delimited part of the stream, and what follows it. */
  function Substream(bytes: seq<Octet>): Option<(seq<Octet>, seq<Octet>)> {
    match Read32(bytes)
    case None => None
    case Some(p) => if |p.1| < p.0 then None else Some((p.1[..p.0], p.1[p.0..]))
  }

  lemma SubstreamShrinks(bytes: seq<Octet>)
    ensures Substream(bytes).Some? ==> |Substream(bytes).value.0| < |bytes| && |Substream(bytes).value.1| < |bytes|
  {
    hide Read32;
    Read32Shrinks(bytes);
  }

  /** Where a submessage is decoded into: what is there already, or a fresh one. */
  function Base(kind: Kind, values: seq<Value>): (r: seq<Slot>)
    requires kind.MessageK?
    ensures |r| == |kind.fields|
  {
    if values != [] && values[0].MessageV? && |values[0].slots| == |kind.fields| then values[0].slots
      else Defaults(kind.fields)
  }

  function ReadValue(kind: Kind, there: seq<Value>, bytes: seq<Octet>): (r: Option<(Value, seq<Octet>)>)
    ensures r.Some? ==> |r.value.1| < |bytes|
    decreases |bytes|, 0
  {
    if kind.MessageK? then
      SubstreamShrinks(bytes);
      match Substream(bytes)
      case None => None
      case Some(p) =>
        match ReadMessage(kind.fields, Base(kind, there), p.0)
        case None => None
        case Some(m) => Some((MessageV(m.0), p.1))
    else
      ScalarShrinks(kind, bytes);
      ReadScalar(kind, bytes)
  }

  /** Packed values until the array is full; nothing may be left then. */
  function ReadPacked(kind: Kind, max: nat, values: seq<Value>, bytes: seq<Octet>): Option<seq<Value>>
    decreases |bytes|
  {
    if bytes == [] then Some(values)
    else if |values| >= max then None
    else
      ScalarShrinks(kind, bytes);
      match ReadScalar(kind, bytes)
      case None => None
      case Some(p) => ReadPacked(kind, max, values + [p.0], p.1)
  }

  /** Only one member of a union keeps its value. */
  function OnlyMember(fields: seq<Field>, dest: seq<Slot>, i: nat): (r: seq<Slot>)
    requires |dest| == |fields| && i < |fields|
    ensures |r| == |fields|
  {
    seq(|fields|, j requires 0 <= j < |fields| =>
      if j != i && fields[j].rule.Oneof? && fields[j].rule == fields[i].rule then Slot([]) else dest[j])
  }

  function ReadField(fields: seq<Field>, i: nat, wire: nat, dest: seq<Slot>,
                     bytes: seq<Octet>): (r: Option<(seq<Slot>, seq<Octet>)>)
    requires |dest| == |fields| && i < |fields|
    ensures r.Some? ==> |r.value.1| < |bytes| && |r.value.0| == |fields|
    decreases |bytes|, 1
  {
    var f, values := fields[i], dest[i].values;
    if f.rule.Repeated? && wire == WT_STRING && Packable(f.kind) then
      SubstreamShrinks(bytes);
      match Substream(bytes)
      case None => None
      case Some(p) =>
        match ReadPacked(f.kind, f.rule.max, values, p.0)
        case None => None
        case Some(values') => Some((dest[i := Slot(values')], p.1))
    else if f.rule.Repeated? then
      if |values| >= f.rule.max then None
      else
        match ReadValue(f.kind, [], bytes)
        case None => None
        case Some(p) => Some((dest[i := Slot(values + [p.0])], p.1))
    else
      match ReadValue(f.kind, values, bytes)
      case None => None
      case Some(p) => Some((OnlyMember(fields, dest, i)[i := Slot([p.0])], p.1))
  }

  /** Fields until the stream ends or a zero tag comes: the message, the fields met, and what is left of the stream. */
  function ReadFields(fields: seq<Field>, dest: seq<Slot>, seen: set<nat>,
                      bytes: seq<Octet>): (r: Option<(seq<Slot>, set<nat>, seq<Octet>)>)
    requires |dest| == |fields|
    ensures r.Some? ==> |r.value.0| == |fields|
    decreases |bytes|, 2
  {
    if bytes == [] then Some((dest, seen, bytes))
    else
      Read32Shrinks(bytes);
      match Read32(bytes)
      case None => None
      case Some(t) =>
        if t.0 == 0 then Some((dest, seen, t.1))
        else
          var i := Find(fields, t.0 / 8, 0);
          if i == |fields| then
            SkipShrinks(t.0 % 8, t.1);
            match Skip(t.0 % 8, t.1)
            case None => None
            case Some(rest) => ReadFields(fields, dest, seen, rest)
          else
            match ReadField(fields, i, t.0 % 8, dest, t.1)
            case None => None
            case Some(p) => ReadFields(fields, p.0, seen + {i}, p.1)
  }

  function RequiredBefore(fields: seq<Field>, i: nat): nat
    requires i <= |fields|
  {
    if i == 0 then 0 else RequiredBefore(fields, i - 1) + (if fields[i - 1].rule.Required? then 1 else 0)
  }

  /** The first 64 required fields must have been met. */
  predicate AllRequired(fields: seq<Field>, seen: set<nat>) {
    forall i :: 0 <= i < |fields| && fields[i].rule.Required? && RequiredBefore(fields, i) < MAX_REQUIRED_FIELDS ==>
      i in seen
  }

  /** pb_decode_noinit. */
  function ReadMessage(fields: seq<Field>, dest: seq<Slot>, bytes: seq<Octet>): (r: Option<(seq<Slot>, seq<Octet>)>)
    requires |dest| == |fields|
    ensures r.Some? ==> |r.value.0| == |fields|
    decreases |bytes|, 3
  {
    match ReadFields(fields, dest, {}, bytes)
    case None => None
    case Some(p) => if AllRequired(fields, p.1) then Some((p.0, p.2)) else None
  }
}
