/** Messages as trees over field descriptors, and their encoding (nanopb: pb_encode.c, pb_common.c), following "Base 128
    Varints" and "Length-Delimited Records" of the Protocol Buffers encoding specification. */
module ProtoMessages {
  import opened Coding

  /** How a value is stored; sizes are those of the C fields, in bytes. */
  datatype Kind =
    | BoolK
    | IntK(size: nat)
    | UIntK(size: nat)
    | SIntK(size: nat)
    | Fixed32K
    | Fixed64K
    | BytesK(max: nat)
    | StringK(size: nat)
    | MessageK(fields: seq<Field>)

  datatype Rule = Required | Optional | Repeated(max: nat) | Oneof(union: nat)

  datatype Field = Field(tag: nat, rule: Rule, kind: Kind)

  datatype Value =
    | BoolV(b: bool)
    | NumV(n: int)
    | BytesV(bytes: seq<Octet>)
    | MessageV(slots: seq<Slot>)

  /** The content of a field: one value if it is required, one or none if it is optional or in a union, any number up to
      the size of the array if it is repeated. */
  datatype Slot = Slot(values: seq<Value>)

  const WT_VARINT: nat := 0
  const WT_64BIT: nat := 1
  const WT_STRING: nat := 2
  const WT_32BIT: nat := 5

  function WireType(kind: Kind): nat {
    match kind
    case BoolK => WT_VARINT
    case IntK(_) => WT_VARINT
    case UIntK(_) => WT_VARINT
    case SIntK(_) => WT_VARINT
    case Fixed32K => WT_32BIT
    case Fixed64K => WT_64BIT
    case BytesK(_) => WT_STRING
    case StringK(_) => WT_STRING
    case MessageK(_) => WT_STRING
  }

  predicate Packable(kind: Kind) {
    !kind.BytesK? && !kind.StringK? && !kind.MessageK?
  }

  // ---------------------------------------------------------------------------------------------------------
  // Well-formed messages
  // ---------------------------------------------------------------------------------------------------------

  predicate IntSize(size: nat) {
    size == 1 || size == 2 || size == 4 || size == 8
  }

  /** Half the range of an integer of this many bytes. */
  function Half(size: nat): int {
    if size == 1 then 0x80 else if size == 2 then 0x8000 else if size == 4 then 0x8000_0000 else 0x8000_0000_0000_0000
  }

  ghost predicate NoZero(bytes: seq<Octet>) {
    forall i :: 0 <= i < |bytes| ==> bytes[i] != 0
  }

  ghost predicate GoodValue(kind: Kind, v: Value)
    decreases v, 1
  {
    match kind
    case BoolK => v.BoolV?
    case IntK(size) => v.NumV? && IntSize(size) && -Half(size) <= v.n < Half(size)
    case UIntK(size) => v.NumV? && IntSize(size) && 0 <= v.n < 2 * Half(size)
    case SIntK(size) => v.NumV? && IntSize(size) && -Half(size) <= v.n < Half(size)
    case Fixed32K => v.NumV? && 0 <= v.n < LIMIT32
    case Fixed64K => v.NumV? && 0 <= v.n < LIMIT64
    case BytesK(max) => v.BytesV? && |v.bytes| <= max
    case StringK(size) => v.BytesV? && |v.bytes| < size && NoZero(v.bytes)
    case MessageK(fields) => v.MessageV? && GoodMessage(fields, v)
  }

  ghost predicate GoodCount(rule: Rule, n: nat) {
    match rule
    case Required => n == 1
    case Optional => n <= 1
    case Repeated(max) => n <= max
    case Oneof(_) => n <= 1
  }

  /** At most one member of a union is present. */
  ghost predicate GoodUnions(fields: seq<Field>, slots: seq<Slot>)
    requires |fields| == |slots|
  {
    forall i, j :: 0 <= i < j < |fields| && fields[i].rule.Oneof? && fields[j].rule == fields[i].rule
      ==> slots[i].values == [] || slots[j].values == []
  }

  ghost predicate GoodMessage(fields: seq<Field>, v: Value)
    requires v.MessageV?
    decreases v, 0
  {
    && |v.slots| == |fields|
    && (forall i :: 0 <= i < |fields| ==> GoodCount(fields[i].rule, |v.slots[i].values|))
    && (forall i, j :: 0 <= i < |fields| && 0 <= j < |v.slots[i].values| ==>
        GoodValue(fields[i].kind, v.slots[i].values[j]))
    && GoodUnions(fields, v.slots)
  }

  /** Tags are positive, fit the wire format, and identify their fields, at every depth. */
  ghost predicate GoodTags(fields: seq<Field>) {
    && (forall i :: 0 <= i < |fields| ==> 0 < fields[i].tag < 0x2000_0000)
    && (forall i, j :: 0 <= i < j < |fields| ==> fields[i].tag != fields[j].tag)
  }

  ghost predicate GoodKind(kind: Kind) {
    kind.MessageK? ==> GoodTags(kind.fields) && forall i :: 0 <= i < |kind.fields| ==> GoodKind(kind.fields[i].kind)
  }

  // ---------------------------------------------------------------------------------------------------------
  // Encoding
  // ---------------------------------------------------------------------------------------------------------

  /** The number that is written as a varint. */
  function Unsigned(n: int): nat {
    if n < 0 then (n + LIMIT64) % LIMIT64 else n
  }

  function ZigZag(n: int): nat {
    if n < 0 then -2 * n - 1 else 2 * n
  }

  function ValueBytes(kind: Kind, v: Value): seq<Octet>
    decreases v, 3
  {
    match kind
    case BoolK => if v.BoolV? && v.b then Varint(1) else Varint(0)
    case IntK(_) => if v.NumV? then Varint(Unsigned(v.n)) else []
    case UIntK(_) => if v.NumV? then Varint(Unsigned(v.n)) else []
    case SIntK(_) => if v.NumV? then Varint(ZigZag(v.n)) else []
    case Fixed32K => if v.NumV? then Fixed(Unsigned(v.n), 4) else []
    case Fixed64K => if v.NumV? then Fixed(Unsigned(v.n), 8) else []
    case BytesK(_) => if v.BytesV? then Varint(|v.bytes|) + v.bytes else []
    case StringK(_) => if v.BytesV? then Varint(|v.bytes|) + v.bytes else []
    case MessageK(fields) =>
      if v.MessageV? && |v.slots| == |fields| then
        var body := MessageBytes(fields, v, 0);
        Varint(|body|) + body
      else []
  }

  function TagBytes(tag: nat, wire: nat): seq<Octet> {
    Varint(8 * tag + wire)
  }

  /** The values from `n` on, each after a tag or, packed, without. */
  function ValuesBytes(f: Field, packed: bool, v: Value, i: nat, n: nat): seq<Octet>
    requires v.MessageV? && i < |v.slots| && n <= |v.slots[i].values|
    decreases v, 0, |v.slots[i].values| - n
  {
    if n == |v.slots[i].values| then [] else
      (if packed then [] else TagBytes(f.tag, WireType(f.kind)))
      + (ValueBytes(f.kind, v.slots[i].values[n]) + ValuesBytes(f, packed, v, i, n + 1))
  }

  function SlotBytes(f: Field, v: Value, i: nat): seq<Octet>
    requires v.MessageV? && i < |v.slots|
    decreases v, 1
  {
    if f.rule.Repeated? && Packable(f.kind) then
      if v.slots[i].values == [] then [] else
        var body := ValuesBytes(f, true, v, i, 0);
        TagBytes(f.tag, WT_STRING) + (Varint(|body|) + body)
    else ValuesBytes(f, false, v, i, 0)
  }

  /** The fields from `k` on, in the order of their descriptors. */
  function MessageBytes(fields: seq<Field>, v: Value, k: nat): seq<Octet>
    requires v.MessageV? && |v.slots| == |fields| && k <= |fields|
    decreases v, 2, |fields| - k
  {
    if k == |fields| then [] else SlotBytes(fields[k], v, k) + MessageBytes(fields, v, k + 1)
  }
}
