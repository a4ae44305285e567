/** The decoder on its input streams (nanopb: pb_decode.c), against the reading functions. */
module ProtoDecoder {
  import opened Views
  import opened Coding
  import opened ProtoMessages
  import opened ProtoDecoding
  import opened ProtoEncoder
  import opened ProtoRoundTrip

  /** What is left to read. */
  class IStream {
    var left: seq<Octet>

    constructor (bytes: seq<Octet>)
      ensures left == bytes
    {
      left := bytes;
    }
  }

  method DecodeVarint32(s: IStream) returns (ok: bool, value: nat)
    modifies s
    ensures ok == Read32(old(s.left)).Some? && (ok ==> (value, s.left) == Read32(old(s.left)).value)
  {
    hide Weighted;
    value := 0;
    if s.left == [] {
      return false, 0;
    }
    var byte := s.left[0];
    s.left := s.left[1..];
    if byte < 128 {
      return true, byte;
    }
    var bitpos := 7;
    value := byte % 128;
    while true
      modifies s
      invariant Read32(old(s.left)) == Read32More(s.left, bitpos, value)
      decreases |s.left|
    {
      if s.left == [] {
        return false, 0;
      }
      byte := s.left[0];
      s.left := s.left[1..];
      if bitpos >= 32 {
        var sign := if bitpos < 63 then 0xff else 0x01;
        if byte % 128 != 0 && (value < 0x8000_0000 || byte != sign) {
          return false, 0;
        }
      } else {
        value := (value + Weighted(byte, bitpos)) % LIMIT32;
      }
      bitpos := bitpos + 7;
      if byte < 128 {
        break;
      }
    }
    if bitpos == 35 && (byte / 16) % 8 != 0 {
      return false, 0;
    }
    ok := true;
  }

  /** pb_decode_varint: up to ten bytes. */
  method DecodeVarint(s: IStream) returns (ok: bool, value: nat)
    modifies s
    ensures ok == ReadVarint64(old(s.left)).Some? && (ok ==> (value, s.left) == ReadVarint64(old(s.left)).value)
  {
    var r := GetVarint64(s.left);
    if r == None {
      return false, 0;
    }
    s.left := r.value.1;
    return true, r.value.0;
  }

  method ReadRaw(s: IStream, n: nat) returns (ok: bool, bytes: seq<Octet>)
    modifies s
    ensures ok == (n <= |old(s.left)|) && (ok ==> bytes == old(s.left)[..n] && s.left == old(s.left)[n..])
  {
    if |s.left| < n {
      return false, [];
    }
    bytes := s.left[..n];
    s.left := s.left[n..];
    ok := true;
  }

  method DecodeString(s: IStream, room: int) returns (ok: bool, v: Value)
    modifies s
    ensures ok == ReadString(room, old(s.left)).Some? && (ok ==> (v, s.left) == ReadString(room, old(s.left)).value)
  {
    hide Read32;
    v := BytesV([]);
    var size;
    ok, size := DecodeVarint32(s);
    if !ok || size > room {
      return false, v;
    }
    var bytes;
    ok, bytes := ReadRaw(s, size);
    v := BytesV(bytes);
  }

  method DecodeInt(s: IStream, kind: Kind, size: nat) returns (ok: bool, v: Value)
    modifies s
    ensures ok == ReadInt(kind, size, old(s.left)).Some?
      && (ok ==> (v, s.left) == ReadInt(kind, size, old(s.left)).value)
  {
    hide ReadVarint64, Signed, UnZigZag;
    var value;
    ok, value := DecodeVarint(s);
    if !ok || !IntSize(size) {
      return false, NumV(0);
    }
    var n := if kind.UIntK? then value else if kind.SIntK? then UnZigZag(value)
      else Signed(value, if size == 8 then Half(8) else Half(4));
    var low, limit := if kind.UIntK? then 0 else -Half(size), if kind.UIntK? then 2 * Half(size) else Half(size);
    v := NumV(n);
    ok := low <= n < limit;
  }

  method DecodeScalar(s: IStream, kind: Kind) returns (ok: bool, v: Value)
    modifies s
    ensures ok == ReadScalar(kind, old(s.left)).Some? && (ok ==> (v, s.left) == ReadScalar(kind, old(s.left)).value)
  {
    hide Read32, ReadInt, ReadString, Number;
    v := NumV(0);
    match kind
    case BoolK =>
      var n;
      ok, n := DecodeVarint32(s);
      v := BoolV(n != 0);
    case IntK(size) => ok, v := DecodeInt(s, kind, size);
    case UIntK(size) => ok, v := DecodeInt(s, kind, size);
    case SIntK(size) => ok, v := DecodeInt(s, kind, size);
    case Fixed32K =>
      var bytes;
      ok, bytes := ReadRaw(s, 4);
      v := NumV(Number(bytes));
    case Fixed64K =>
      var bytes;
      ok, bytes := ReadRaw(s, 8);
      v := NumV(Number(bytes));
    case BytesK(max) => ok, v := DecodeString(s, max);
    case StringK(size) => ok, v := DecodeString(s, size - 1);
    case MessageK(_) => ok := false;
  }

  /** A stream limited to a length-delimited part; the parent goes on behind it. */
  method MakeSubstream(s: IStream) returns (ok: bool, sub: IStream)
    modifies s
    ensures fresh(sub)
    ensures ok == Substream(old(s.left)).Some? && (ok ==> (sub.left, s.left) == Substream(old(s.left)).value)
  {
    hide Read32;
    var size;
    ok, size := DecodeVarint32(s);
    if !ok || |s.left| < size {
      sub := new IStream([]);
      return false, sub;
    }
    sub := new IStream(s.left[..size]);
    s.left := s.left[size..];
  }

  method SkipField(s: IStream, wire: nat) returns (ok: bool)
    modifies s
    ensures ok == Skip(wire, old(s.left)).Some? && (ok ==> s.left == Skip(wire, old(s.left)).value)
  {
    hide Substream;
    if wire == WT_VARINT {
      while true
        modifies s
        invariant SkipVarint(old(s.left)) == SkipVarint(s.left)
        decreases |s.left|
      {
        if s.left == [] {
          return false;
        }
        var byte := s.left[0];
        if byte < 128 {
          s.left := s.left[1..];
          return true;
        }
        s.left := s.left[1..];
      }
    } else if wire == WT_64BIT {
      var bytes;
      ok, bytes := ReadRaw(s, 8);
    } else if wire == WT_STRING {
      var sub;
      ok, sub := MakeSubstream(s);
    } else if wire == WT_32BIT {
      var bytes;
      ok, bytes := ReadRaw(s, 4);
    } else {
      ok := false;
    }
  }

  method DecodeValue(s: IStream, kind: Kind, there: seq<Value>) returns (ok: bool, v: Value)
    modifies s
    ensures ok == ReadValue(kind, there, old(s.left)).Some?
      && (ok ==> (v, s.left) == ReadValue(kind, there, old(s.left)).value)
    decreases |s.left|, 0
  {
    hide ReadScalar, Substream, ReadMessage;
    if !kind.MessageK? {
      ok, v := DecodeScalar(s, kind);
      return;
    }
    v := BoolV(false);
    SubstreamShrinks(s.left);
    var sub;
    ok, sub := MakeSubstream(s);
    if !ok {
      return false, v;
    }
    var slots;
    ok, slots := DecodeNoInit(sub, kind.fields, Base(kind, there));
    v := MessageV(slots);
  }

  method DecodePacked(sub: IStream, kind: Kind, max: nat, start: seq<Value>) returns (ok: bool, values: seq<Value>)
    modifies sub
    ensures ok == ReadPacked(kind, max, start, old(sub.left)).Some?
      && (ok ==> values == ReadPacked(kind, max, start, old(sub.left)).value)
  {
    hide ReadScalar;
    values := start;
    while sub.left != [] && |values| < max
      modifies sub
      invariant ReadPacked(kind, max, start, old(sub.left)) == ReadPacked(kind, max, values, sub.left)
      decreases |sub.left|
    {
      ScalarShrinks(kind, sub.left);
      var v;
      ok, v := DecodeScalar(sub, kind);
      if !ok {
        return false, values;
      }
      values := values + [v];
    }
    ok := sub.left == [];
  }

  /** decode_static_field. */
  method DecodeField(s: IStream, fields: seq<Field>, i: nat, wire: nat, dest: seq<Slot>)
    returns (ok: bool, r: seq<Slot>)
    requires |dest| == |fields| && i < |fields|
    modifies s
    ensures ok == ReadField(fields, i, wire, dest, old(s.left)).Some? && |r| == |fields|
    ensures ok ==> (r, s.left) == ReadField(fields, i, wire, dest, old(s.left)).value
    decreases |s.left|, 1
  {
    hide ReadValue, ReadPacked, Substream;
    var f, values := fields[i], dest[i].values;
    r := dest;
    if f.rule.Repeated? && wire == WT_STRING && Packable(f.kind) {
      var sub;
      ok, sub := MakeSubstream(s);
      if !ok {
        return false, r;
      }
      ok, values := DecodePacked(sub, f.kind, f.rule.max, values);
      r := dest[i := Slot(values)];
    } else if f.rule.Repeated? {
      if |values| >= f.rule.max {
        return false, r;
      }
      var v;
      ok, v := DecodeValue(s, f.kind, []);
      r := dest[i := Slot(values + [v])];
    } else {
      var v;
      ok, v := DecodeValue(s, f.kind, values);
      r := OnlyMember(fields, dest, i)[i := Slot([v])];
    }
  }

  /** The loop over the fields of a message, and the check of the required ones. */
  method DecodeNoInit(s: IStream, fields: seq<Field>, start: seq<Slot>) returns (ok: bool, dest: seq<Slot>)
    requires |start| == |fields|
    modifies s
    ensures ok == ReadMessage(fields, start, old(s.left)).Some?
      && (ok ==> (dest, s.left) == ReadMessage(fields, start, old(s.left)).value)
    decreases |s.left|, 3
  {
    hide ReadField, Read32, Skip, AllRequired, Find;
    dest := start;
    var seen: set<nat> := {};
    while s.left != []
      modifies s
      invariant |dest| == |fields| && |s.left| <= |old(s.left)|
      invariant ReadFields(fields, start, {}, old(s.left)) == ReadFields(fields, dest, seen, s.left)
      decreases |s.left|
    {
      Read32Shrinks(s.left);
      var t;
      ok, t := DecodeVarint32(s);
      if !ok {
        return false, dest;
      }
      if t == 0 {
        break;
      }
      var i := Find(fields, t / 8, 0);
      if i == |fields| {
        SkipShrinks(t % 8, s.left);
        ok := SkipField(s, t % 8);
        if !ok {
          return false, dest;
        }
      } else {
        ok, dest := DecodeField(s, fields, i, t % 8, dest);
        if !ok {
          return false, dest;
        }
        seen := seen + {i};
      }
    }
    ok := AllRequired(fields, seen);
  }

  /** pb_decode: into a destination set to its defaults. */
  method Decode(s: IStream, fields: seq<Field>) returns (ok: bool, dest: seq<Slot>)
    modifies s
    ensures ok == ReadMessage(fields, Defaults(fields), old(s.left)).Some?
    ensures ok ==> (dest, s.left) == ReadMessage(fields, Defaults(fields), old(s.left)).value
  {
    hide ReadMessage, Defaults;
    ok, dest := DecodeNoInit(s, fields, Defaults(fields));
  }

  // ---------------------------------------------------------------------------------------------------------
  // Both ways
  // ---------------------------------------------------------------------------------------------------------

  /** A well-formed value is one that the encoder takes. */
  lemma {:induction false} GoodIsAllowed(kind: Kind, v: Value)
    requires GoodValue(kind, v)
    ensures Typed(kind, v) && Allowed(kind, v)
    decreases v, 3
  {
    if kind.MessageK? {
      GoodMessageAllowed(kind.fields, v);
    }
  }

  lemma {:induction false} GoodMessageAllowed(fields: seq<Field>, v: Value)
    requires v.MessageV? && GoodMessage(fields, v)
    ensures TypedMessage(fields, v) && AllowedFrom(fields, v, 0)
    decreases v, 2
  {
    hide GoodValue, Typed, Allowed, GoodUnions;
    forall i, j | 0 <= i < |fields| && 0 <= j < |v.slots[i].values|
      ensures Typed(fields[i].kind, v.slots[i].values[j]) && Allowed(fields[i].kind, v.slots[i].values[j])
    {
      GoodIsAllowed(fields[i].kind, v.slots[i].values[j]);
    }
    assert forall i :: 0 <= i < |fields| ==> GoodCount(fields[i].rule, |v.slots[i].values|);
    FieldsAllowed(fields, v, 0);
  }

  lemma {:induction false} FieldsAllowed(fields: seq<Field>, v: Value, k: nat)
    requires v.MessageV? && |v.slots| == |fields| && k <= |fields|
    requires forall i :: 0 <= i < |fields| ==> GoodCount(fields[i].rule, |v.slots[i].values|)
    requires forall i, j :: 0 <= i < |fields| && 0 <= j < |v.slots[i].values| ==>
      Allowed(fields[i].kind, v.slots[i].values[j])
    ensures AllowedFrom(fields, v, k)
    decreases |fields| - k
  {
    hide Allowed;
    if k < |fields| {
      ValuesAllowed(fields[k], v, k, 0);
      FieldsAllowed(fields, v, k + 1);
      assert GoodCount(fields[k].rule, |v.slots[k].values|);
    }
  }

  lemma {:induction false} ValuesAllowed(f: Field, v: Value, i: nat, n: nat)
    requires v.MessageV? && i < |v.slots| && n <= |v.slots[i].values|
    requires forall j :: 0 <= j < |v.slots[i].values| ==> Allowed(f.kind, v.slots[i].values[j])
    ensures AllowedValues(f, v, i, n)
    decreases |v.slots[i].values| - n
  {
    hide Allowed;
    if n < |v.slots[i].values| {
      ValuesAllowed(f, v, i, n + 1);
    }
  }

  /**
   * For every well-formed message: the sizing pass gives the number of bytes, a buffer of at least that many takes
   * them, and decoding them succeeds, consumes all of them and restores the message.
   */
  method EncodeAndDecode(fields: seq<Field>, v: Value, bufferSize: nat)
    returns (size: nat, ok: bool, dest: seq<Slot>, left: seq<Octet>)
    requires v.MessageV? && GoodTags(fields) && (forall i :: 0 <= i < |fields| ==> GoodKind(fields[i].kind))
      && GoodMessage(fields, v)
    requires |MessageBytes(fields, v, 0)| < LIMIT32
    ensures size == |MessageBytes(fields, v, 0)| && ok == (size <= bufferSize)
    ensures ok ==> dest == v.slots && left == []
  {
    GoodMessageAllowed(fields, v);
    hide GoodTags, GoodKind, GoodMessage, TypedMessage, AllowedFrom, MessageBytes, ReadMessage;
    var counter := new OStream(true, 0);
    ok := EncodeMessage(counter, fields, v);
    size := counter.written;
    var s := new OStream(false, bufferSize);
    ok := EncodeMessage(s, fields, v);
    dest, left := [], [];
    if ok {
      assert s.out == MessageBytes(fields, v, 0);
      MessageRoundTrip(fields, v);
      var input := new IStream(s.out);
      ok, dest := Decode(input, fields);
      left := input.left;
    }
  }
}
