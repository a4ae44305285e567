/** The encoder on its output streams, with the sizing pass before each submessage (nanopb: pb_encode.c). */
module ProtoEncoder {
  import opened Coding
  import opened ProtoMessages

  // ---------------------------------------------------------------------------------------------------------
  // What the C types guarantee, and what the encoder checks
  // ---------------------------------------------------------------------------------------------------------

  /** The value has the shape of its C field; a string is what its array holds before the first zero byte. */
  ghost predicate Typed(kind: Kind, v: Value)
    decreases v, 1
  {
    match kind
    case BoolK => v.BoolV?
    case IntK(size) => v.NumV? && (IntSize(size) ==> -Half(size) <= v.n < Half(size))
    case UIntK(size) => v.NumV? && v.n >= 0
    case SIntK(size) => v.NumV? && (IntSize(size) ==> -Half(size) <= v.n < Half(size))
    case Fixed32K => v.NumV? && v.n >= 0
    case Fixed64K => v.NumV? && v.n >= 0
    case BytesK(_) => v.BytesV?
    case StringK(size) => v.BytesV? && |v.bytes| <= size && NoZero(v.bytes)
    case MessageK(fields) => v.MessageV? && TypedMessage(fields, v)
  }

  ghost predicate TypedMessage(fields: seq<Field>, v: Value)
    requires v.MessageV?
    decreases v, 0
  {
    && |v.slots| == |fields|
    && (forall i :: 0 <= i < |fields| && !fields[i].rule.Repeated? ==> |v.slots[i].values| <= 1)
    && (forall i :: 0 <= i < |fields| && fields[i].rule.Required? ==> |v.slots[i].values| == 1)
    && (forall i, j :: 0 <= i < |fields| && 0 <= j < |v.slots[i].values| ==>
        Typed(fields[i].kind, v.slots[i].values[j]))
  }

  /** Integers have a known size, byte strings and arrays are not larger than their room. */
  predicate Allowed(kind: Kind, v: Value)
    decreases v, 3
  {
    match kind
    case IntK(size) => IntSize(size)
    case UIntK(size) => IntSize(size)
    case SIntK(size) => IntSize(size)
    case BytesK(max) => v.BytesV? && |v.bytes| <= max
    case MessageK(fields) => v.MessageV? && |v.slots| == |fields| && AllowedFrom(fields, v, 0)
    case _ => true
  }

  predicate AllowedValues(f: Field, v: Value, i: nat, n: nat)
    requires v.MessageV? && i < |v.slots| && n <= |v.slots[i].values|
    decreases v, 0, |v.slots[i].values| - n
  {
    n < |v.slots[i].values| ==> Allowed(f.kind, v.slots[i].values[n]) && AllowedValues(f, v, i, n + 1)
  }

  predicate AllowedSlot(f: Field, v: Value, i: nat)
    requires v.MessageV? && i < |v.slots|
    decreases v, 1
  {
    (f.rule.Repeated? ==> |v.slots[i].values| <= f.rule.max) && AllowedValues(f, v, i, 0)
  }

  predicate AllowedFrom(fields: seq<Field>, v: Value, k: nat)
    requires v.MessageV? && |v.slots| == |fields| && k <= |fields|
    decreases v, 2, |fields| - k
  {
    k < |fields| ==> AllowedSlot(fields[k], v, k) && AllowedFrom(fields, v, k + 1)
  }

  // ---------------------------------------------------------------------------------------------------------
  // Streams
  // ---------------------------------------------------------------------------------------------------------

  /** A stream that only counts, or one that writes up to a limit. */
  class OStream {
    const sizing: bool
    const maxSize: nat
    var written: nat
    var out: seq<Octet>

    ghost predicate Valid()
      reads this
    {
      sizing || written <= maxSize
    }

    constructor (sizing: bool, maxSize: nat)
      ensures Valid() && this.sizing == sizing && this.maxSize == maxSize && written == 0 && out == []
    {
      this.sizing, this.maxSize, written, out := sizing, maxSize, 0, [];
    }

    /** There is room for this many bytes more. */
    ghost predicate Room(n: nat)
      reads this
    {
      sizing || written + n <= maxSize
    }

    method Write(buf: seq<Octet>) returns (ok: bool)
      requires Valid()
      modifies this
      ensures Valid() && ok == old(Room(|buf|))
      ensures ok ==> written == old(written) + |buf| && out == old(out) + (if sizing then [] else buf)
      ensures !ok ==> written == old(written)
    {
      if |buf| > 0 && !sizing {
        if written + |buf| > maxSize {
          return false;
        }
        out := out + buf;
      }
      written := written + |buf|;
      return true;
    }

    /** Counting without data. */
    method Count(n: nat)
      requires sizing
      modifies this
      ensures Valid() && written == old(written) + n && out == old(out)
    {
      written := written + n;
    }
  }

  function AllHigh(n: nat): seq<Octet> {
    if n == 0 then [] else [n % 128 + 128] + AllHigh(n / 128)
  }

  lemma {:induction false} LastLow(n: nat)
    requires n > 0
    ensures AllHigh(n) != [] && AllHigh(n)[|AllHigh(n)| - 1] >= 128
    ensures Varint(n) == AllHigh(n)[|AllHigh(n)| - 1 := AllHigh(n)[|AllHigh(n)| - 1] - 128]
  {
    var a := AllHigh(n);
    if n < 128 {
      assert AllHigh(n / 128) == [];
      assert a == [n + 128];
    } else {
      LastLow(n / 128);
      var b := AllHigh(n / 128);
      assert a == [n % 128 + 128] + b;
    }
  }

  /** Seven bits at a time, then the top bit of the last byte is cleared. */
  method EncodeVarint(s: OStream, value: nat) returns (ok: bool)
    requires s.Valid()
    modifies s
    ensures s.Valid() && ok == old(s.Room(|Varint(value)|))
    ensures ok ==>
      s.written == old(s.written) + |Varint(value)| && s.out == old(s.out) + (if s.sizing then [] else Varint(value))
  {
    if value <= 0x7f {
      ok := s.Write([value]);
      return;
    }
    var v, buffer := value, [];
    while v != 0
      invariant AllHigh(value) == buffer + AllHigh(v)
    {
      buffer := buffer + [v % 128 + 128];
      v := v / 128;
    }
    assert buffer == AllHigh(value);
    LastLow(value);
    buffer := buffer[|buffer| - 1 := buffer[|buffer| - 1] - 128];
    ok := s.Write(buffer);
  }

  /** A varint and then some bytes. */
  method EncodeString(s: OStream, b: seq<Octet>) returns (ok: bool)
    requires s.Valid()
    modifies s
    ensures s.Valid() && ok == old(s.Room(|Varint(|b|) + b|))
    ensures ok ==>
      s.written == old(s.written) + |Varint(|b|) + b|
      && s.out == old(s.out) + (if s.sizing then [] else Varint(|b|) + b)
  {
    hide Varint;
    ok := EncodeVarint(s, |b|);
    if ok {
      ok := s.Write(b);
    }
  }

  method EncodeScalar(s: OStream, kind: Kind, v: Value) returns (ok: bool)
    requires Typed(kind, v) && !kind.MessageK?
    requires s.Valid()
    modifies s
    ensures s.Valid() && ok == (Allowed(kind, v) && old(s.Room(|ValueBytes(kind, v)|)))
    ensures ok ==>
      s.written == old(s.written) + |ValueBytes(kind, v)|
      && s.out == old(s.out) + (if s.sizing then [] else ValueBytes(kind, v))
  {
    hide Varint, Fixed, Unsigned, ZigZag;
    match kind
    case BoolK =>
      ok := EncodeVarint(s, if v.b then 1 else 0);
    case IntK(size) =>
      if !IntSize(size) {
        return false;
      }
      ok := EncodeVarint(s, Unsigned(v.n));
    case UIntK(size) =>
      if !IntSize(size) {
        return false;
      }
      ok := EncodeVarint(s, Unsigned(v.n));
    case SIntK(size) =>
      if !IntSize(size) {
        return false;
      }
      ok := EncodeVarint(s, ZigZag(v.n));
    case Fixed32K =>
      ok := s.Write(Fixed(Unsigned(v.n), 4));
    case Fixed64K =>
      ok := s.Write(Fixed(Unsigned(v.n), 8));
    case BytesK(max) =>
      if |v.bytes| > max {
        return false;
      }
      ok := EncodeString(s, v.bytes);
    case StringK(_) =>
      ok := EncodeString(s, v.bytes);
  }

  // ---------------------------------------------------------------------------------------------------------
  // Fields and messages
  // ---------------------------------------------------------------------------------------------------------

  /** All of `total` but `rest` has been sent since the stream had `w0` bytes written and `o0` out. */
  ghost predicate Sent(sizing: bool, w: nat, o: seq<Octet>, w0: nat, o0: seq<Octet>, total: seq<Octet>,
                       rest: seq<Octet>)
  {
    && |rest| <= |total| && total[|total| - |rest|..] == rest
    && w == w0 + |total| - |rest|
    && o == o0 + (if sizing then [] else total[..|total| - |rest|])
  }

  lemma NothingSent(sizing: bool, w: nat, o: seq<Octet>, total: seq<Octet>)
    ensures Sent(sizing, w, o, w, o, total, total)
  {
    assert total[0..] == total && total[..0] == [];
  }

  lemma AllSent(sizing: bool, w: nat, o: seq<Octet>, w0: nat, o0: seq<Octet>, total: seq<Octet>)
    requires Sent(sizing, w, o, w0, o0, total, [])
    ensures w == w0 + |total| && o == o0 + (if sizing then [] else total)
  {
    assert total[..|total|] == total;
  }

  lemma PieceSent(sizing: bool, w: nat, o: seq<Octet>, w0: nat, o0: seq<Octet>, total: seq<Octet>, rest: seq<Octet>,
                  piece: seq<Octet>, rest': seq<Octet>)
    requires Sent(sizing, w, o, w0, o0, total, rest) && rest == piece + rest'
    ensures Sent(sizing, w + |piece|, o + (if sizing then [] else piece), w0, o0, total, rest')
    ensures w + |piece| <= w0 + |total|
  {
    Pieces(total, rest, piece, rest');
    assert o0 + (total[..|total| - |rest|] + piece) == o0 + total[..|total| - |rest|] + piece;
  }

  lemma Pieces(total: seq<Octet>, rest: seq<Octet>, piece: seq<Octet>, rest': seq<Octet>)
    requires |rest| <= |total| && total[|total| - |rest|..] == rest && rest == piece + rest'
    ensures |rest'| <= |total| && total[|total| - |rest'|..] == rest'
    ensures total[..|total| - |rest'|] == total[..|total| - |rest|] + piece
  {
    var a, b := |total| - |rest|, |total| - |rest'|;
    assert total[b..] == rest[|piece|..];
    assert total[a..b] == rest[..|piece|];
  }

  method EncodeTag(s: OStream, tag: nat, wire: nat) returns (ok: bool)
    requires s.Valid()
    modifies s
    ensures s.Valid() && ok == old(s.Room(|TagBytes(tag, wire)|))
    ensures ok ==>
      s.written == old(s.written) + |TagBytes(tag, wire)|
      && s.out == old(s.out) + (if s.sizing then [] else TagBytes(tag, wire))
  {
    hide Varint;
    ok := EncodeVarint(s, 8 * tag + wire);
  }

  method EncodeValue(s: OStream, kind: Kind, v: Value) returns (ok: bool)
    requires Typed(kind, v)
    requires s.Valid()
    modifies s
    ensures s.Valid() && ok == (Allowed(kind, v) && old(s.Room(|ValueBytes(kind, v)|)))
    ensures ok ==>
      s.written == old(s.written) + |ValueBytes(kind, v)|
      && s.out == old(s.out) + (if s.sizing then [] else ValueBytes(kind, v))
    decreases v, 6
  {
    hide Varint, MessageBytes, AllowedFrom;
    if kind.MessageK? {
      ok := EncodeSubmessage(s, kind.fields, v);
    } else {
      ok := EncodeScalar(s, kind, v);
    }
  }

  /** The size is counted first, with the same encoder on a counting stream, and then the bytes are written: the count
      is exact at every depth, so that the check after writing never fails. */
  method EncodeSubmessage(s: OStream, fields: seq<Field>, v: Value) returns (ok: bool)
    requires v.MessageV? && TypedMessage(fields, v)
    requires s.Valid()
    modifies s
    ensures s.Valid()
    ensures var body := MessageBytes(fields, v, 0);
      && ok == (AllowedFrom(fields, v, 0) && old(s.Room(|Varint(|body|) + body|)))
      && (ok ==>
          s.written == old(s.written) + |Varint(|body|) + body|
          && s.out == old(s.out) + (if s.sizing then [] else Varint(|body|) + body))
    decreases v, 5
  {
    hide Varint, MessageBytes, AllowedFrom, Typed;
    ghost var body := MessageBytes(fields, v, 0);
    var counter := new OStream(true, 0);
    ok := EncodeMessage(counter, fields, v);
    if !ok {
      return false;
    }
    var size := counter.written;
    ok := EncodeVarint(s, size);
    if !ok {
      return false;
    }
    if s.sizing {
      s.Count(size);
      return true;
    }
    if s.written + size > s.maxSize {
      return false;
    }
    var sub := new OStream(false, size);
    ok := EncodeMessage(sub, fields, v);
    s.written := s.written + sub.written;
    s.out := s.out + sub.out;
    ok := ok && sub.written == size;
  }

  /** One value, after its tag unless it is packed. */
  method EncodeOne(s: OStream, f: Field, packed: bool, x: Value) returns (ok: bool)
    requires Typed(f.kind, x) && s.Valid()
    modifies s
    ensures s.Valid()
    ensures var piece := (if packed then [] else TagBytes(f.tag, WireType(f.kind))) + ValueBytes(f.kind, x);
      && ok == (Allowed(f.kind, x) && old(s.Room(|piece|)))
      && (ok ==> s.written == old(s.written) + |piece| && s.out == old(s.out) + (if s.sizing then [] else piece))
    decreases x, 7
  {
    hide ValueBytes, TagBytes, Allowed, Typed;
    if !packed {
      ok := EncodeTag(s, f.tag, WireType(f.kind));
      if !ok {
        return false;
      }
    }
    ok := EncodeValue(s, f.kind, x);
  }

  /** The values of a field one after the other. */
  method EncodeValues(s: OStream, f: Field, packed: bool, v: Value, i: nat) returns (ok: bool)
    requires v.MessageV? && i < |v.slots| && forall j :: 0 <= j < |v.slots[i].values| ==>
      Typed(f.kind, v.slots[i].values[j])
    requires s.Valid()
    modifies s
    ensures s.Valid()
    ensures var bytes := ValuesBytes(f, packed, v, i, 0);
      && ok == (AllowedValues(f, v, i, 0) && old(s.Room(|bytes|)))
      && (ok ==> s.written == old(s.written) + |bytes| && s.out == old(s.out) + (if s.sizing then [] else bytes))
    decreases v, 0
  {
    hide ValueBytes, TagBytes, Allowed, Typed, Sent, ValuesBytes, AllowedValues;
    ghost var total := ValuesBytes(f, packed, v, i, 0);
    ghost var w0, o0 := s.written, s.out;
    NothingSent(s.sizing, w0, o0, total);
    var n := 0;
    while n < |v.slots[i].values|
      invariant 0 <= n <= |v.slots[i].values| && s.Valid()
      invariant Sent(s.sizing, s.written, s.out, w0, o0, total, ValuesBytes(f, packed, v, i, n))
      invariant AllowedValues(f, v, i, 0) == AllowedValues(f, v, i, n)
    {
      ghost var piece, more := ValuesStep(f, packed, v, i, n);
      PieceSent(s.sizing, s.written, s.out, w0, o0, total, ValuesBytes(f, packed, v, i, n), piece, more);
      ok := EncodeOne(s, f, packed, v.slots[i].values[n]);
      if !ok {
        return false;
      }
      n := n + 1;
    }
    ValuesEnd(f, packed, v, i);
    AllSent(s.sizing, s.written, s.out, w0, o0, total);
    return true;
  }

  lemma ValuesStep(f: Field, packed: bool, v: Value, i: nat, n: nat) returns (piece: seq<Octet>, more: seq<Octet>)
    requires v.MessageV? && i < |v.slots| && n < |v.slots[i].values|
    ensures piece == (if packed then [] else TagBytes(f.tag, WireType(f.kind)))
      + ValueBytes(f.kind, v.slots[i].values[n])
    ensures more == ValuesBytes(f, packed, v, i, n + 1) && ValuesBytes(f, packed, v, i, n) == piece + more
    ensures AllowedValues(f, v, i, n) == (Allowed(f.kind, v.slots[i].values[n]) && AllowedValues(f, v, i, n + 1))
  {
    hide ValueBytes, TagBytes, Allowed;
    var tag := if packed then [] else TagBytes(f.tag, WireType(f.kind));
    piece, more := tag + ValueBytes(f.kind, v.slots[i].values[n]), ValuesBytes(f, packed, v, i, n + 1);
    assert tag + (ValueBytes(f.kind, v.slots[i].values[n]) + more) == piece + more;
  }

  lemma ValuesEnd(f: Field, packed: bool, v: Value, i: nat)
    requires v.MessageV? && i < |v.slots|
    ensures ValuesBytes(f, packed, v, i, |v.slots[i].values|) == [] && AllowedValues(f, v, i, |v.slots[i].values|)
  {
  }

  /** Packed values of fixed width have a known size. */
  lemma {:induction false} FixedSize(f: Field, v: Value, i: nat, n: nat)
    requires v.MessageV? && i < |v.slots| && n <= |v.slots[i].values| && (f.kind.Fixed32K? || f.kind.Fixed64K?)
    requires forall j :: 0 <= j < |v.slots[i].values| ==> Typed(f.kind, v.slots[i].values[j])
    ensures |ValuesBytes(f, true, v, i, n)| == (if f.kind.Fixed32K? then 4 else 8) * (|v.slots[i].values| - n)
    ensures AllowedValues(f, v, i, n)
    decreases |v.slots[i].values| - n
  {
    hide Fixed, Unsigned;
    if n < |v.slots[i].values| {
      assert Typed(f.kind, v.slots[i].values[n]);
      FixedSize(f, v, i, n + 1);
    }
  }

  /** The size of a packed array: known, or counted. */
  method PackedSize(f: Field, v: Value, i: nat) returns (ok: bool, size: nat)
    requires v.MessageV? && i < |v.slots| && forall j :: 0 <= j < |v.slots[i].values| ==>
      Typed(f.kind, v.slots[i].values[j])
    ensures ok == AllowedValues(f, v, i, 0) && (ok ==> size == |ValuesBytes(f, true, v, i, 0)|)
    decreases v, 1
  {
    hide ValuesBytes, AllowedValues, Typed;
    if f.kind.Fixed32K? {
      FixedSize(f, v, i, 0);
      return true, 4 * |v.slots[i].values|;
    } else if f.kind.Fixed64K? {
      FixedSize(f, v, i, 0);
      return true, 8 * |v.slots[i].values|;
    }
    var counter := new OStream(true, 0);
    ok := EncodeValues(counter, f, true, v, i);
    size := counter.written;
  }

  /** A packed array. */
  method EncodePacked(s: OStream, f: Field, v: Value, i: nat) returns (ok: bool)
    requires v.MessageV? && i < |v.slots| && forall j :: 0 <= j < |v.slots[i].values| ==>
      Typed(f.kind, v.slots[i].values[j])
    requires s.Valid()
    modifies s
    ensures s.Valid()
    ensures var body := ValuesBytes(f, true, v, i, 0);
      var bytes := TagBytes(f.tag, WT_STRING) + (Varint(|body|) + body);
      && ok == (AllowedValues(f, v, i, 0) && old(s.Room(|bytes|)))
      && (ok ==> s.written == old(s.written) + |bytes| && s.out == old(s.out) + (if s.sizing then [] else bytes))
    decreases v, 2
  {
    hide ValuesBytes, AllowedValues, Typed, Varint, TagBytes;
    ok := EncodeTag(s, f.tag, WT_STRING);
    if !ok {
      return false;
    }
    var size;
    ok, size := PackedSize(f, v, i);
    if !ok {
      return false;
    }
    ok := EncodeVarint(s, size);
    if !ok {
      return false;
    }
    if s.sizing {
      s.Count(size);
      return true;
    }
    ok := EncodeValues(s, f, true, v, i);
  }

  /** One field: encode_basic_field with encode_array. */
  method EncodeSlot(s: OStream, f: Field, v: Value, i: nat) returns (ok: bool)
    requires v.MessageV? && i < |v.slots| && forall j :: 0 <= j < |v.slots[i].values| ==>
      Typed(f.kind, v.slots[i].values[j])
    requires s.Valid()
    modifies s
    ensures s.Valid()
    ensures var bytes := SlotBytes(f, v, i);
      && ok == (AllowedSlot(f, v, i) && old(s.Room(|bytes|)))
      && (ok ==> s.written == old(s.written) + |bytes| && s.out == old(s.out) + (if s.sizing then [] else bytes))
    decreases v, 3
  {
    hide ValuesBytes, AllowedValues, Typed, Varint, TagBytes;
    if v.slots[i].values == [] {
      ValuesEnd(f, false, v, i);
      return true;
    }
    if f.rule.Repeated? && |v.slots[i].values| > f.rule.max {
      return false;
    }
    if f.rule.Repeated? && Packable(f.kind) {
      ok := EncodePacked(s, f, v, i);
    } else {
      ok := EncodeValues(s, f, false, v, i);
    }
  }

  /** The fields in the order of their descriptors. */
  method EncodeMessage(s: OStream, fields: seq<Field>, v: Value) returns (ok: bool)
    requires v.MessageV? && TypedMessage(fields, v)
    requires s.Valid()
    modifies s
    ensures s.Valid()
    ensures var bytes := MessageBytes(fields, v, 0);
      && ok == (AllowedFrom(fields, v, 0) && old(s.Room(|bytes|)))
      && (ok ==> s.written == old(s.written) + |bytes| && s.out == old(s.out) + (if s.sizing then [] else bytes))
    decreases v, 4
  {
    hide SlotBytes, AllowedSlot, Typed, Sent;
    ghost var total := MessageBytes(fields, v, 0);
    ghost var w0, o0 := s.written, s.out;
    NothingSent(s.sizing, w0, o0, total);
    var k := 0;
    while k < |fields|
      invariant 0 <= k <= |fields| && s.Valid()
      invariant Sent(s.sizing, s.written, s.out, w0, o0, total, MessageBytes(fields, v, k))
      invariant AllowedFrom(fields, v, 0) == AllowedFrom(fields, v, k)
    {
      PieceSent(s.sizing, s.written, s.out, w0, o0, total, MessageBytes(fields, v, k), SlotBytes(fields[k], v, k),
                MessageBytes(fields, v, k + 1));
      ok := EncodeSlot(s, fields[k], v, k);
      if !ok {
        return false;
      }
      k := k + 1;
    }
    AllSent(s.sizing, s.written, s.out, w0, o0, total);
    return true;
  }
}
