/** What the decoder refuses, skips and merges (nanopb: pb_decode.c), following "Message Structure", "Last One Wins" and
    "Packed Repeated Fields" of the Protocol Buffers encoding specification. */
module ProtoLaws {
  import opened Views
  import opened Coding
  import opened ProtoMessages
  import opened ProtoEncoder
  import opened ProtoDecoding
  import opened ProtoRoundTrip

  // ---------------------------------------------------------------------------------------------------------
  // Required fields
  // ---------------------------------------------------------------------------------------------------------

  /** The field numbers that are read at the top level of the message, in order. */
  function TagsRead(fields: seq<Field>, dest: seq<Slot>, bytes: seq<Octet>): seq<nat>
    requires |dest| == |fields|
    decreases |bytes|
  {
    if bytes == [] then []
    else
      Read32Shrinks(bytes);
      match Read32(bytes)
      case None => []
      case Some(t) =>
        if t.0 == 0 then []
        else
          var i := Find(fields, t.0 / 8, 0);
          if i == |fields| then
            SkipShrinks(t.0 % 8, t.1);
            match Skip(t.0 % 8, t.1)
            case None => [t.0 / 8]
            case Some(rest) => [t.0 / 8] + TagsRead(fields, dest, rest)
          else
            match ReadField(fields, i, t.0 % 8, dest, t.1)
            case None => [t.0 / 8]
            case Some(p) => [t.0 / 8] + TagsRead(fields, p.0, p.1)
  }

  lemma {:induction false} MetIsRead(fields: seq<Field>, dest: seq<Slot>, seen: set<nat>, bytes: seq<Octet>)
    requires GoodTags(fields) && |dest| == |fields| && ReadFields(fields, dest, seen, bytes).Some?
    ensures forall i :: 0 <= i < |fields| ==>
      (i in ReadFields(fields, dest, seen, bytes).value.1 <==>
       i in seen || fields[i].tag in TagsRead(fields, dest, bytes))
    decreases |bytes|
  {
    hide Read32, Skip, ReadField, Find;
    if bytes != [] {
      Read32Shrinks(bytes);
      var t := Read32(bytes).value;
      if t.0 != 0 {
        var i := Find(fields, t.0 / 8, 0);
        if i == |fields| {
          SkipShrinks(t.0 % 8, t.1);
          MetIsRead(fields, dest, seen, Skip(t.0 % 8, t.1).value);
        } else {
          var p := ReadField(fields, i, t.0 % 8, dest, t.1).value;
          MetIsRead(fields, p.0, seen + {i}, p.1);
        }
      }
    }
  }

  /** How many required fields come before the field. */
  ghost function RequiredAhead(fields: seq<Field>, i: nat): set<nat> {
    set j | 0 <= j < i && j < |fields| && fields[j].rule.Required?
  }

  lemma {:induction false} CountRequired(fields: seq<Field>, i: nat)
    requires i <= |fields|
    ensures RequiredBefore(fields, i) == |RequiredAhead(fields, i)|
  {
    if i > 0 {
      CountRequired(fields, i - 1);
      var before := RequiredAhead(fields, i - 1);
      assert RequiredAhead(fields, i) == before + (if fields[i - 1].rule.Required? then {i - 1} else {});
    }
  }

  /** The field is one of the first 64 required fields. */
  ghost predicate Checked64(fields: seq<Field>, i: nat)
    requires i < |fields|
  {
    fields[i].rule.Required? && |RequiredAhead(fields, i)| < 64
  }

  /** A message is accepted exactly if its fields can be read and each of the first 64 required fields is among them;
      from the 65th required field on a missing one is accepted. */
  lemma AcceptedExactly(fields: seq<Field>, dest: seq<Slot>, bytes: seq<Octet>)
    requires GoodTags(fields) && |dest| == |fields|
    ensures ReadMessage(fields, dest, bytes).Some? <==>
      && ReadFields(fields, dest, {}, bytes).Some?
      && forall i :: 0 <= i < |fields| && Checked64(fields, i) ==> fields[i].tag in TagsRead(fields, dest, bytes)
  {
    hide ReadFields, TagsRead, GoodTags, RequiredBefore;
    forall i | 0 <= i < |fields|
      ensures RequiredBefore(fields, i) == |RequiredAhead(fields, i)|
    {
      CountRequired(fields, i);
    }
    hide RequiredAhead;
    if ReadFields(fields, dest, {}, bytes).Some? {
      MetIsRead(fields, dest, {}, bytes);
    }
  }

  /** In particular, nothing is not a message that has a required field. */
  lemma NothingIsRefused(fields: seq<Field>, dest: seq<Slot>, i: nat)
    requires GoodTags(fields) && |dest| == |fields| && i < |fields| && fields[i].rule.Required?
    ensures ReadMessage(fields, dest, []) == None
  {
    hide GoodTags;
    var first := FirstRequired(fields, i);
    assert RequiredAhead(fields, first) == {};
    assert TagsRead(fields, dest, []) == [];
    AcceptedExactly(fields, dest, []);
    assert Checked64(fields, first);
  }

  lemma {:induction false} FirstRequired(fields: seq<Field>, i: nat) returns (first: nat)
    requires i < |fields| && fields[i].rule.Required?
    ensures first < |fields| && fields[first].rule.Required?
    ensures forall j :: 0 <= j < first ==> !fields[j].rule.Required?
  {
    if j: nat :| j < i && fields[j].rule.Required? {
      first := FirstRequired(fields, j);
    } else {
      first := i;
    }
  }

  // ---------------------------------------------------------------------------------------------------------
  // A message with one field left out
  // ---------------------------------------------------------------------------------------------------------

  lemma {:induction false} DefaultIsGood(kind: Kind, v: Value)
    requires GoodValue(kind, v)
    ensures GoodValue(kind, DefaultValue(kind))
    decreases v
  {
    if kind.MessageK? {
      hide GoodValue;
      var d := DefaultValue(kind);
      assert GoodMessage(kind.fields, v) by { GoodInside(kind, v); }
      assert forall i :: 0 <= i < |kind.fields| ==> d.slots[i] == DefaultSlot(kind.fields[i]);
      hide DefaultValue;
      assert forall i :: 0 <= i < |kind.fields| ==> GoodCount(kind.fields[i].rule, |d.slots[i].values|);
      forall i, j | 0 <= i < |kind.fields| && 0 <= j < |d.slots[i].values|
        ensures GoodValue(kind.fields[i].kind, d.slots[i].values[j])
      {
        var f := kind.fields[i];
        assert f.rule.Required? && d.slots[i].values == [DefaultValue(f.kind)];
        assert GoodCount(f.rule, |v.slots[i].values|);
        assert GoodValue(f.kind, v.slots[i].values[0]);
        DefaultIsGood(f.kind, v.slots[i].values[0]);
      }
      assert GoodMessage(kind.fields, d);
      GoodOutside(kind, d);
    }
  }

  lemma GoodInside(kind: Kind, v: Value)
    requires kind.MessageK? && GoodValue(kind, v)
    ensures v.MessageV? && GoodMessage(kind.fields, v)
  {
  }

  lemma GoodOutside(kind: Kind, v: Value)
    requires kind.MessageK? && v.MessageV? && GoodMessage(kind.fields, v)
    ensures GoodValue(kind, v)
  {
  }

  /** The message with the default in place of a required field. */
  function Defaulted(fields: seq<Field>, v: Value, i: nat): Value
    requires v.MessageV? && i < |v.slots| == |fields|
  {
    MessageV(v.slots[i := DefaultSlot(fields[i])])
  }

  lemma DefaultedIsGood(fields: seq<Field>, v: Value, i: nat)
    requires v.MessageV? && GoodMessage(fields, v) && i < |fields| && fields[i].rule.Required?
    ensures GoodMessage(fields, Defaulted(fields, v, i))
  {
    hide GoodValue, DefaultValue;
    assert GoodCount(fields[i].rule, |v.slots[i].values|);
    assert GoodValue(fields[i].kind, v.slots[i].values[0]);
    DefaultIsGood(fields[i].kind, v.slots[i].values[0]);
    var d := Defaulted(fields, v, i);
    assert forall k :: 0 <= k < |fields| && k != i ==> d.slots[k] == v.slots[k];
    assert forall k :: 0 <= k < |fields| ==> GoodCount(fields[k].rule, |v.slots[k].values|);
    forall k, j | 0 <= k < |fields| && 0 <= j < |d.slots[k].values|
      ensures GoodValue(fields[k].kind, d.slots[k].values[j])
    {
    }
  }

  /** The bytes of the fields before field `i`. */
  function BytesBefore(fields: seq<Field>, v: Value, i: nat): seq<Octet>
    requires v.MessageV? && |v.slots| == |fields| && i <= |fields|
  {
    if i == 0 then [] else BytesBefore(fields, v, i - 1) + SlotBytes(fields[i - 1], v, i - 1)
  }

  /** What is left of the bytes of the message when those of field `i` are left out. */
  function LeavingOut(fields: seq<Field>, v: Value, i: nat): seq<Octet>
    requires v.MessageV? && i < |v.slots| == |fields|
  {
    BytesBefore(fields, v, i) + MessageBytes(fields, v, i + 1)
  }

  lemma {:induction false} BytesAround(fields: seq<Field>, v: Value, i: nat)
    requires v.MessageV? && |v.slots| == |fields| && i <= |fields|
    ensures MessageBytes(fields, v, 0) == BytesBefore(fields, v, i) + MessageBytes(fields, v, i)
  {
    hide SlotBytes;
    if i > 0 {
      BytesAround(fields, v, i - 1);
    }
  }

  lemma {:induction false} SameValues(f: Field, packed: bool, v: Value, w: Value, i: nat, n: nat)
    requires v.MessageV? && w.MessageV? && i < |v.slots| && i < |w.slots| && v.slots[i] == w.slots[i]
    requires n <= |v.slots[i].values|
    ensures ValuesBytes(f, packed, v, i, n) == ValuesBytes(f, packed, w, i, n)
    decreases |v.slots[i].values| - n
  {
    hide ValueBytes, TagBytes;
    if n < |v.slots[i].values| {
      SameValues(f, packed, v, w, i, n + 1);
    }
  }

  lemma SameSlot(f: Field, v: Value, w: Value, i: nat)
    requires v.MessageV? && w.MessageV? && i < |v.slots| && i < |w.slots| && v.slots[i] == w.slots[i]
    ensures SlotBytes(f, v, i) == SlotBytes(f, w, i)
  {
    hide ValuesBytes, TagBytes, Varint;
    SameValues(f, true, v, w, i, 0);
    SameValues(f, false, v, w, i, 0);
  }

  lemma {:induction false} SameBytes(fields: seq<Field>, v: Value, w: Value, i: nat, k: nat)
    requires v.MessageV? && w.MessageV? && |v.slots| == |w.slots| == |fields| && i < |fields|
    requires forall j :: 0 <= j < |fields| && j != i ==> v.slots[j] == w.slots[j]
    ensures k <= i ==> BytesBefore(fields, v, k) == BytesBefore(fields, w, k)
    ensures i < k <= |fields| ==> MessageBytes(fields, v, k) == MessageBytes(fields, w, k)
    decreases if k <= i then k else |fields| - k
  {
    hide SlotBytes;
    if 0 < k <= i {
      SameBytes(fields, v, w, i, k - 1);
      SameSlot(fields[k - 1], v, w, k - 1);
    } else if i < k < |fields| {
      SameBytes(fields, v, w, i, k + 1);
      SameSlot(fields[k], v, w, k);
    }
  }

  lemma {:induction false} SlotSmall(fields: seq<Field>, v: Value, k: nat)
    requires v.MessageV? && |v.slots| == |fields| && k < |fields|
    ensures |SlotBytes(fields[k], v, k)| <= |MessageBytes(fields, v, 0)|
    ensures |MessageBytes(fields, v, k + 1)| <= |MessageBytes(fields, v, 0)|
  {
    hide SlotBytes;
    BytesAround(fields, v, k);
  }

  /** Reading the fields before field `k`. */
  lemma {:induction false} BeforeLoop(fields: seq<Field>, v: Value, k: nat, rest: seq<Octet>) returns (seen: set<nat>)
    requires v.MessageV? && GoodTags(fields) && (forall i :: 0 <= i < |fields| ==> GoodKind(fields[i].kind))
    requires GoodMessage(fields, v) && k <= |fields|
    requires forall j :: 0 <= j < k ==> |SlotBytes(fields[j], v, j)| < LIMIT32
    ensures ReadFields(fields, Progress(fields, v, 0, 0), {}, BytesBefore(fields, v, k) + rest)
         == ReadFields(fields, Progress(fields, v, k, 0), seen, rest)
    ensures forall i :: i in seen <==> 0 <= i < k && v.slots[i].values != []
  {
    hide ReadFields, SlotBytes, GoodTags, GoodKind, GoodMessage, Progress;
    assert |v.slots| == |fields| by { Shape(fields, v); }
    if k == 0 {
      assert [] + rest == rest;
      seen := {};
    } else {
      var slot := SlotBytes(fields[k - 1], v, k - 1);
      var before := BeforeLoop(fields, v, k - 1, slot + rest);
      assert BytesBefore(fields, v, k) + rest == BytesBefore(fields, v, k - 1) + (slot + rest);
      SlotLoop(fields, v, k - 1, before, rest);
      seen := if v.slots[k - 1].values != [] then before + {k - 1} else before;
    }
  }

  /** A well-formed message with the bytes of one required field left out is refused if the field is one of the first 64
      required ones, and otherwise accepted with the default value in its place. */
  lemma MissingRequired(fields: seq<Field>, v: Value, i: nat)
    requires v.MessageV? && GoodTags(fields) && (forall k :: 0 <= k < |fields| ==> GoodKind(fields[k].kind))
    requires GoodMessage(fields, v) && |MessageBytes(fields, v, 0)| < LIMIT32
    requires i < |fields| && fields[i].rule.Required?
    ensures ReadMessage(fields, Defaults(fields), LeavingOut(fields, v, i))
         == if Checked64(fields, i) then None else Some((v.slots[i := DefaultSlot(fields[i])], []))
  {
    hide ReadFields, GoodTags, GoodKind, GoodMessage, MessageBytes, BytesBefore, SlotBytes, RequiredBefore,
         RequiredAhead;
    hide DefaultSlot, AllRequired, Defaults;
    assert |v.slots| == |fields| by { Shape(fields, v); }
    var w := Defaulted(fields, v, i);
    assert GoodMessage(fields, w) by { DefaultedIsGood(fields, v, i); }
    SameBytes(fields, v, w, i, i);
    SameBytes(fields, v, w, i, i + 1);
    forall j | 0 <= j < i
      ensures |SlotBytes(fields[j], w, j)| < LIMIT32
    {
      SlotSmall(fields, v, j);
      SameSlot(fields[j], v, w, j);
    }
    SlotSmall(fields, v, i);
    var rest := MessageBytes(fields, w, i + 1);
    assert Defaults(fields) == Progress(fields, w, 0, 0) by { StartsWithDefaults(fields, w); }
    var seen := BeforeLoop(fields, w, i, rest);
    assert Progress(fields, w, i, 0) == Progress(fields, w, i + 1, 0) by { SkippedSlot(fields, v, i); }
    MessageLoop(fields, w, i + 1, seen);
    MissingMeans(fields, v, i, ReadFields(fields, Defaults(fields), {}, LeavingOut(fields, v, i)).value.1);
  }

  lemma StartsWithDefaults(fields: seq<Field>, v: Value)
    requires v.MessageV? && |v.slots| == |fields|
    ensures Defaults(fields) == Progress(fields, v, 0, 0)
  {
    hide DefaultSlot;
  }

  lemma SkippedSlot(fields: seq<Field>, v: Value, i: nat)
    requires v.MessageV? && i < |v.slots| == |fields|
    ensures Progress(fields, Defaulted(fields, v, i), i, 0) == Progress(fields, Defaulted(fields, v, i), i + 1, 0)
  {
    hide DefaultSlot;
  }

  /** Every required field but `i` was met. */
  lemma MissingMeans(fields: seq<Field>, v: Value, i: nat, met: set<nat>)
    requires v.MessageV? && GoodMessage(fields, v) && i < |fields| && fields[i].rule.Required?
    requires forall k :: 0 <= k < |fields| && k != i ==> (k in met <==> v.slots[k].values != [])
    requires i !in met
    ensures AllRequired(fields, met) <==> !Checked64(fields, i)
  {
    hide GoodValue, GoodUnions, RequiredBefore, RequiredAhead;
    CountRequired(fields, i);
    forall k | 0 <= k < |fields| && k != i && fields[k].rule.Required?
      ensures k in met
    {
      assert GoodCount(fields[k].rule, |v.slots[k].values|);
    }
  }

  // ---------------------------------------------------------------------------------------------------------
  // What follows does not matter
  // ---------------------------------------------------------------------------------------------------------

  lemma {:induction false} MoreExtends(bytes: seq<Octet>, bitpos: nat, result: nat, more: seq<Octet>)
    requires Read32More(bytes, bitpos, result).Some?
    ensures var p := Read32More(bytes, bitpos, result).value;
      Read32More(bytes + more, bitpos, result) == Some((p.0, p.1 + more))
    decreases |bytes|
  {
    hide Weighted;
    var b := bytes[0];
    var result' := if bitpos >= 32 then result else (result + Weighted(b, bitpos)) % LIMIT32;
    assert (bytes + more)[1..] == bytes[1..] + more;
    if b >= 128 {
      MoreExtends(bytes[1..], bitpos + 7, result', more);
    }
  }

  lemma Read32Extends(bytes: seq<Octet>, more: seq<Octet>)
    requires Read32(bytes).Some?
    ensures Read32(bytes + more) == Some((Read32(bytes).value.0, Read32(bytes).value.1 + more))
  {
    hide Read32More;
    assert (bytes + more)[1..] == bytes[1..] + more;
    if bytes[0] >= 128 {
      MoreExtends(bytes[1..], 7, bytes[0] % 128, more);
    }
  }

  lemma {:induction false} VarintExtends(bytes: seq<Octet>, width: nat, more: seq<Octet>)
    requires ReadVarint(bytes, width).Some?
    ensures ReadVarint(bytes + more, width)
         == Some((ReadVarint(bytes, width).value.0, ReadVarint(bytes, width).value.1 + more))
  {
    assert (bytes + more)[1..] == bytes[1..] + more;
    if bytes[0] >= 128 {
      VarintExtends(bytes[1..], width - 1, more);
    }
  }

  lemma Varint64Extends(bytes: seq<Octet>, more: seq<Octet>)
    requires ReadVarint64(bytes).Some?
    ensures ReadVarint64(bytes + more) == Some((ReadVarint64(bytes).value.0, ReadVarint64(bytes).value.1 + more))
  {
    hide ReadVarint;
    VarintExtends(bytes, 10, more);
  }

  lemma {:induction false} SkipVarintExtends(bytes: seq<Octet>, more: seq<Octet>)
    requires SkipVarint(bytes).Some?
    ensures SkipVarint(bytes + more) == Some(SkipVarint(bytes).value + more)
  {
    assert (bytes + more)[1..] == bytes[1..] + more;
    if bytes[0] >= 128 {
      SkipVarintExtends(bytes[1..], more);
    }
  }

  lemma Tail(bytes: seq<Octet>, n: nat, more: seq<Octet>)
    requires n <= |bytes|
    ensures (bytes + more)[n..] == bytes[n..] + more && (bytes + more)[..n] == bytes[..n]
  {
  }

  lemma SubstreamExtends(bytes: seq<Octet>, more: seq<Octet>)
    requires Substream(bytes).Some?
    ensures Substream(bytes + more) == Some((Substream(bytes).value.0, Substream(bytes).value.1 + more))
  {
    hide Read32;
    Read32Extends(bytes, more);
    var p := Read32(bytes).value;
    Tail(p.1, p.0, more);
  }

  lemma SkipExtends(wire: nat, bytes: seq<Octet>, more: seq<Octet>)
    requires Skip(wire, bytes).Some?
    ensures Skip(wire, bytes + more) == Some(Skip(wire, bytes).value + more)
  {
    hide SkipVarint, Substream;
    if wire == WT_VARINT {
      SkipVarintExtends(bytes, more);
    } else if wire == WT_64BIT {
      Tail(bytes, 8, more);
    } else if wire == WT_32BIT {
      Tail(bytes, 4, more);
    } else {
      SubstreamExtends(bytes, more);
    }
  }

  lemma ScalarExtends(kind: Kind, bytes: seq<Octet>, more: seq<Octet>)
    requires ReadScalar(kind, bytes).Some?
    ensures ReadScalar(kind, bytes + more) == Some((ReadScalar(kind, bytes).value.0,
                                                    ReadScalar(kind, bytes).value.1 + more))
  {
    hide Read32, ReadVarint64, Number, Signed, UnZigZag;
    match kind
    case BoolK => Read32Extends(bytes, more);
    case IntK(_) => Varint64Extends(bytes, more);
    case UIntK(_) => Varint64Extends(bytes, more);
    case SIntK(_) => Varint64Extends(bytes, more);
    case Fixed32K => Tail(bytes, 4, more);
    case Fixed64K => Tail(bytes, 8, more);
    case BytesK(_) => StringExtends(kind.max, bytes, more);
    case StringK(_) => StringExtends(kind.size - 1, bytes, more);
  }

  lemma StringExtends(room: int, bytes: seq<Octet>, more: seq<Octet>)
    requires ReadString(room, bytes).Some?
    ensures ReadString(room, bytes + more) == Some((ReadString(room, bytes).value.0,
                                                    ReadString(room, bytes).value.1 + more))
  {
    hide Read32;
    Read32Extends(bytes, more);
    var p := Read32(bytes).value;
    Tail(p.1, p.0, more);
  }

  lemma ValueExtends(kind: Kind, there: seq<Value>, bytes: seq<Octet>, more: seq<Octet>)
    requires ReadValue(kind, there, bytes).Some?
    ensures ReadValue(kind, there, bytes + more)
         == Some((ReadValue(kind, there, bytes).value.0, ReadValue(kind, there, bytes).value.1 + more))
  {
    hide Substream, ReadMessage, ReadScalar, Base;
    if kind.MessageK? {
      SubstreamExtends(bytes, more);
    } else {
      ScalarExtends(kind, bytes, more);
    }
  }

  lemma FieldExtends(fields: seq<Field>, i: nat, wire: nat, dest: seq<Slot>, bytes: seq<Octet>, more: seq<Octet>)
    requires |dest| == |fields| && i < |fields| && ReadField(fields, i, wire, dest, bytes).Some?
    ensures var p := ReadField(fields, i, wire, dest, bytes).value;
      ReadField(fields, i, wire, dest, bytes + more) == Some((p.0, p.1 + more))
  {
    hide Substream, ReadValue, ReadPacked, OnlyMember;
    var f := fields[i];
    if f.rule.Repeated? && wire == WT_STRING && Packable(f.kind) {
      SubstreamExtends(bytes, more);
    } else if f.rule.Repeated? {
      ValueExtends(f.kind, [], bytes, more);
    } else {
      ValueExtends(f.kind, dest[i].values, bytes, more);
    }
  }

  /** The bytes are whole fields, without a zero tag that would end the message. */
  predicate WholeFields(fields: seq<Field>, dest: seq<Slot>, bytes: seq<Octet>)
    requires |dest| == |fields|
    decreases |bytes|
  {
    bytes != [] ==>
      (Read32Shrinks(bytes);
       match Read32(bytes)
       case None => false
       case Some(t) =>
         && t.0 != 0
         && var i := Find(fields, t.0 / 8, 0);
         if i == |fields| then
           (SkipShrinks(t.0 % 8, t.1);
            match Skip(t.0 % 8, t.1)
            case None => false
            case Some(rest) => WholeFields(fields, dest, rest))
         else
           match ReadField(fields, i, t.0 % 8, dest, t.1)
           case None => false
           case Some(p) => WholeFields(fields, p.0, p.1))
  }

  /** Reading whole fields and what follows them is reading the fields and then what follows. */
  lemma {:induction false} ReadOn(fields: seq<Field>, dest: seq<Slot>, seen: set<nat>, a: seq<Octet>, b: seq<Octet>)
    requires |dest| == |fields| && WholeFields(fields, dest, a)
    ensures var r := ReadFields(fields, dest, seen, a);
      && r.Some? && r.value.2 == []
      && ReadFields(fields, dest, seen, a + b) == ReadFields(fields, r.value.0, r.value.1, b)
    decreases |a|
  {
    hide Read32, Skip, ReadField, Find;
    if a == [] {
      assert a + b == b;
    } else {
      Read32Shrinks(a);
      Read32Extends(a, b);
      var t := Read32(a).value;
      var i := Find(fields, t.0 / 8, 0);
      if i == |fields| {
        SkipShrinks(t.0 % 8, t.1);
        SkipExtends(t.0 % 8, t.1, b);
        ReadOn(fields, dest, seen, Skip(t.0 % 8, t.1).value, b);
      } else {
        var p := ReadField(fields, i, t.0 % 8, dest, t.1).value;
        FieldExtends(fields, i, t.0 % 8, dest, t.1, b);
        ReadOn(fields, p.0, seen + {i}, p.1, b);
      }
    }
  }

  // ---------------------------------------------------------------------------------------------------------
  // Unknown fields
  // ---------------------------------------------------------------------------------------------------------

  /** A value of an unknown field, as the wire type frames it. */
  ghost predicate Framed(wire: nat, payload: seq<Octet>) {
    if wire == 0 then exists n: nat :: payload == Varint(n)
    else if wire == 1 then |payload| == 8
    else if wire == 2 then exists body: seq<Octet> :: |body| < LIMIT32 && payload == Varint(|body|) + body
    else wire == 5 && |payload| == 4
  }

  lemma {:induction false} SkipsVarint(n: nat, rest: seq<Octet>)
    ensures SkipVarint(Varint(n) + rest) == Some(rest)
  {
    VarintParts(n, rest);
    if n >= 128 {
      SkipsVarint(n / 128, rest);
    }
  }

  lemma SkipsFramed(wire: nat, payload: seq<Octet>, rest: seq<Octet>)
    requires Framed(wire, payload)
    ensures Skip(wire, payload + rest) == Some(rest)
  {
    hide SkipVarint, Substream, Varint;
    if wire == 0 {
      var n: nat :| payload == Varint(n);
      SkipsVarint(n, rest);
    } else if wire == 2 {
      var body: seq<Octet> :| |body| < LIMIT32 && payload == Varint(|body|) + body;
      SubstreamRead(body, rest);
    }
  }

  lemma FindsNone(fields: seq<Field>, tag: nat, from: nat)
    requires from <= |fields| && forall i :: 0 <= i < |fields| ==> fields[i].tag != tag
    ensures Find(fields, tag, from) == |fields|
    decreases |fields| - from
  {
    if from < |fields| {
      FindsNone(fields, tag, from + 1);
    }
  }

  /** A field that the message does not have is read over, whatever its wire type; the group types of the wire format,
      and numbers that are no wire type, are refused. */
  lemma UnknownField(fields: seq<Field>, dest: seq<Slot>, seen: set<nat>, tag: nat, wire: nat, payload: seq<Octet>,
                     rest: seq<Octet>)
    requires |dest| == |fields| && 0 < tag < 0x2000_0000 && wire < 8
    requires forall i :: 0 <= i < |fields| ==> fields[i].tag != tag
    ensures Framed(wire, payload) ==>
      ReadFields(fields, dest, seen, TagBytes(tag, wire) + (payload + rest)) == ReadFields(fields, dest, seen, rest)
    ensures wire == 3 || wire == 4 || wire == 6 || wire == 7 ==>
      ReadFields(fields, dest, seen, TagBytes(tag, wire) + (payload + rest)) == None
  {
    hide Read32, ReadField, Find, TagBytes, Skip, Varint;
    TagRead(tag, wire, payload + rest);
    FindsNone(fields, tag, 0);
    if Framed(wire, payload) {
      SkipsFramed(wire, payload, rest);
    } else if wire == 3 || wire == 4 || wire == 6 || wire == 7 {
      NoWireType(wire, payload + rest);
    }
  }

  lemma NoWireType(wire: nat, bytes: seq<Octet>)
    requires wire == 3 || wire == 4 || wire == 6 || wire == 7
    ensures Skip(wire, bytes) == None
  {
  }

  // ---------------------------------------------------------------------------------------------------------
  // Fields that come again
  // ---------------------------------------------------------------------------------------------------------

  /** Reading a member of a union clears its other members, and touches nothing else. */
  lemma LastMemberWins(fields: seq<Field>, i: nat, wire: nat, dest: seq<Slot>, bytes: seq<Octet>, j: nat)
    requires |dest| == |fields| && i < |fields| && j < |fields| && j != i
    requires ReadField(fields, i, wire, dest, bytes).Some?
    ensures var r := ReadField(fields, i, wire, dest, bytes).value.0;
      r[j] == if fields[i].rule.Oneof? && fields[j].rule == fields[i].rule then Slot([]) else dest[j]
  {
    hide ReadValue, ReadPacked, Substream;
  }

  /** A value that comes again takes the place of the one before, unless it is a message. */
  lemma LastScalarWins(fields: seq<Field>, i: nat, wire: nat, dest: seq<Slot>, v: Value, rest: seq<Octet>)
    requires |dest| == |fields| && i < |fields| && !fields[i].rule.Repeated? && !fields[i].kind.MessageK?
    requires GoodValue(fields[i].kind, v) && |ValueBytes(fields[i].kind, v)| < LIMIT32
    ensures var r := ReadField(fields, i, wire, dest, ValueBytes(fields[i].kind, v) + rest);
      r.Some? && r.value.0[i] == Slot([v]) && r.value.1 == rest
  {
    hide GoodValue, ValueBytes, ReadScalar;
    ScalarRoundTrip(fields[i].kind, v, rest);
  }

  lemma MessageField(fields: seq<Field>, i: nat, dest: seq<Slot>, a: seq<Octet>, rest: seq<Octet>)
    requires |dest| == |fields| && i < |fields| && !fields[i].rule.Repeated? && fields[i].kind.MessageK?
    requires |a| < LIMIT32
    ensures var m := ReadMessage(fields[i].kind.fields, Base(fields[i].kind, dest[i].values), a);
      ReadField(fields, i, 2, dest, Varint(|a|) + a + rest)
      == if m.None? then None else Some((OnlyMember(fields, dest, i)[i := Slot([MessageV(m.value.0)])], rest))
  {
    hide ReadMessage, Substream, Varint, Base, OnlyMember, ReadValue, ReadPacked;
    var kind := fields[i].kind;
    SubstreamRead(a, rest);
    MessageValue(kind, dest[i].values, a, rest);
  }

  lemma MessageValue(kind: Kind, there: seq<Value>, a: seq<Octet>, rest: seq<Octet>)
    requires kind.MessageK? && Substream(Varint(|a|) + a + rest) == Some((a, rest))
    ensures var m := ReadMessage(kind.fields, Base(kind, there), a);
      ReadValue(kind, there, Varint(|a|) + a + rest) == if m.None? then None else Some((MessageV(m.value.0), rest))
  {
    hide ReadMessage, Substream, Varint, Base;
  }

  lemma MessageIsFields(fields: seq<Field>, dest: seq<Slot>, bytes: seq<Octet>)
    requires |dest| == |fields| && ReadMessage(fields, dest, bytes).Some?
    ensures ReadFields(fields, dest, {}, bytes).Some?
    ensures ReadMessage(fields, dest, bytes).value.0 == ReadFields(fields, dest, {}, bytes).value.0
  {
    hide ReadFields, AllRequired;
  }

  /** A message that comes again is merged into the one before: the two are read like one that has the fields of both.
      */
  lemma MessagesMerge(fields: seq<Field>, i: nat, dest: seq<Slot>, a: seq<Octet>, b: seq<Octet>, rest: seq<Octet>)
    requires |dest| == |fields| && i < |fields| && !fields[i].rule.Repeated? && fields[i].kind.MessageK?
    requires |a| < LIMIT32 && |b| < LIMIT32
    requires var sub := fields[i].kind.fields; WholeFields(sub, Base(fields[i].kind, dest[i].values), a)
    requires ReadField(fields, i, 2, dest, Varint(|a|) + a + rest).Some?
    ensures var first := ReadField(fields, i, 2, dest, Varint(|a|) + a + rest).value.0;
      var second := ReadField(fields, i, 2, first, Varint(|b|) + b + rest);
      second.Some? ==>
        && |second.value.0[i].values| == 1 && second.value.0[i].values[0].MessageV?
        && var both := ReadFields(fields[i].kind.fields, Base(fields[i].kind, dest[i].values), {}, a + b);
        both.Some? && both.value.0 == second.value.0[i].values[0].slots
  {
    hide ReadFields, ReadField, ReadMessage, Varint, WholeFields, Base, OnlyMember;
    var kind := fields[i].kind;
    var sub, base := kind.fields, Base(kind, dest[i].values);
    MessageField(fields, i, dest, a, rest);
    MessageIsFields(sub, base, a);
    ReadOn(sub, base, {}, a, b);
    var first := ReadField(fields, i, 2, dest, Varint(|a|) + a + rest).value.0;
    var m := ReadFields(sub, base, {}, a).value;
    assert first[i].values == [MessageV(m.0)];
    assert Base(kind, first[i].values) == m.0 by { BaseIsThere(kind, m.0); }
    MessageField(fields, i, first, b, rest);
    if ReadMessage(sub, m.0, b).Some? {
      MessageIsFields(sub, m.0, b);
      SeenIrrelevant(sub, m.0, {}, m.1, b);
    }
  }

  lemma BaseIsThere(kind: Kind, slots: seq<Slot>)
    requires kind.MessageK? && |slots| == |kind.fields|
    ensures Base(kind, [MessageV(slots)]) == slots
  {
  }

  /** Which fields were met does not change what is read. */
  lemma {:induction false} SeenIrrelevant(fields: seq<Field>, dest: seq<Slot>, seen: set<nat>, seen': set<nat>,
                                          bytes: seq<Octet>)
    requires |dest| == |fields|
    ensures var r, r' := ReadFields(fields, dest, seen, bytes), ReadFields(fields, dest, seen', bytes);
      r.Some? == r'.Some? && (r.Some? ==> r.value.0 == r'.value.0 && r.value.2 == r'.value.2)
    decreases |bytes|
  {
    hide Read32, Skip, ReadField, Find;
    if bytes != [] && Read32(bytes).Some? {
      Read32Shrinks(bytes);
      var t := Read32(bytes).value;
      var i := Find(fields, t.0 / 8, 0);
      if t.0 != 0 && i == |fields| && Skip(t.0 % 8, t.1).Some? {
        SkipShrinks(t.0 % 8, t.1);
        SeenIrrelevant(fields, dest, seen, seen', Skip(t.0 % 8, t.1).value);
      } else if t.0 != 0 && i < |fields| && ReadField(fields, i, t.0 % 8, dest, t.1).Some? {
        var p := ReadField(fields, i, t.0 % 8, dest, t.1).value;
        SeenIrrelevant(fields, p.0, seen + {i}, seen' + {i}, p.1);
      }
    }
  }

  /** An array takes no more values than it has room for. */
  lemma ArrayIsFull(fields: seq<Field>, i: nat, wire: nat, dest: seq<Slot>, bytes: seq<Octet>)
    requires |dest| == |fields| && i < |fields| && fields[i].rule.Repeated? && |dest[i].values| >= fields[i].rule.max
    requires wire != 2 || !Packable(fields[i].kind)
    ensures ReadField(fields, i, wire, dest, bytes) == None
  {
  }

  // ---------------------------------------------------------------------------------------------------------
  // Numbers that do not fit
  // ---------------------------------------------------------------------------------------------------------

  /** An unsigned number is accepted exactly if the field is wide enough. */
  lemma UnsignedFits(size: nat, n: nat, rest: seq<Octet>)
    requires (size == 1 || size == 2 || size == 4 || size == 8) && n < LIMIT64
    ensures ReadScalar(UIntK(size), Varint(n) + rest)
         == if size == 8 || n < (if size == 1 then 256 else if size == 2 then 65536 else 4294967296)
            then Some((NumV(n), rest)) else None
  {
    hide Varint, ReadVarint64;
    Varint64RoundTrip(n, rest);
  }

  /** A byte string is accepted exactly if there is room for it. */
  lemma BytesFit(max: nat, b: seq<Octet>, rest: seq<Octet>)
    requires |b| < LIMIT32
    ensures ReadScalar(BytesK(max), Varint(|b|) + b + rest) == if |b| <= max then Some((BytesV(b), rest)) else None
  {
    hide Varint, Read32;
    if |b| <= max {
      StringRoundTrip(b, max, rest);
    } else {
      Read32RoundTrip(|b|, b + rest);
      assert Varint(|b|) + b + rest == Varint(|b|) + (b + rest);
    }
  }

  /** One more byte of a varint below 32 bits. */
  lemma MoreStep(m: nat, bitpos: nat, result: nat, rest: seq<Octet>)
    requires 128 <= m && bitpos < 32
    ensures Read32More(Varint(m) + rest, bitpos, result)
         == Read32More(Varint(m / 128) + rest, bitpos + 7, (result + (m % 128) * Pow2(bitpos)) % LIMIT32)
  {
    hide Varint, Weighted;
    VarintParts(m, rest);
    var bytes := Varint(m) + rest;
    assert bytes[0] % 128 == m % 128;
    assert Weighted(bytes[0], bitpos) == (m % 128) * Pow2(bitpos) by { WeightOf(bytes[0], m, bitpos); }
    hide Pow2;
    assert bytes[0] >= 128 && bytes[1..] == Varint(m / 128) + rest;
  }

  lemma WeightOf(b: Octet, m: nat, bitpos: nat)
    requires b % 128 == m % 128
    ensures Weighted(b, bitpos) == (m % 128) * Pow2(bitpos)
  {
    hide Pow2;
  }

  /** From the sixth byte on each byte is empty or full, and the tenth is one. */
  ghost predicate SignLike(m: nat, bitpos: nat)
    decreases if bitpos < 63 then 63 - bitpos else 0
  {
    if bitpos >= 63 then m == 1 else (m % 128 == 0 || m % 128 == 127) && SignLike(m / 128, bitpos + 7)
  }

  lemma {:induction false} ZeroIsNot(bitpos: nat)
    ensures !SignLike(0, bitpos)
    decreases if bitpos < 63 then 63 - bitpos else 0
  {
    if bitpos < 63 {
      ZeroIsNot(bitpos + 7);
    }
  }

  /** Beyond 32 bits only such bytes are accepted, and only after a sign bit. */
  lemma {:induction false} Beyond(m: nat, bitpos: nat, result: nat, rest: seq<Octet>)
    requires 35 <= bitpos <= 63 && bitpos % 7 == 0 && 0 < m < Pow2(64 - bitpos)
    ensures Read32More(Varint(m) + rest, bitpos, result)
         == if result >= 0x8000_0000 && SignLike(m, bitpos) then Some((result, rest)) else None
    decreases m
  {
    hide Varint, Weighted;
    VarintParts(m, rest);
    if bitpos == 63 {
      assert m == 1;
    } else if m < 128 {
      ZeroIsNot(bitpos + 7);
    } else {
      Pow2Add(7, 57 - bitpos);
      assert Pow2(7) == 128;
      Beyond(m / 128, bitpos + 7, result, rest);
    }
  }

  lemma Digit(m: nat) returns (d: nat, more: nat)
    ensures d < 128 && m == d + 128 * more && d == m % 128 && more == m / 128
  {
    d, more := m % 128, m / 128;
  }

  lemma NextDigit(m: nat, d: nat, more: nat, bitpos: nat, weight: nat, result: nat, rest: seq<Octet>)
    requires m == d + 128 * more && d == m % 128 && more == m / 128 && more > 0
    requires bitpos < 32 && Pow2(bitpos) == weight && result + d * weight < LIMIT32
    ensures Read32More(Varint(m) + rest, bitpos, result)
      == Read32More(Varint(more) + rest, bitpos + 7, result + d * weight)
  {
    hide Varint, Pow2, Read32More;
    MoreStep(m, bitpos, result, rest);
  }

  /** The fifth byte: its upper three bits are above 32 bits, and are dropped if another byte follows. */
  lemma FifthDigit(m: nat, result: nat, rest: seq<Octet>)
    requires 16 <= m && result < 268435456
    ensures Read32More(Varint(m) + rest, 28, result)
         == if m < 128 then None
            else Read32More(Varint(m / 128) + rest, 35, (result + (m % 128) * 268435456) % LIMIT32)
  {
    hide Varint, Pow2, Weighted;
    SmallPowers();
    VarintParts(m, rest);
    if m >= 128 {
      MoreStep(m, 28, result, rest);
    }
  }

  /** Exactly which numbers of up to 64 bits are accepted as 32-bit numbers: those below 32 bits, and those with the
      sign bit of 32 bits, anything in the three bits above it, and only empty or full bytes after that. */
  lemma ReadsExactly(n: nat, rest: seq<Octet>)
    requires n < LIMIT64
    ensures Read32(Varint(n) + rest)
         == if n < LIMIT32 then Some((n, rest))
            else if n % LIMIT32 >= 0x8000_0000 && SignLike(n / 0x8_0000_0000, 35) then Some((n % LIMIT32, rest))
            else None
  {
    hide Varint, Read32, Read32More, SignLike;
    if n < LIMIT32 {
      Read32RoundTrip(n, rest);
    } else {
      var r, m4 := FourDigits(n, rest);
      var d4, m5 := Digit(m4);
      FifthDigit(m4, r, rest);
      UpperPart(n, r + d4 * 268435456, m5);
      if m4 < 128 {
        ZeroIsNot(35);
      } else {
        assert Pow2(29) == 0x2000_0000 by { SmallPowers(); }
        Beyond(m5, 35, n % LIMIT32, rest);
      }
    }
  }

  lemma FourDigits(n: nat, rest: seq<Octet>) returns (r: nat, m4: nat)
    requires LIMIT32 <= n < LIMIT64
    ensures n == r + 268435456 * m4 && r < 268435456 && 16 <= m4
    ensures Read32(Varint(n) + rest) == Read32More(Varint(m4) + rest, 28, r)
  {
    hide Varint, Read32More, Pow2;
    SmallPowers();
    VarintParts(n, rest);
    var d0, m1 := Digit(n);
    var d1, m2 := Digit(m1);
    var d2, m3 := Digit(m2);
    var d3;
    d3, m4 := Digit(m3);
    r := d0 + d1 * 128 + d2 * 16384 + d3 * 2097152;
    NextDigit(m1, d1, m2, 7, 128, d0, rest);
    NextDigit(m2, d2, m3, 14, 16384, d0 + d1 * 128, rest);
    NextDigit(m3, d3, m4, 21, 2097152, d0 + d1 * 128 + d2 * 16384, rest);
  }

  lemma UpperPart(n: nat, low: nat, m: nat)
    requires n == low + 0x8_0000_0000 * m && low < 0x8_0000_0000
    ensures n / 0x8_0000_0000 == m && low % LIMIT32 == n % LIMIT32
  {
    Remainder(n, m, low);
    var k, r := low / LIMIT32, low % LIMIT32;
    Rest32(low, k, r);
    Rest32(n, k + 8 * m, r);
  }

  lemma Remainder(n: nat, m: nat, low: nat)
    requires n == low + 0x8_0000_0000 * m && low < 0x8_0000_0000
    ensures n / 0x8_0000_0000 == m
  {
  }

  lemma Rest32(n: nat, k: nat, r: nat)
    requires n == LIMIT32 * k + r && r < LIMIT32
    ensures n % LIMIT32 == r
  {
  }

  /** A negative 32-bit number, which is written in 64 bits, is a 32-bit number with the sign bit set. */
  lemma SignExtended(n: nat, rest: seq<Octet>)
    requires 0xffff_ffff_8000_0000 <= n < LIMIT64
    ensures Read32(Varint(n) + rest) == Some((n - 0xffff_ffff_0000_0000, rest))
  {
    assert SignLike(0x1fff_ffff, 35) by { FullIsSignLike(); }
    hide Varint, Read32More, SignLike;
    ReadsExactly(n, rest);
    assert n / 0x8_0000_0000 == 0x1fff_ffff && n % LIMIT32 == n - 0xffff_ffff_0000_0000;
  }

  lemma FullIsSignLike()
    ensures SignLike(0x1fff_ffff, 35)
  {
    assert SignLike(1, 63) && SignLike(0xff, 56) && SignLike(0x7fff, 49) && SignLike(0x3f_ffff, 42);
  }

  /** But so is a number with only the lowest and the highest of the bits that a sign would fill. */
  lemma SomeOverflowsPass(rest: seq<Octet>)
    ensures Read32(Varint(0x8000_0000_8000_0000) + rest) == Some((0x8000_0000, rest))
  {
    assert SignLike(1, 63) && SignLike(0x80, 56) && SignLike(0x4000, 49) && SignLike(0x20_0000, 42);
    assert SignLike(0x1000_0000, 35);
    hide Varint, Read32More, SignLike;
    ReadsExactly(0x8000_0000_8000_0000, rest);
  }

  lemma SmallPowers()
    ensures Pow2(7) == 128 && Pow2(14) == 16384 && Pow2(21) == 2097152 && Pow2(28) == 268435456
      && Pow2(29) == 0x2000_0000
  {
    assert Pow2(7) == 128;
    Pow2Add(7, 7);
    Pow2Add(7, 14);
    Pow2Add(7, 21);
    assert Pow2(29) == 2 * Pow2(28);
  }

  /** A signed number that is not zigzag keeps its lower 32 bits, or all 64 in a field of eight bytes, and is accepted
      exactly if the field is wide enough for what they mean. */
  lemma SignedFits(size: nat, n: nat, m: int, rest: seq<Octet>)
    requires (size == 1 || size == 2 || size == 4 || size == 8) && n < LIMIT64
    requires if size == 8 then -0x8000_0000_0000_0000 <= m < 0x8000_0000_0000_0000 && (n == m || n == m + LIMIT64)
             else -0x8000_0000 <= m < 0x8000_0000 && (n - m) % LIMIT32 == 0
    ensures ReadScalar(IntK(size), Varint(n) + rest)
         == if (size == 1 ==> -128 <= m < 128) && (size == 2 ==> -32768 <= m < 32768) then Some((NumV(m), rest))
           else None
  {
    hide Varint, ReadVarint64, Signed;
    Varint64RoundTrip(n, rest);
    assert Signed(n, if size == 8 then Half(8) else Half(4)) == m by { LowerBits(size, n, m); }
  }

  lemma LowerBits(size: nat, n: nat, m: int)
    requires n < LIMIT64
    requires if size == 8 then -0x8000_0000_0000_0000 <= m < 0x8000_0000_0000_0000 && (n == m || n == m + LIMIT64)
             else -0x8000_0000 <= m < 0x8000_0000 && (n - m) % LIMIT32 == 0
    ensures Signed(n, if size == 8 then Half(8) else Half(4)) == m
  {
    if size != 8 {
      LowerHalf(n, m);
    }
  }

  lemma LowerHalf(n: nat, m: int)
    requires -0x8000_0000 <= m < 0x8000_0000 && (n - m) % LIMIT32 == 0
    ensures n % LIMIT32 == if m < 0 then m + LIMIT32 else m
  {
  }

  /** A zigzag number is accepted exactly if the field is wide enough. */
  lemma ZigZagFits(size: nat, m: int, rest: seq<Octet>)
    requires (size == 1 || size == 2 || size == 4 || size == 8) && -0x8000_0000_0000_0000 <= m < 0x8000_0000_0000_0000
    ensures ReadScalar(SIntK(size), Varint(ZigZag(m)) + rest)
         == if (size == 1 ==> -128 <= m < 128) && (size == 2 ==> -32768 <= m < 32768)
               && (size == 4 ==> -0x8000_0000 <= m < 0x8000_0000) then Some((NumV(m), rest)) else None
  {
    hide Varint, ReadVarint64, ZigZag, UnZigZag;
    assert ZigZag(m) < LIMIT64 && UnZigZag(ZigZag(m)) == m by { ZigZagBack(m); }
    Varint64RoundTrip(ZigZag(m), rest);
  }

  lemma ZigZagBack(m: int)
    requires -0x8000_0000_0000_0000 <= m < 0x8000_0000_0000_0000
    ensures ZigZag(m) < LIMIT64 && UnZigZag(ZigZag(m)) == m
  {
  }

  /** Integers of other sizes are refused. */
  lemma InvalidSize(size: nat, bytes: seq<Octet>)
    requires size != 1 && size != 2 && size != 4 && size != 8
    ensures ReadScalar(IntK(size), bytes) == ReadScalar(UIntK(size), bytes) == ReadScalar(SIntK(size), bytes) == None
  {
    hide ReadVarint64;
  }

  /** Without its bytes a required field is zero, false or empty, and every other field is absent. */
  lemma DefaultsAreZero(f: Field)
    ensures !f.rule.Required? ==> DefaultSlot(f) == Slot([])
    ensures f.rule.Required? && !f.kind.MessageK? ==>
      var v := DefaultSlot(f).values;
      v == [BoolV(false)] || v == [NumV(0)] || v == [BytesV([])]
    ensures f.rule.Required? && f.kind.MessageK? ==> DefaultSlot(f) == Slot([MessageV(Defaults(f.kind.fields))])
  {
  }

  // ---------------------------------------------------------------------------------------------------------
  // The examples of the specification
  // ---------------------------------------------------------------------------------------------------------

  lemma VarintLiterals()
    ensures Varint(150) == [0x96, 0x01] && Varint(270) == [0x8e, 0x02] && Varint(86942) == [0x9e, 0xa7, 0x05]
    ensures forall n: nat :: n < 128 ==> Varint(n) == [n]
  {
    assert Varint(1) == [1] && Varint(2) == [2] && Varint(5) == [5];
    assert Varint(679) == [0xa7] + Varint(5);
    assert Varint(86942) == [0x9e] + Varint(679);
  }

  /** One number: field 1 with the value 150. */
  lemma NumberExample()
    ensures MessageBytes([Field(1, Required, IntK(4))], MessageV([Slot([NumV(150)])]), 0) == [0x08, 0x96, 0x01]
  {
    var f, v := Field(1, Required, IntK(4)), MessageV([Slot([NumV(150)])]);
    VarintLiterals();
    hide Varint;
    assert ValuesBytes(f, false, v, 0, 1) == [];
    assert ValuesBytes(f, false, v, 0, 0) == [0x08] + ([0x96, 0x01] + []);
    assert MessageBytes([f], v, 1) == [];
    assert MessageBytes([f], v, 0) == SlotBytes(f, v, 0) + MessageBytes([f], v, 1);
  }

  /** A string: field 2 with the value "testing". */
  lemma StringExample()
    ensures var text := [0x74, 0x65, 0x73, 0x74, 0x69, 0x6e, 0x67];
      SlotBytes(Field(2, Optional, StringK(8)), MessageV([Slot([BytesV(text)])]), 0) == [0x12, 0x07] + text
  {
    var text := [0x74, 0x65, 0x73, 0x74, 0x69, 0x6e, 0x67];
    var f, v := Field(2, Optional, StringK(8)), MessageV([Slot([BytesV(text)])]);
    VarintLiterals();
    hide Varint;
    assert ValuesBytes(f, false, v, 0, 1) == [];
    assert ValuesBytes(f, false, v, 0, 0) == [0x12] + (([0x07] + text) + []);
  }

  /** A packed array: field 4 with the values 3, 270 and 86942. */
  lemma PackedExample()
    ensures SlotBytes(Field(4, Repeated(3), UIntK(4)), MessageV([Slot([NumV(3), NumV(270), NumV(86942)])]), 0)
         == [0x22, 0x06, 0x03, 0x8e, 0x02, 0x9e, 0xa7, 0x05]
  {
    var f, v := Field(4, Repeated(3), UIntK(4)), MessageV([Slot([NumV(3), NumV(270), NumV(86942)])]);
    VarintLiterals();
    hide Varint;
    assert ValuesBytes(f, true, v, 0, 3) == [];
    assert ValuesBytes(f, true, v, 0, 2) == [0x9e, 0xa7, 0x05];
    assert ValuesBytes(f, true, v, 0, 1) == [0x8e, 0x02, 0x9e, 0xa7, 0x05];
    assert ValuesBytes(f, true, v, 0, 0) == [0x03, 0x8e, 0x02, 0x9e, 0xa7, 0x05];
  }

  /** Wire types and first bytes of the other kinds, for field 1. */
  lemma TagExamples()
    ensures TagBytes(1, WireType(Fixed64K)) == [0x09] && TagBytes(1, WireType(Fixed32K)) == [0x0d]
    ensures TagBytes(1, WireType(BytesK(4))) == [0x0a] && TagBytes(1, WireType(MessageK([]))) == [0x0a]
    ensures TagBytes(1, WireType(BoolK)) == TagBytes(1, WireType(UIntK(4))) == TagBytes(1, WireType(SIntK(4))) == [0x08]
  {
    VarintLiterals();
    hide Varint;
  }

  /** Signed numbers: zigzag for sint fields, two's complement in 64 bits for the others. */
  lemma SignedExamples()
    ensures ZigZag(0) == 0 && ZigZag(-1) == 1 && ZigZag(1) == 2 && ZigZag(-2) == 3
    ensures ZigZag(0x7fff_ffff) == 0xffff_fffe && ZigZag(-0x8000_0000) == 0xffff_ffff
    ensures Unsigned(-1) == 0xffff_ffff_ffff_ffff && Unsigned(-2) == 0xffff_ffff_ffff_fffe
  {
  }

  // ---------------------------------------------------------------------------------------------------------
  // What the encoder refuses
  // ---------------------------------------------------------------------------------------------------------

  lemma {:induction false} SlotAllowed(fields: seq<Field>, v: Value, k: nat, i: nat)
    requires v.MessageV? && |v.slots| == |fields| && k <= i < |fields| && AllowedFrom(fields, v, k)
    ensures AllowedSlot(fields[i], v, i)
    decreases i - k
  {
    hide AllowedSlot;
    if k < i {
      SlotAllowed(fields, v, k + 1, i);
    }
  }

  lemma {:induction false} ValueAllowed(f: Field, v: Value, i: nat, n: nat, j: nat)
    requires v.MessageV? && i < |v.slots| && n <= j < |v.slots[i].values| && AllowedValues(f, v, i, n)
    ensures Allowed(f.kind, v.slots[i].values[j])
    decreases j - n
  {
    hide Allowed;
    if n < j {
      ValueAllowed(f, v, i, n + 1, j);
    }
  }

  /** No array with more values than it has room for, and no byte string longer than its room, is encoded. */
  lemma TooLongIsRefused(fields: seq<Field>, v: Value, i: nat)
    requires v.MessageV? && |v.slots| == |fields| && i < |fields| && AllowedFrom(fields, v, 0)
    ensures fields[i].rule.Repeated? ==> |v.slots[i].values| <= fields[i].rule.max
    ensures forall j :: 0 <= j < |v.slots[i].values| && fields[i].kind.BytesK? ==>
      v.slots[i].values[j].BytesV? && |v.slots[i].values[j].bytes| <= fields[i].kind.max
  {
    SlotAllowed(fields, v, 0, i);
    forall j | 0 <= j < |v.slots[i].values| && fields[i].kind.BytesK?
      ensures v.slots[i].values[j].BytesV? && |v.slots[i].values[j].bytes| <= fields[i].kind.max
    {
      ValueAllowed(fields[i], v, i, 0, j);
    }
  }
}
