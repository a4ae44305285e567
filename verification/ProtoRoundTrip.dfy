/** Decoding what was encoded gives the message back. */
module ProtoRoundTrip {
  import opened Views
  import opened Coding
  import opened ProtoMessages
  import opened ProtoDecoding

  /** The destination when the fields before `k` and `n` values of field `k` have been read. */
  function Progress(fields: seq<Field>, v: Value, k: nat, n: nat): (r: seq<Slot>)
    requires v.MessageV? && |v.slots| == |fields| && (k < |fields| ==> n <= |v.slots[k].values|)
    ensures |r| == |fields|
  {
    seq(|fields|, i requires 0 <= i < |fields| =>
      if i < k then v.slots[i] else if i == k && n > 0 then Slot(v.slots[k].values[..n]) else DefaultSlot(fields[i]))
  }

  lemma ProgressSlot(fields: seq<Field>, v: Value, k: nat)
    requires v.MessageV? && GoodMessage(fields, v) && k < |fields|
    ensures Progress(fields, v, k, |v.slots[k].values|) == Progress(fields, v, k + 1, 0)
  {
    hide GoodValue, GoodUnions, DefaultValue;
    var n := |v.slots[k].values|;
    assert v.slots[k].values[..n] == v.slots[k].values;
    assert GoodCount(fields[k].rule, n);
    assert n == 0 ==> v.slots[k] == DefaultSlot(fields[k]);
  }

  lemma TagRead(tag: nat, wire: nat, rest: seq<Octet>)
    requires 0 < tag < 0x2000_0000 && wire < 8
    ensures Read32(TagBytes(tag, wire) + rest) == Some((8 * tag + wire, rest)) && (8 * tag + wire) / 8 == tag
      && (8 * tag + wire) % 8 == wire
    ensures TagBytes(tag, wire) != []
  {
    hide Varint, Read32;
    Read32RoundTrip(8 * tag + wire, rest);
  }

  lemma FindTag(fields: seq<Field>, k: nat)
    requires GoodTags(fields) && k < |fields|
    ensures Find(fields, fields[k].tag, 0) == k
  {
  }

  /** A tagged field is read and reading goes on. */
  lemma FieldRead(fields: seq<Field>, k: nat, wire: nat, dest: seq<Slot>, seen: set<nat>, body: seq<Octet>)
    requires GoodTags(fields) && |dest| == |fields| && k < |fields| && wire < 8
    requires ReadField(fields, k, wire, dest, body).Some?
    ensures var p := ReadField(fields, k, wire, dest, body).value;
      ReadFields(fields, dest, seen, TagBytes(fields[k].tag, wire) + body) == ReadFields(fields, p.0, seen + {k}, p.1)
  {
    hide ReadField, Read32, Find, TagBytes, Skip;
    TagRead(fields[k].tag, wire, body);
    FindTag(fields, k);
  }

  lemma MemberAlone(fields: seq<Field>, v: Value, k: nat)
    requires v.MessageV? && GoodMessage(fields, v) && k < |fields| && !fields[k].rule.Repeated?
      && |v.slots[k].values| == 1
    ensures OnlyMember(fields, Progress(fields, v, k, 0), k) == Progress(fields, v, k, 0)
  {
    hide GoodValue, DefaultValue, GoodCount;
    var dest := Progress(fields, v, k, 0);
    forall j | 0 <= j < |fields| && j != k && fields[j].rule.Oneof? && fields[j].rule == fields[k].rule
      ensures dest[j] == Slot([])
    {
      assert j < k ==> v.slots[j].values == [];
    }
  }

  /** What the value is decoded into is fresh. */
  lemma BaseIsFresh(fields: seq<Field>, v: Value, k: nat)
    requires v.MessageV? && |v.slots| == |fields| && k < |fields| && fields[k].kind.MessageK?
    ensures Base(fields[k].kind, Progress(fields, v, k, 0)[k].values) == Defaults(fields[k].kind.fields)
    ensures Base(fields[k].kind, []) == Defaults(fields[k].kind.fields)
  {
    if fields[k].rule.Required? {
      assert DefaultValue(fields[k].kind).slots == Defaults(fields[k].kind.fields);
    }
  }

  /** One value of field `k`, with its own tag. */
  lemma ValueRead(fields: seq<Field>, v: Value, k: nat, n: nat, rest: seq<Octet>)
    requires v.MessageV? && GoodMessage(fields, v) && k < |fields| && n < |v.slots[k].values|
    requires !(fields[k].rule.Repeated? && Packable(fields[k].kind))
    requires var f := fields[k];
      forall there :: (f.kind.MessageK? ==> Base(f.kind, there) == Defaults(f.kind.fields)) ==>
        ReadValue(f.kind, there, ValueBytes(f.kind, v.slots[k].values[n]) + rest) == Some((v.slots[k].values[n], rest))
    ensures ReadField(fields, k, WireType(fields[k].kind), Progress(fields, v, k, n),
                      ValueBytes(fields[k].kind, v.slots[k].values[n]) + rest)
      == Some((Progress(fields, v, k, n + 1), rest))
  {
    hide ReadValue, ValueBytes, GoodValue, GoodUnions, DefaultValue, Base, Defaults, ReadPacked, Substream, DefaultSlot;
    var f, dest, next := fields[k], Progress(fields, v, k, n), Progress(fields, v, k, n + 1);
    var values := v.slots[k].values;
    assert GoodCount(f.rule, |values|);
    if f.kind.MessageK? {
      BaseIsFresh(fields, v, k);
    }
    if f.rule.Repeated? {
      assert dest[k].values == values[..n] by {
        if n == 0 { EmptyDefault(f); }
      }
      assert values[..n] + [values[n]] == values[..n + 1];
      assert dest[k := Slot(values[..n + 1])] == next;
    } else {
      MemberAlone(fields, v, k);
      assert values[..n + 1] == [values[n]];
      assert dest[k := Slot([values[n]])] == next;
    }
  }

  lemma EmptyDefault(f: Field)
    ensures !f.rule.Required? ==> DefaultSlot(f) == Slot([])
  {
  }

  lemma {:induction false} ValueRoundTrip(kind: Kind, v: Value, there: seq<Value>, rest: seq<Octet>)
    requires GoodKind(kind) && GoodValue(kind, v) && |ValueBytes(kind, v)| < LIMIT32
    requires kind.MessageK? ==> Base(kind, there) == Defaults(kind.fields)
    ensures ReadValue(kind, there, ValueBytes(kind, v) + rest) == Some((v, rest))
    decreases v, 4
  {
    if kind.MessageK? {
      hide GoodValue, ReadScalar, Defaults, Base, Read32, Varint, MessageBytes;
      var body := MessageBytes(kind.fields, v, 0);
      assert ValueBytes(kind, v) == Varint(|body|) + body;
      MessageRoundTrip(kind.fields, v);
      SubstreamRead(body, rest);
    } else {
      hide ReadScalar, ValueBytes;
      ScalarRoundTrip(kind, v, rest);
    }
  }

  lemma SubstreamRead(body: seq<Octet>, rest: seq<Octet>)
    requires |body| < LIMIT32
    ensures Substream(Varint(|body|) + body + rest) == Some((body, rest))
  {
    hide Varint, Read32;
    Read32RoundTrip(|body|, body + rest);
    assert Varint(|body|) + body + rest == Varint(|body|) + (body + rest);
    assert (body + rest)[..|body|] == body && (body + rest)[|body|..] == rest;
  }

  /** The values of field `k` from `n` on, each with its tag. */
  lemma {:induction false} ValuesLoop(fields: seq<Field>, v: Value, k: nat, n: nat, seen: set<nat>, rest: seq<Octet>)
    requires v.MessageV? && GoodTags(fields) && (forall i :: 0 <= i < |fields| ==> GoodKind(fields[i].kind))
      && GoodMessage(fields, v)
    requires k < |fields| && n <= |v.slots[k].values| && !(fields[k].rule.Repeated? && Packable(fields[k].kind))
    requires |ValuesBytes(fields[k], false, v, k, n)| < LIMIT32
    ensures ReadFields(fields, Progress(fields, v, k, n), seen, ValuesBytes(fields[k], false, v, k, n) + rest)
      == ReadFields(fields, Progress(fields, v, k + 1, 0), if n < |v.slots[k].values| then seen + {k} else seen, rest)
    decreases v, 1, |v.slots[k].values| - n
  {
    hide ReadFields, ReadField, ReadValue, ValueBytes, TagBytes, GoodTags, GoodKind, Base, Defaults;
    var f, count := fields[k], |v.slots[k].values|;
    if n == count {
      assert ValuesBytes(f, false, v, k, n) + rest == rest;
      ProgressSlot(fields, v, k);
    } else {
      var x := v.slots[k].values[n];
      var more := ValuesBytes(f, false, v, k, n + 1);
      var tag := TagBytes(f.tag, WireType(f.kind));
      assert ValuesBytes(f, false, v, k, n) + rest == tag + (ValueBytes(f.kind, x) + (more + rest));
      assert GoodValue(f.kind, x);
      forall there | f.kind.MessageK? ==> Base(f.kind, there) == Defaults(f.kind.fields)
        ensures ReadValue(f.kind, there, ValueBytes(f.kind, x) + (more + rest)) == Some((x, more + rest))
      {
        ValueRoundTrip(f.kind, x, there, more + rest);
      }
      hide GoodMessage;
      ValueRead(fields, v, k, n, more + rest);
      FieldRead(fields, k, WireType(f.kind), Progress(fields, v, k, n), seen, ValueBytes(f.kind, x) + (more + rest));
      ValuesLoop(fields, v, k, n + 1, seen + {k}, rest);
      assert seen + {k} + {k} == seen + {k};
    }
  }

  /** Decoding the bytes of a well-formed message succeeds, consumes all of them and restores every field. */
  lemma {:induction false} MessageRoundTrip(fields: seq<Field>, v: Value)
    requires v.MessageV? && GoodTags(fields) && (forall i :: 0 <= i < |fields| ==> GoodKind(fields[i].kind))
      && GoodMessage(fields, v)
    requires |MessageBytes(fields, v, 0)| < LIMIT32
    ensures ReadMessage(fields, Defaults(fields), MessageBytes(fields, v, 0)) == Some((v.slots, []))
    decreases v, 3
  {
    hide ReadFields, MessageBytes, GoodTags, GoodKind, GoodValue, GoodUnions;
    assert Defaults(fields) == Progress(fields, v, 0, 0);
    MessageLoop(fields, v, 0, {});
    var p := ReadFields(fields, Defaults(fields), {}, MessageBytes(fields, v, 0)).value;
    forall i | 0 <= i < |fields| && fields[i].rule.Required?
      ensures i in p.1
    {
      assert GoodCount(fields[i].rule, |v.slots[i].values|);
    }
  }

  /** Reading the fields from `k` on completes the message and meets exactly the fields that have a value. */
  lemma {:induction false} MessageLoop(fields: seq<Field>, v: Value, k: nat, seen: set<nat>)
    requires v.MessageV? && GoodTags(fields) && (forall i :: 0 <= i < |fields| ==> GoodKind(fields[i].kind))
      && GoodMessage(fields, v)
    requires k <= |fields| && |MessageBytes(fields, v, k)| < LIMIT32
    ensures var r := ReadFields(fields, Progress(fields, v, k, 0), seen, MessageBytes(fields, v, k));
      && r.Some? && r.value.0 == v.slots && r.value.2 == []
      && forall i :: i in r.value.1 <==> i in seen || (k <= i < |fields| && v.slots[i].values != [])
    decreases v, 2, |fields| - k
  {
    hide ReadField, SlotBytes, GoodTags, GoodKind, GoodMessage, Read32, Skip, Find, DefaultSlot;
    assert |v.slots| == |fields| by { Shape(fields, v); }
    if k == |fields| {
      assert MessageBytes(fields, v, k) == [];
      assert Progress(fields, v, k, 0) == v.slots;
    } else {
      hide ReadFields;
      var rest := MessageBytes(fields, v, k + 1);
      var seen' := if v.slots[k].values != [] then seen + {k} else seen;
      SlotLoop(fields, v, k, seen, rest);
      MessageLoop(fields, v, k + 1, seen');
    }
  }

  lemma Shape(fields: seq<Field>, v: Value)
    requires v.MessageV? && GoodMessage(fields, v)
    ensures |v.slots| == |fields|
  {
    hide GoodValue, GoodUnions, GoodCount;
  }

  lemma {:induction false} SlotLoop(fields: seq<Field>, v: Value, k: nat, seen: set<nat>, rest: seq<Octet>)
    requires v.MessageV? && GoodTags(fields) && (forall i :: 0 <= i < |fields| ==> GoodKind(fields[i].kind))
      && GoodMessage(fields, v)
    requires k < |fields| && |SlotBytes(fields[k], v, k)| < LIMIT32
    ensures ReadFields(fields, Progress(fields, v, k, 0), seen, SlotBytes(fields[k], v, k) + rest)
      == ReadFields(fields, Progress(fields, v, k + 1, 0), if v.slots[k].values != [] then seen + {k} else seen, rest)
    decreases v, 2, 0
  {
    hide ReadFields, ValuesBytes, GoodTags, GoodKind, TagBytes, Varint, GoodMessage;
    var f := fields[k];
    if f.rule.Repeated? && Packable(f.kind) {
      PackedSlot(fields, v, k, seen, rest);
    } else {
      ValuesLoop(fields, v, k, 0, seen, rest);
    }
  }

  /** A packed array: one tag, one length, and the values. */
  lemma PackedSlot(fields: seq<Field>, v: Value, k: nat, seen: set<nat>, rest: seq<Octet>)
    requires v.MessageV? && GoodTags(fields) && GoodMessage(fields, v)
    requires k < |fields| && |SlotBytes(fields[k], v, k)| < LIMIT32 && fields[k].rule.Repeated?
      && Packable(fields[k].kind)
    ensures ReadFields(fields, Progress(fields, v, k, 0), seen, SlotBytes(fields[k], v, k) + rest)
      == ReadFields(fields, Progress(fields, v, k + 1, 0), if v.slots[k].values != [] then seen + {k} else seen, rest)
  {
    hide ReadFields, ValuesBytes, GoodTags, TagBytes, Varint, ReadPacked, Substream, GoodValue, GoodUnions, ReadValue;
    var f, values := fields[k], v.slots[k].values;
    ProgressSlot(fields, v, k);
    if values == [] {
      assert SlotBytes(f, v, k) + rest == rest;
    } else {
      var body := ValuesBytes(f, true, v, k, 0);
      var dest := Progress(fields, v, k, 0);
      var framed := Varint(|body|) + body + rest;
      assert SlotBytes(f, v, k) + rest == TagBytes(f.tag, WT_STRING) + framed;
      SubstreamRead(body, rest);
      assert GoodCount(f.rule, |values|);
      PackedLoop(f, v, k, 0);
      assert values[..0] == [];
      assert dest[k].values == [];
      assert dest[k := Slot(values)] == Progress(fields, v, k + 1, 0);
      assert ReadField(fields, k, WT_STRING, dest, framed) == Some((Progress(fields, v, k + 1, 0), rest));
      FieldRead(fields, k, WT_STRING, dest, seen, framed);
    }
  }

  lemma {:induction false} PackedLoop(f: Field, v: Value, k: nat, n: nat)
    requires v.MessageV? && k < |v.slots| && n <= |v.slots[k].values| && f.rule.Repeated? && Packable(f.kind)
      && |v.slots[k].values| <= f.rule.max
    requires forall j :: 0 <= j < |v.slots[k].values| ==> GoodValue(f.kind, v.slots[k].values[j])
    requires |ValuesBytes(f, true, v, k, n)| < LIMIT32
    ensures ReadPacked(f.kind, f.rule.max, v.slots[k].values[..n], ValuesBytes(f, true, v, k, n))
      == Some(v.slots[k].values)
    decreases |v.slots[k].values| - n
  {
    hide GoodValue, ReadScalar, ValueBytes, TagBytes;
    var values := v.slots[k].values;
    if n == |values| {
      assert values[..n] == values;
    } else {
      var more := ValuesBytes(f, true, v, k, n + 1);
      var bytes := ValuesBytes(f, true, v, k, n);
      assert bytes == ValueBytes(f.kind, values[n]) + more;
      ScalarRoundTrip(f.kind, values[n], more);
      ScalarShrinks(f.kind, bytes);
      assert values[..n] + [values[n]] == values[..n + 1];
      PackedLoop(f, v, k, n + 1);
    }
  }

  /** A string that fills its array is encoded, but the decoder wants room for a terminator: it is read back exactly
      when it is shorter than the array. */
  lemma StringNeedsRoom(b: seq<Octet>, size: nat, rest: seq<Octet>)
    requires |b| <= size && |b| < LIMIT32 && NoZero(b)
    ensures ReadValue(StringK(size), [], ValueBytes(StringK(size), BytesV(b)) + rest)
      == if |b| < size then Some((BytesV(b), rest)) else None
  {
    hide Varint, Read32;
    if |b| < size {
      StringRoundTrip(b, size - 1, rest);
    } else {
      Read32RoundTrip(|b|, b + rest);
      assert Varint(|b|) + b + rest == Varint(|b|) + (b + rest);
    }
  }
}
