/** Reading blocks: the iterator that seeks by restart points and steps both ways (table/block.cc). */
module Blocks {
  import opened Views
  import opened Coding
  import opened BlockFormat

  // ---------------------------------------------------------------------------------------------------------
  // The trailer
  // ---------------------------------------------------------------------------------------------------------

  ghost predicate GoodPairs(es: seq<Pair>) {
    forall i :: 0 <= i < |es| ==> |es[i].key| < LIMIT32 && |es[i].value| < LIMIT32
  }

  /** The contents are what a builder produced, and 32-bit offsets reach all of them. */
  ghost predicate BuiltFrom(contents: seq<Octet>, es: seq<Pair>, interval: nat) {
    contents == BlockBytes(es, interval) && |contents| < LIMIT32 && GoodPairs(es)
  }

  function RestartPoint(contents: seq<Octet>, restarts: nat, k: nat): nat
    requires restarts + 4 * k + 4 <= |contents|
  {
    Number(contents[restarts + 4 * k..restarts + 4 * k + 4])
  }

  lemma SmallRestarts(es: seq<Pair>, interval: nat, k: nat)
    requires k < |RestartEntries(interval, |es|)|
    ensures var starts := RestartEntries(interval, |es|);
      RestartOffsets(es, interval, |es|)[k] == Offset(es, interval, starts[k]) <= Offset(es, interval, |es|)
  {
    hide Data, RestartEntries;
    DataPrefix(es, interval, RestartEntries(interval, |es|)[k], |es|);
  }

  /** The restart array of a built block, read back. */
  lemma RestartRead(contents: seq<Octet>, es: seq<Pair>, interval: nat, k: nat)
    requires BuiltFrom(contents, es, interval) && k < |RestartEntries(interval, |es|)|
    ensures var starts, restarts := RestartEntries(interval, |es|), Offset(es, interval, |es|);
      && restarts + 4 * |starts| + 4 == |contents|
      && RestartPoint(contents, restarts, k) == Offset(es, interval, starts[k])
  {
    hide Data, RestartEntries, Fixed, Number, GoodPairs;
    var ns := RestartOffsets(es, interval, |es|);
    var restarts := Offset(es, interval, |es|);
    SmallRestarts(es, interval, k);
    FixedAllAt(ns, k);
    FixedRoundTrips(ns[k]);
    assert contents[restarts + 4 * k..restarts + 4 * k + 4] == FixedAll(ns)[4 * k..4 * k + 4];
  }

  lemma CountRead(contents: seq<Octet>, es: seq<Pair>, interval: nat)
    requires BuiltFrom(contents, es, interval)
    ensures |contents| >= 4 && Number(contents[|contents| - 4..]) == |RestartEntries(interval, |es|)|
    ensures Offset(es, interval, |es|) + 4 * |RestartEntries(interval, |es|)| + 4 == |contents|
  {
    hide Data, RestartEntries, Fixed, Number, GoodPairs;
    var n := |RestartOffsets(es, interval, |es|)|;
    assert contents[|contents| - 4..] == Fixed(n % LIMIT32, 4);
    FixedRoundTrips(n);
  }

  /** The block constructor: where the restart array starts and how long it is, unless the contents are too short. */
  method ReadTrailer(contents: seq<Octet>, ghost es: seq<Pair>, ghost interval: nat)
    returns (ok: bool, restarts: nat, numRestarts: nat)
    ensures ok <==> |contents| >= 4 && 4 * Number(contents[|contents| - 4..]) + 4 <= |contents|
    ensures ok ==> numRestarts == Number(contents[|contents| - 4..]) && restarts + 4 * numRestarts + 4 == |contents|
    ensures BuiltFrom(contents, es, interval) ==>
      ok && restarts == Offset(es, interval, |es|) && numRestarts == |RestartEntries(interval, |es|)|
  {
    hide BuiltFrom, Number, RestartEntries;
    if BuiltFrom(contents, es, interval) {
      CountRead(contents, es, interval);
    }
    if |contents| < 4 {
      return false, 0, 0;
    }
    numRestarts := Number(contents[|contents| - 4..]);
    if numRestarts > (|contents| - 4) / 4 {
      return false, 0, 0;
    }
    return true, |contents| - (1 + numRestarts) * 4, numRestarts;
  }

  // ---------------------------------------------------------------------------------------------------------
  // Entries
  // ---------------------------------------------------------------------------------------------------------

  /** The three lengths at the front of `input`, with a short way for lengths of one byte each. */
  method DecodeEntry(input: seq<Octet>, ghost s: nat, ghost r: nat, ghost v: nat, ghost body: seq<Octet>)
      returns (ok: bool, shared: nat, nonShared: nat, valueLength: nat, header: nat)
    ensures ok ==> 3 <= header && header + nonShared + valueLength <= |input|
    ensures input == EntryHeader(s, r, v) + body && s < LIMIT32 && r < LIMIT32 && v < LIMIT32 && r + v <= |body| ==>
      ok && shared == s && nonShared == r && valueLength == v && header == |EntryHeader(s, r, v)|
  {
    hide Varint;
    ghost var good := input == EntryHeader(s, r, v) + body && s < LIMIT32 && r < LIMIT32 && v < LIMIT32
      && r + v <= |body|;
    if good {
      HeaderReads(s, r, v, body);
    }
    if |input| < 3 {
      return false, 0, 0, 0, 0;
    }
    if input[0] < 128 && input[1] < 128 && input[2] < 128 {
      ShortHeader(input);
      shared, nonShared, valueLength, header := input[0], input[1], input[2], 3;
    } else {
      var a := GetVarint32(input);
      PrefixedShrinks(input);
      if a == None {
        return false, 0, 0, 0, 0;
      }
      var b := GetVarint32(a.value.1);
      PrefixedShrinks(a.value.1);
      if b == None {
        return false, 0, 0, 0, 0;
      }
      var c := GetVarint32(b.value.1);
      PrefixedShrinks(b.value.1);
      if c == None {
        return false, 0, 0, 0, 0;
      }
      shared, nonShared, valueLength, header := a.value.0, b.value.0, c.value.0, |input| - |c.value.1|;
    }
    ok := nonShared + valueLength <= |input| - header;
  }

  ghost predicate Reads(input: seq<Octet>, s: nat, r: nat, v: nat, body: seq<Octet>) {
    exists x, y :: Chain(input, s, x, r, y, v, body)
  }

  ghost predicate Chain(input: seq<Octet>, s: nat, x: seq<Octet>, r: nat, y: seq<Octet>, v: nat, body: seq<Octet>) {
    && ReadVarint32(input) == Some((s, x)) && ReadVarint32(x) == Some((r, y)) && ReadVarint32(y) == Some((v, body))
  }

  lemma HeaderReads(s: nat, r: nat, v: nat, body: seq<Octet>)
    requires s < LIMIT32 && r < LIMIT32 && v < LIMIT32
    ensures var input := EntryHeader(s, r, v) + body;
      Reads(input, s, r, v, body) && |input| >= 3
  {
    hide Varint, ReadVarint32;
    var input := EntryHeader(s, r, v) + body;
    var y := Varint(v) + body;
    var x := Varint(r) + y;
    assert input == Varint(s) + x;
    Varint32RoundTrip(s, x);
    Varint32RoundTrip(r, y);
    Varint32RoundTrip(v, body);
    assert Chain(input, s, x, r, y, v, body);
  }

  lemma OneByte(input: seq<Octet>)
    requires input != [] && input[0] < 128
    ensures ReadVarint32(input) == Some((input[0] as nat, input[1..]))
  {
  }

  lemma ShortHeader(input: seq<Octet>)
    requires |input| >= 3 && input[0] < 128 && input[1] < 128 && input[2] < 128
    ensures Chain(input, input[0], input[1..], input[1], input[2..], input[2], input[3..])
  {
    hide ReadVarint32;
    OneByte(input);
    assert input[1..][1..] == input[2..] && input[2..][1..] == input[3..];
    OneByte(input[1..]);
    OneByte(input[2..]);
  }

  /** What the decoder meets at entry `i`: its header, the rest of its key, its value, and the entries after it. */
  lemma EntryInput(contents: seq<Octet>, es: seq<Pair>, interval: nat, i: nat)
    returns (s: nat, r: nat, v: nat, body: seq<Octet>)
    requires BuiltFrom(contents, es, interval) && i < |es|
    ensures var o, o', restarts := Offset(es, interval, i), Offset(es, interval, i + 1), Offset(es, interval, |es|);
      && s == Shared(es, interval, i) && r == |es[i].key| - s && v == |es[i].value| && s < LIMIT32 && r < LIMIT32
        && v < LIMIT32
      && o < o' <= restarts <= |contents|
      && contents[o..restarts] == EntryHeader(s, r, v) + body && r + v <= |body|
      && o' == o + |EntryHeader(s, r, v)| + r + v
      && contents[o' - v - r..o' - v] == es[i].key[s..] && contents[o' - v..o'] == es[i].value
  {
    hide Data, EntryHeader, Shared, FixedAll, Fixed, RestartOffsets;
    s, r, v := Shared(es, interval, i), |es[i].key| - Shared(es, interval, i), |es[i].value|;
    var o, o', restarts := Offset(es, interval, i), Offset(es, interval, i + 1), Offset(es, interval, |es|);
    EntryAt(es, interval, i);
    DataPrefix(es, interval, i, i + 1);
    var h, k := EntryHeader(s, r, v), es[i].key[s..];
    var data := Data(es, interval, |es|);
    assert data[o..o'] == h + (k + es[i].value);
    Cut(contents, data, o, o', restarts, h, k, es[i].value);
    body := contents[o + |h|..restarts];
  }

  lemma Inner(contents: seq<Octet>, data: seq<Octet>, o: nat, o': nat, a: nat, b: nat)
    requires data <= contents && o <= o' <= |data| && a <= b <= o' - o
    ensures contents[o + a..o + b] == data[o..o'][a..b]
  {
    assert forall i :: 0 <= i < |data| ==> data[i] == contents[i];
    forall i | 0 <= i < b - a
      ensures contents[o + a..o + b][i] == data[o..o'][a..b][i]
    {
      assert contents[o + a..o + b][i] == contents[o + a + i];
    }
  }

  lemma ThreeParts(e: seq<Octet>, h: seq<Octet>, k: seq<Octet>, value: seq<Octet>)
    requires e == h + (k + value)
    ensures e[0..|h|] == h && e[|h|..|h| + |k|] == k && e[|h| + |k|..|e|] == value
  {
  }

  lemma Cut(contents: seq<Octet>, data: seq<Octet>, o: nat, o': nat, restarts: nat, h: seq<Octet>, k: seq<Octet>,
            value: seq<Octet>)
    requires data <= contents && o <= o' <= restarts == |data| && data[o..o'] == h + (k + value)
    ensures o' == o + |h| + |k| + |value|
    ensures contents[o..restarts] == h + contents[o + |h|..restarts]
    ensures contents[o' - |value| - |k|..o' - |value|] == k && contents[o' - |value|..o'] == value
  {
    assert |data[o..o']| == o' - o;
    var e := data[o..o'];
    ThreeParts(e, h, k, value);
    Inner(contents, data, o, o', 0, |h|);
    Inner(contents, data, o, o', |h|, |h| + |k|);
    Inner(contents, data, o, o', |h| + |k|, |e|);
    assert o + |h| == o' - |value| - |k| && o + |h| + |k| == o' - |value|;
  }

  // ---------------------------------------------------------------------------------------------------------
  // The iterator
  // ---------------------------------------------------------------------------------------------------------

  /** A comparator, as the relation of coming before. */
  type Order = (seq<Octet>, seq<Octet>) -> bool

  ghost predicate Transitive(less: Order) {
    forall a, b, c :: less(a, b) && less(b, c) ==> less(a, c)
  }

  /** Keys come in increasing order of the comparator. */
  ghost predicate SortedBy(es: seq<Pair>, less: Order) {
    Transitive(less) && forall i, j :: 0 <= i < j < |es| ==> less(es[i].key, es[j].key)
  }

  class BlockIter {
    const data: seq<Octet>
    const restarts: nat
    const numRestarts: nat
    const less: Order
    ghost const es: seq<Pair>
    ghost const interval: nat
    var current: nat
    var restartIndex: nat
    var key: seq<Octet>
    var valueStart: nat
    var valueEnd: nat
    var corrupt: bool

    ghost predicate Good() {
      && BuiltFrom(data, es, interval) && SortedBy(es, less)
      && restarts == Offset(es, interval, |es|) && numRestarts == |RestartEntries(interval, |es|)|
    }

    ghost predicate Valid()
      reads this
    {
      && numRestarts > 0 && restarts + 4 * numRestarts + 4 <= |data|
      && (current < restarts ==> restartIndex < numRestarts && valueStart <= valueEnd <= restarts)
    }

    /** The iterator stands at entry `j`. */
    ghost predicate At(j: nat)
      reads this
    {
      && j < |es| && current == Offset(es, interval, j) < restarts && key == es[j].key && !corrupt
      && valueStart <= valueEnd == Offset(es, interval, j + 1) <= restarts <= |data|
        && data[valueStart..valueEnd] == es[j].value
    }

    /** Parsing goes on with entry `j`. */
    ghost predicate Ready(j: nat)
      reads this
    {
      && j <= |es| && valueEnd == Offset(es, interval, j) && restartIndex < numRestarts
      && (Restarts(interval, j) || (j > 0 && key == es[j - 1].key))
    }

    /** Past either end. */
    ghost predicate Ended()
      reads this
    {
      current == restarts && !corrupt
    }

    constructor (data: seq<Octet>, restarts: nat, numRestarts: nat, less: Order, ghost es: seq<Pair>,
                 ghost interval: nat)
      requires numRestarts > 0 && restarts + 4 * numRestarts + 4 <= |data|
      ensures Valid() && Ended()
      ensures this.data == data && this.restarts == restarts && this.numRestarts == numRestarts && this.less == less
      ensures this.es == es && this.interval == interval
    {
      this.data, this.restarts, this.numRestarts, this.less, this.es, this.interval := data, restarts, numRestarts,
        less, es, interval;
      current, restartIndex, key, valueStart, valueEnd, corrupt := restarts, numRestarts, [], 0, 0, false;
    }

    function GetRestartPoint(k: nat): nat
      requires k < numRestarts && restarts + 4 * numRestarts + 4 <= |data|
    {
      RestartPoint(data, restarts, k)
    }

    method CorruptionError()
      requires numRestarts > 0 && restarts + 4 * numRestarts + 4 <= |data|
      modifies this
      ensures Valid() && corrupt && current == restarts && restartIndex == numRestarts
    {
      current, restartIndex, corrupt, key, valueStart, valueEnd := restarts, numRestarts, true, [], 0, 0;
    }

    method SeekToRestartPoint(k: nat)
      requires Valid() && k < numRestarts
      modifies this
      ensures key == [] && restartIndex == k && valueEnd == GetRestartPoint(k) && corrupt == old(corrupt)
      ensures Good() ==> Ready(RestartEntries(interval, |es|)[k])
    {
      hide RestartPoint, BuiltFrom, SortedBy, RestartEntries, Offset;
      if Good() {
        RestartFacts(data, es, interval, k);
      }
      key := [];
      restartIndex := k;
      valueStart := GetRestartPoint(k);
      valueEnd := valueStart;
    }

    /** One entry forward from wherever the last value ended. */
    method ParseNextKey(ghost j: nat) returns (ok: bool)
      requires numRestarts > 0 && restarts + 4 * numRestarts + 4 <= |data| && restartIndex < numRestarts
      modifies this
      ensures Valid() && ok == (current < restarts) && (!ok ==> restartIndex == numRestarts)
      ensures ok ==> old(valueEnd) < valueEnd
      ensures Good() && old(Ready(j)) && j < |es| && !old(corrupt) ==> ok && At(j) && Ready(j + 1)
      ensures Good() && old(Ready(j)) && j == |es| ==> !ok && corrupt == old(corrupt) && current == restarts
    {
      hide BuiltFrom, SortedBy, RestartEntries, Offset, RestartPoint, EntryHeader, Restarts, Shared;
      ghost var good := Good() && Ready(j);
      if good {
        OffsetOrder(es, interval, j);
      }
      current := valueEnd;
      if current >= restarts {
        current, restartIndex := restarts, numRestarts;
        return false;
      }
      var valid, newKey, start, end := Decode(key, current, good, j);
      if !valid {
        CorruptionError();
        return false;
      }
      key, valueStart, valueEnd := newKey, start, end;
      CatchUp();
      return true;
    }

    method CatchUp()
      requires restartIndex < numRestarts && restarts + 4 * numRestarts + 4 <= |data|
      modifies this`restartIndex
      ensures old(restartIndex) <= restartIndex < numRestarts
      ensures forall k :: old(restartIndex) < k <= restartIndex ==> GetRestartPoint(k) < current
      ensures restartIndex + 1 < numRestarts ==> GetRestartPoint(restartIndex + 1) >= current
    {
      hide RestartPoint;
      while restartIndex + 1 < numRestarts && GetRestartPoint(restartIndex + 1) < current
        invariant old(restartIndex) <= restartIndex < numRestarts
        invariant forall k :: old(restartIndex) < k <= restartIndex ==> GetRestartPoint(k) < current
      {
        restartIndex := restartIndex + 1;
      }
    }

    /** The entry at an offset, given the key before it. */
    method Decode(before: seq<Octet>, o: nat, ghost good: bool, ghost j: nat)
      returns (valid: bool, newKey: seq<Octet>, start: nat, end: nat)
      requires o < restarts <= |data|
      requires good ==>
        Good() && j < |es| && o == Offset(es, interval, j)
        && (Restarts(interval, j) || (j > 0 && before == es[j - 1].key))
      ensures valid ==> o < start <= end <= restarts
      ensures good ==>
        valid && newKey == es[j].key && end == Offset(es, interval, j + 1) && start <= end <= |data|
        && data[start..end] == es[j].value
    {
      hide BuiltFrom, SortedBy, RestartEntries, Offset, EntryHeader, Restarts, Shared;
      ghost var s, r, v, body := 0, 0, 0, [];
      if good {
        s, r, v, body := EntryInput(data, es, interval, j);
        KeyRebuilt(es, interval, j, before);
      }
      var shared, nonShared, valueLength, header;
      valid, shared, nonShared, valueLength, header := DecodeEntry(data[o..restarts], s, r, v, body);
      if !valid || |before| < shared {
        return false, [], 0, 0;
      }
      var p := o + header;
      newKey := before[..shared] + data[p..p + nonShared];
      start, end := p + nonShared, p + nonShared + valueLength;
    }

    method Next(ghost j: nat)
      requires Valid() && current < restarts
      modifies this
      ensures Valid() && (current < restarts ==> old(valueEnd) < valueEnd)
      ensures Good() && old(At(j)) ==> if j + 1 < |es| then At(j + 1) else Ended()
    {
      hide BuiltFrom, SortedBy, RestartEntries, Offset, Restarts;
      var ok := ParseNextKey(j + 1);
    }

    /** Back to a restart point before an offset; none means that no entry is before it. */
    method ScanBack(original: nat) returns (found: bool)
      requires numRestarts > 0 && restarts + 4 * numRestarts + 4 <= |data| && restartIndex < numRestarts
      modifies this`restartIndex
      ensures restartIndex < numRestarts
      ensures found ==> GetRestartPoint(restartIndex) < original
      ensures !found ==> GetRestartPoint(0) >= original
    {
      hide RestartPoint;
      while GetRestartPoint(restartIndex) >= original
        invariant restartIndex < numRestarts
        decreases restartIndex
      {
        if restartIndex == 0 {
          return false;
        }
        restartIndex := restartIndex - 1;
      }
      found := true;
    }

    method Prev(ghost j: nat)
      requires Valid() && current < restarts
      modifies this
      ensures Valid()
      ensures Good() && old(At(j)) ==> if j > 0 then At(j - 1) else Ended()
    {
      hide BuiltFrom, SortedBy, RestartEntries, Offset, Restarts, RestartPoint;
      ghost var good := Good() && At(j);
      var original := current;
      var found := ScanBack(original);
      if !found {
        if good {
          RestartFacts(data, es, interval, 0);
          OffsetLess(es, interval, 0, j);
        }
        current, restartIndex := restarts, numRestarts;
        return;
      }
      ghost var i: nat := 0;
      if good {
        RestartFacts(data, es, interval, restartIndex);
        i := RestartEntries(interval, |es|)[restartIndex];
        OffsetLess(es, interval, i, j);
      }
      SeekToRestartPoint(restartIndex);
      ParseUpTo(original, i, j, good);
    }

    /** Parse at least one entry, and go on until the end of one reaches the limit. */
    method ParseUpTo(limit: nat, ghost i: nat, ghost j: nat, ghost good: bool)
      requires numRestarts > 0 && restarts + 4 * numRestarts + 4 <= |data| && restartIndex < numRestarts
      requires good ==>
        Good() && Ready(i) && !corrupt && j <= |es| && limit == Offset(es, interval, j)
        && (i < j || j == |es| == 0 == i)
      modifies this
      ensures Valid()
      ensures good ==> !corrupt && if j == 0 then current == restarts else At(j - 1)
    {
      hide BuiltFrom, SortedBy, RestartEntries, Offset, Restarts, RestartPoint;
      ghost var k: nat := i;
      var ok := ParseNextKey(k);
      while ok && valueEnd < limit
        invariant Valid() && ok == (current < restarts)
        invariant good && j > 0 ==> k < j && ok && At(k) && Ready(k + 1) && !corrupt
        invariant good && j == 0 ==> !ok && !corrupt && current == restarts
        decreases ok, |data| - valueEnd
      {
        if good {
          OffsetLess(es, interval, k + 1, j);
        }
        ok := ParseNextKey(k + 1);
        k := k + 1;
      }
      if good && j > 0 {
        OffsetLess(es, interval, k + 1, j);
      }
    }

    method SeekToFirst()
      requires Valid()
      modifies this
      ensures Valid()
      ensures Good() && !old(corrupt) ==> if |es| > 0 then At(0) else Ended()
    {
      hide BuiltFrom, SortedBy, Offset, Restarts, RestartPoint;
      SeekToRestartPoint(0);
      var ok := ParseNextKey(0);
    }

    method SeekToLast()
      requires Valid()
      modifies this
      ensures Valid()
      ensures Good() && !old(corrupt) ==> if |es| > 0 then At(|es| - 1) else Ended()
    {
      hide BuiltFrom, SortedBy, RestartEntries, Offset, Restarts, RestartPoint;
      ghost var good := Good() && !corrupt;
      ghost var i: nat := 0;
      if good {
        i := RestartEntries(interval, |es|)[numRestarts - 1];
      }
      SeekToRestartPoint(numRestarts - 1);
      ParseUpTo(restarts, i, |es|, good);
    }

    /** The key of the entry at a restart point, which is stored whole. */
    method RestartKey(k: nat, ghost good: bool) returns (ok: bool, midKey: seq<Octet>)
      requires numRestarts > 0 && restarts + 4 * numRestarts + 4 <= |data| && k < numRestarts
      requires good ==> Good() && |es| > 0
      ensures good ==> ok && midKey == es[RestartEntries(interval, |es|)[k]].key
    {
      hide BuiltFrom, SortedBy, RestartEntries, Offset, RestartPoint, EntryHeader;
      var o := GetRestartPoint(k);
      ghost var s, r, v, body := 0, 0, 0, [];
      if good {
        var i := RestartEntries(interval, |es|)[k];
        RestartFacts(data, es, interval, k);
        s, r, v, body := EntryInput(data, es, interval, i);
        assert s == 0 && es[i].key[0..] == es[i].key;
      }
      if restarts < o {
        return false, [];
      }
      var shared, nonShared, valueLength, header;
      ok, shared, nonShared, valueLength, header := DecodeEntry(data[o..restarts], s, r, v, body);
      if !ok || shared != 0 {
        return false, [];
      }
      midKey := data[o + header..o + header + nonShared];
    }

    /** The last restart point whose key is below the target, or the first. */
    method FindRestart(target: seq<Octet>) returns (ok: bool, left: nat)
      requires numRestarts > 0 && restarts + 4 * numRestarts + 4 <= |data|
      ensures ok ==> left < numRestarts
      ensures Good() ==> ok && forall i :: 0 <= i < RestartEntries(interval, |es|)[left] ==> less(es[i].key, target)
      ensures Good() && |es| > 0 ==>
        forall k :: left < k < numRestarts ==> !less(es[RestartEntries(interval, |es|)[k]].key, target)
    {
      hide BuiltFrom, RestartEntries, Offset, SortedBy;
      ghost var starts := RestartEntries(interval, |es|);
      left := 0;
      var right := numRestarts - 1;
      while left < right
        invariant 0 <= left <= right < numRestarts
        invariant Good() && |es| > 0 ==> left == 0 || less(es[starts[left]].key, target)
        invariant Good() && |es| == 0 ==> left == 0
        invariant Good() && |es| > 0 ==> forall k :: right < k < numRestarts ==> !less(es[starts[k]].key, target)
        decreases right - left
      {
        var mid := (left + right + 1) / 2;
        if Good() {
          SomeEntries(es, interval);
        }
        var valid, midKey := RestartKey(mid, Good());
        if !valid {
          return false, 0;
        }
        if less(midKey, target) {
          left := mid;
        } else {
          if Good() {
            NoneLess(es, starts, less, target, mid);
          }
          right := mid - 1;
        }
      }
      ok := true;
      if Good() && |es| > 0 && left > 0 {
        AllLess(es, less, target, starts[left]);
      }
    }

    /** The first entry whose key is not below the target. */
    method Seek(target: seq<Octet>) returns (ghost j: nat)
      requires Valid()
      modifies this
      ensures Valid()
      ensures Good() && !old(corrupt) ==>
        && j <= |es| && (if j < |es| then At(j) else Ended())
        && forall i :: 0 <= i < |es| ==> (less(es[i].key, target) <==> i < j)
    {
      hide BuiltFrom, RestartEntries, Offset, Restarts, RestartPoint;
      j := 0;
      ghost var good := Good() && !corrupt;
      var found, left := FindRestart(target);
      if !found {
        CorruptionError();
        return;
      }
      if Good() {
        j := RestartEntries(interval, |es|)[left];
      }
      SeekToRestartPoint(left);
      var ok := true;
      while ok
        invariant if ok then restartIndex < numRestarts else Valid()
        invariant good && ok ==> Ready(j) && !corrupt && forall i :: 0 <= i < j ==> less(es[i].key, target)
        invariant good && !ok ==> j == |es| && Ended() && forall i :: 0 <= i < |es| ==> less(es[i].key, target)
        decreases ok, if restarts < valueEnd then 0 else restarts - valueEnd + 1
      {
        ok := ParseNextKey(j);
        if ok && !less(key, target) {
          return;
        }
        if good && ok {
          j := j + 1;
        }
      }
    }
  }

  /** More than one restart point means that there are entries. */
  lemma AllLess(es: seq<Pair>, less: Order, target: seq<Octet>, n: nat)
    requires SortedBy(es, less) && n < |es| && less(es[n].key, target)
    ensures forall i :: 0 <= i < n ==> less(es[i].key, target)
  {
  }

  lemma NoneLess(es: seq<Pair>, starts: seq<nat>, less: Order, target: seq<Octet>, mid: nat)
    requires SortedBy(es, less) && mid < |starts| && (forall k :: 0 <= k < |starts| ==> starts[k] < |es|)
    requires (forall i, j :: 0 <= i < j < |starts| ==> starts[i] < starts[j]) && !less(es[starts[mid]].key, target)
    ensures forall k :: mid <= k < |starts| ==> !less(es[starts[k]].key, target)
  {
    forall k | mid < k < |starts|
      ensures !less(es[starts[k]].key, target)
    {
      assert less(es[starts[mid]].key, es[starts[k]].key);
    }
  }

  lemma SomeEntries(es: seq<Pair>, interval: nat)
    ensures |RestartEntries(interval, |es|)| > 1 ==> |es| > 1
  {
  }

  lemma OffsetLess(es: seq<Pair>, interval: nat, i: nat, j: nat)
    requires i <= |es| && j <= |es|
    ensures Offset(es, interval, i) < Offset(es, interval, j) <==> i < j
  {
    hide Data;
    if i <= j {
      DataPrefix(es, interval, i, j);
    } else {
      DataPrefix(es, interval, j, i);
    }
  }

  lemma RestartFacts(contents: seq<Octet>, es: seq<Pair>, interval: nat, k: nat)
    requires BuiltFrom(contents, es, interval) && k < |RestartEntries(interval, |es|)|
    ensures var starts, restarts := RestartEntries(interval, |es|), Offset(es, interval, |es|);
      && restarts + 4 * |starts| + 4 == |contents|
      && RestartPoint(contents, restarts, k) == Offset(es, interval, starts[k])
      && Restarts(interval, starts[k]) && starts[k] <= |es|
  {
    hide BuiltFrom, RestartPoint, Offset, Restarts;
    RestartRead(contents, es, interval, k);
  }

  lemma OffsetOrder(es: seq<Pair>, interval: nat, j: nat)
    requires j <= |es|
    ensures Offset(es, interval, j) <= Offset(es, interval, |es|)
    ensures j < |es| ==> Offset(es, interval, j) < Offset(es, interval, |es|)
  {
    hide Data;
    DataPrefix(es, interval, j, |es|);
  }

  /** The shared part of the key before gives the whole key. */
  lemma KeyRebuilt(es: seq<Pair>, interval: nat, j: nat, key: seq<Octet>)
    requires j < |es| && (Restarts(interval, j) || (j > 0 && key == es[j - 1].key))
    ensures var s := Shared(es, interval, j);
      s <= |key| && key[..s] + es[j].key[s..] == es[j].key
  {
    hide Restarts, CommonPrefix;
    var s := Shared(es, interval, j);
    assert s <= |key| && key[..s] == es[j].key[..s];
    assert es[j].key[..s] + es[j].key[s..] == es[j].key;
  }

  method Build(pairs: seq<Pair>, interval: nat) returns (block: seq<Octet>)
    requires interval >= 1
    ensures block == BlockBytes(pairs, interval)
  {
    hide BlockBytes, Data, RestartOffsets;
    var builder := new BlockBuilder(interval);
    for i := 0 to |pairs|
      invariant fresh(builder) && builder.Valid() && !builder.finished && builder.interval == interval
        && builder.added == pairs[..i]
    {
      builder.Add(pairs[i].key, pairs[i].value);
    }
    assert pairs[..|pairs|] == pairs;
    block := builder.Finish();
  }

  /** Walking through a built block gives back the pairs that were added, in order. */
  method Walk(block: seq<Octet>, less: Order, ghost pairs: seq<Pair>, ghost interval: nat) returns (got: seq<Pair>)
    ensures BuiltFrom(block, pairs, interval) && SortedBy(pairs, less) ==> got == pairs
  {
    hide RestartEntries, Offset, SortedBy, BuiltFrom, Data;
    ghost var good := BuiltFrom(block, pairs, interval) && SortedBy(pairs, less);
    got := [];
    var ok, restarts, numRestarts := ReadTrailer(block, pairs, interval);
    if !ok || numRestarts == 0 {
      return;
    }
    var iter := new BlockIter(block, restarts, numRestarts, less, pairs, interval);
    iter.SeekToFirst();
    while iter.current < restarts
      invariant fresh(iter) && iter.Valid() && iter.data == block && iter.restarts == restarts && iter.es == pairs
        && iter.interval == interval
      invariant good ==> iter.Good() && |got| <= |pairs| && got == pairs[..|got|]
      invariant good ==> if |got| < |pairs| then iter.At(|got|) else iter.Ended()
      decreases if iter.current < restarts then restarts + 1 - iter.valueEnd else 0
    {
      got := got + [Pair(iter.key, iter.data[iter.valueStart..iter.valueEnd])];
      iter.Next(|got| - 1);
    }
  }
}
