/** How large a table can get: its blocks, its index and its filters against the sizes of what was added
    (table/block_builder.cc, table/table_builder.cc, table/filter_block.cc). */
module TableSizes {
  import opened Coding
  import opened BlockFormat
  import opened Blocks
  import opened Bloom
  import opened FilterBlocks
  import opened TableFormat
  import opened Tables

  const TRAILER_SIZE: nat := 5

  /** The bytes of all keys and values, and so many more for each entry. */
  function Cost(es: seq<Pair>, each: nat): nat {
    if es == [] then 0
    else Cost(es[..|es| - 1], each) + each + |es[|es| - 1].key| + |es[|es| - 1].value|
  }

  lemma {:induction false} CostConcat(a: seq<Pair>, b: seq<Pair>, each: nat)
    ensures Cost(a + b, each) == Cost(a, each) + Cost(b, each)
  {
    if b == [] {
      assert a + b == a;
    } else {
      assert (a + b)[..|a + b| - 1] == a + b[..|b| - 1];
      CostConcat(a, b[..|b| - 1], each);
    }
  }

  lemma {:induction false} CostSplits(es: seq<Pair>, each: nat, more: nat)
    ensures Cost(es, each + more) == Cost(es, each) + more * |es|
  {
    if es != [] {
      CostSplits(es[..|es| - 1], each, more);
    }
  }

  lemma {:induction false} CostBounds(es: seq<Pair>, each: nat, i: nat)
    requires i < |es|
    ensures |es[i].key| + |es[i].value| <= Cost(es, each)
  {
    if i < |es| - 1 {
      CostBounds(es[..|es| - 1], each, i);
    }
  }

  // ---------------------------------------------------------------------------------------------------------
  // Blocks
  // ---------------------------------------------------------------------------------------------------------

  lemma {:induction false} VarintLength(n: nat, width: nat)
    requires 0 < width && n < Pow2(7 * width)
    ensures |Varint(n)| <= width
  {
    if n >= 128 {
      Pow2Add(7, 7 * (width - 1));
      assert Pow2(7) == 128;
      assert width > 1;
      VarintLength(n / 128, width - 1);
    }
  }

  lemma Varint32Length(n: nat)
    ensures |Varint(n % LIMIT32)| <= 5
  {
    hide Varint, Pow2;
    Pow2Of35();
    VarintLength(n % LIMIT32, 5);
  }

  lemma Pow2Of35()
    ensures Pow2(35) == 0x8_0000_0000
  {
    assert Pow2(7) == 128;
    Pow2Add(7, 7);
    Pow2Add(7, 14);
    Pow2Add(7, 21);
    Pow2Add(7, 28);
  }

  lemma Varint64Length(n: nat)
    requires n < LIMIT64
    ensures |Varint(n)| <= 10
  {
    hide Varint, Pow2;
    Pow2Of35();
    Pow2Add(35, 35);
    VarintLength(n, 10);
  }

  lemma EntrySize(e: Pair, shared: nat)
    requires shared <= |e.key|
    ensures |EntryBytes(e, shared)| <= 15 + |e.key| + |e.value|
  {
    hide Varint;
    Varint32Length(shared);
    Varint32Length(|e.key| - shared);
    Varint32Length(|e.value|);
  }

  lemma {:induction false} DataSize(es: seq<Pair>, interval: nat, n: nat)
    requires n <= |es|
    ensures |Data(es, interval, n)| <= Cost(es[..n], 15)
  {
    hide EntryBytes, Shared;
    if n > 0 {
      DataSize(es, interval, n - 1);
      EntrySize(es[n - 1], Shared(es, interval, n - 1));
      assert es[..n][..n - 1] == es[..n - 1];
    }
  }

  lemma {:induction false} RestartCount(interval: nat, n: nat)
    ensures |RestartEntries(interval, n)| <= if n == 0 then 1 else n
  {
    if n > 1 {
      RestartCount(interval, n - 1);
    }
  }

  lemma BlockSize(es: seq<Pair>, interval: nat)
    ensures |BlockBytes(es, interval)| <= Cost(es, 19) + 8
    ensures es != [] ==> |BlockBytes(es, interval)| <= Cost(es, 23)
  {
    hide Data, RestartEntries, Cost;
    DataSize(es, interval, |es|);
    assert es[..|es|] == es;
    RestartCount(interval, |es|);
    CostSplits(es, 15, 4);
    CostSplits(es, 15, 8);
  }

  /** Where the file ends after these blocks. */
  function End(bs: seq<DataBlock>, interval: nat): nat {
    if bs == [] then 0
    else End(bs[..|bs| - 1], interval) + |BlockBytes(bs[|bs| - 1].es, interval)| + TRAILER_SIZE
  }

  lemma EndOne(bs: seq<DataBlock>, b: DataBlock, interval: nat)
    ensures End(bs + [b], interval) == End(bs, interval) + |BlockBytes(b.es, interval)| + TRAILER_SIZE
  {
    hide BlockBytes;
    assert (bs + [b])[..|bs|] == bs;
  }

  /** Each block starts where the ones before it end. */
  ghost predicate Placed(bs: seq<DataBlock>, interval: nat) {
    forall b :: 0 <= b < |bs| ==> bs[b].offset == End(bs[..b], interval)
  }

  lemma {:induction false} EndSize(bs: seq<DataBlock>, interval: nat)
    requires forall b :: 0 <= b < |bs| ==> bs[b].es != []
    ensures End(bs, interval) <= Cost(EntriesOf(bs), 28)
  {
    hide BlockBytes, Cost;
    if bs == [] {
      CostConcat([], [], 28);
    } else {
      var n := |bs| - 1;
      EndSize(bs[..n], interval);
      BlockSize(bs[n].es, interval);
      CostSplits(bs[n].es, 23, 5);
      CostConcat(EntriesOf(bs[..n]), bs[n].es, 28);
    }
  }

  // ---------------------------------------------------------------------------------------------------------
  // The index
  // ---------------------------------------------------------------------------------------------------------

  lemma HandleSize(h: Handle)
    requires h.offset < LIMIT64 && h.size < LIMIT64
    ensures |HandleBytes(h)| <= 20
  {
    hide Varint;
    Varint64Length(h.offset);
    Varint64Length(h.size);
  }

  /** Handles that fit their fields, and separators no longer than the last key of their block. */
  ghost predicate ShortIndex(bs: seq<DataBlock>, seps: seq<seq<Octet>>, interval: nat) {
    && |seps| == |bs|
    && forall b :: 0 <= b < |bs| ==>
      && bs[b].es != [] && |seps[b]| <= |LastKey(bs[b])|
      && bs[b].offset < LIMIT64 && |BlockBytes(bs[b].es, interval)| < LIMIT64
  }

  lemma {:induction false} IndexCost(bs: seq<DataBlock>, seps: seq<seq<Octet>>, interval: nat, n: nat)
    requires ShortIndex(bs, seps, interval) && n <= |bs|
    ensures Cost(IndexPairs(bs, seps, interval)[..n], 19) <= Cost(EntriesOf(bs[..n]), 39)
  {
    hide BlockBytes, HandleBytes, Cost;
    if n == 0 {
      NoCost();
    } else {
      var ies, m := IndexPairs(bs, seps, interval), n - 1;
      IndexCost(bs, seps, interval, m);
      OneIndexCost(bs[m], seps[m], interval);
      assert bs[..n] == bs[..m] + [bs[m]] && ies[..n] == ies[..m] + [ies[m]];
      EntriesOne(bs[..m], bs[m]);
      CostConcat(EntriesOf(bs[..m]), bs[m].es, 39);
      CostConcat(ies[..m], [ies[m]], 19);
    }
  }

  lemma NoCost()
    ensures forall each :: Cost([], each) == 0
  {
  }

  lemma OneIndexCost(b: DataBlock, sep: seq<Octet>, interval: nat)
    requires b.es != [] && |sep| <= |LastKey(b)| && b.offset < LIMIT64 && |BlockBytes(b.es, interval)| < LIMIT64
    ensures Cost([IndexPair(b, sep, interval)], 19) <= Cost(b.es, 39)
  {
    hide BlockBytes, HandleBytes;
    HandleSize(Handle(b.offset, |BlockBytes(b.es, interval)|));
    assert Cost([], 19) == 0;
    assert [IndexPair(b, sep, interval)][..0] == [];
  }

  lemma IndexSize(bs: seq<DataBlock>, seps: seq<seq<Octet>>, interval: nat)
    requires ShortIndex(bs, seps, interval)
    ensures |BlockBytes(IndexPairs(bs, seps, interval), 1)| <= Cost(EntriesOf(bs), 39) + 8
  {
    hide BlockBytes, IndexPair, Cost;
    var ies := IndexPairs(bs, seps, interval);
    BlockSize(ies, 1);
    IndexCost(bs, seps, interval, |bs|);
    assert bs[..|bs|] == bs && ies[..|bs|] == ies;
  }

  /** With a restart at every entry, keys and values lie whole in the block. */
  lemma {:induction false} WholeEntries(es: seq<Pair>, n: nat, i: nat)
    requires i < n <= |es|
    ensures |es[i].key| + |es[i].value| <= |Data(es, 1, n)|
  {
    hide EntryHeader;
    EveryRestart(n - 1);
    if i < n - 1 {
      WholeEntries(es, n - 1, i);
    }
  }

  lemma {:induction false} EveryRestart(i: nat)
    ensures Restarts(1, i) && Counter(1, i) == if i == 0 then 0 else 1
  {
    if i > 0 {
      EveryRestart(i - 1);
    }
  }

  lemma IndexIsGood(es: seq<Pair>)
    requires |BlockBytes(es, 1)| < LIMIT32
    ensures GoodPairs(es)
  {
    hide Data;
    forall i | 0 <= i < |es|
      ensures |es[i].key| < LIMIT32 && |es[i].value| < LIMIT32
    {
      WholeEntries(es, |es|, i);
    }
  }

  // ---------------------------------------------------------------------------------------------------------
  // Filters
  // ---------------------------------------------------------------------------------------------------------

  lemma FilterSize(n: nat, bitsPerKey: nat)
    ensures FilterLength(n, bitsPerKey) <= n * (10 + bitsPerKey)
  {
    if n > 0 {
      assert n * (10 + bitsPerKey) == 10 * n + n * bitsPerKey;
    }
  }

  lemma {:induction false} JoinedSize(parts: seq<seq<Octet>>, groups: seq<seq<seq<Octet>>>, bitsPerKey: nat)
    requires Lengths(parts, groups, bitsPerKey)
    ensures |Joined(parts)| <= KeyCount(groups) * (10 + bitsPerKey)
  {
    hide FilterLength;
    if parts != [] {
      var n := |parts| - 1;
      JoinedSize(parts[..n], groups[..n], bitsPerKey);
      FilterSize(|groups[n]|, bitsPerKey);
      Distribute(KeyCount(groups[..n]), |groups[n]|, 10 + bitsPerKey);
    }
  }

  lemma Distribute(a: nat, b: nat, c: nat)
    ensures (a + b) * c == a * c + b * c
  {
  }

  lemma FilterBlockSize(parts: seq<seq<Octet>>, groups: seq<seq<seq<Octet>>>, bitsPerKey: nat, offset: nat)
    requires Lengths(parts, groups, bitsPerKey) && |groups| <= offset / BASE + 1
    ensures |FilterBytes(parts)| <= KeyCount(groups) * (10 + bitsPerKey) + offset + 9
  {
    hide Joined, Starts, KeyCount, Lengths;
    JoinedSize(parts, groups, bitsPerKey);
    assert |parts| == |groups| by { SameCount(parts, groups, bitsPerKey); }
  }

  lemma SameCount(parts: seq<seq<Octet>>, groups: seq<seq<seq<Octet>>>, bitsPerKey: nat)
    requires Lengths(parts, groups, bitsPerKey)
    ensures |parts| == |groups|
  {
  }

  // ---------------------------------------------------------------------------------------------------------
  // The whole table
  // ---------------------------------------------------------------------------------------------------------

  /** What 32-bit and 64-bit fields hold. */
  ghost predicate Sized(t: Table) {
    && (forall o :: o in t.blocks ==> o < LIMIT64 && |t.blocks[o]| < LIMIT32)
    && |t.index| < LIMIT32 && (t.filter.Some? ==> |t.filter.value| < LIMIT32)
  }

  /** A condition on what is added, under which every field is wide enough. */
  ghost predicate Roomy(pairs: seq<Pair>, bitsPerKey: nat) {
    Cost(pairs, 40 + bitsPerKey) + 16 < LIMIT32
  }

  lemma RoomyIsGood(pairs: seq<Pair>, bitsPerKey: nat)
    requires Roomy(pairs, bitsPerKey)
    ensures GoodPairs(pairs)
  {
    hide Cost;
    forall i | 0 <= i < |pairs|
      ensures |pairs[i].key| < LIMIT32 && |pairs[i].value| < LIMIT32
    {
      CostBounds(pairs, 40 + bitsPerKey, i);
    }
  }

  lemma RoomyCosts(pairs: seq<Pair>, bitsPerKey: nat)
    requires Roomy(pairs, bitsPerKey)
    ensures Cost(pairs, 28) < LIMIT32 && Cost(pairs, 39) + 8 < LIMIT32
    ensures |pairs| * (10 + bitsPerKey) + Cost(pairs, 28) + 9 < LIMIT32
  {
    hide Cost;
    CostSplits(pairs, 28, 12 + bitsPerKey);
    CostSplits(pairs, 39, 1 + bitsPerKey);
    Grows(|pairs|, 10 + bitsPerKey, 12 + bitsPerKey);
  }

  lemma Grows(n: nat, a: nat, b: nat)
    requires a <= b
    ensures n * a <= n * b
  {
  }
}
