/** Building a table: blocks are cut by size, and a block's index entry waits for the first key after it
    (table/table_builder.cc). */
module TableBuilders {
  import opened Views
  import opened Coding
  import opened BlockFormat
  import opened Blocks
  import opened Comparators
  import opened Bloom
  import opened FilterBlocks
  import opened TableFormat
  import opened Tables
  import opened TableSizes

  /** The blocks written so far and the one being filled. */
  function AllBlocks(bs: seq<DataBlock>, cur: seq<Pair>, offset: nat): seq<DataBlock> {
    if cur == [] then bs else bs + [DataBlock(offset, cur)]
  }

  /** Blocks in order; each has its separator, except that the last one's may be pending while nothing follows it. */
  ghost predicate OrderInv(bs: seq<DataBlock>, seps: seq<seq<Octet>>, cur: seq<Pair>, offset: nat, pending: bool,
                           lastKey: seq<Octet>)
  {
    var all := AllBlocks(bs, cur, offset);
    && BlocksOrdered(all)
    && (pending ==> bs != [] && cur == []) && |seps| == |bs| - (if pending then 1 else 0)
    && (forall b :: 0 <= b < |seps| ==> b + 1 < |all| && SepOk(all, seps, b))
    && (all != [] ==> lastKey == LastKey(all[|all| - 1]))
  }

  /** The blocks written so far are in the file, one after the other, and nothing else is. */
  ghost predicate FileInv(bs: seq<DataBlock>, blocks: map<nat, seq<Octet>>, offset: nat, interval: nat) {
    && Placed(bs, interval) && offset == End(bs, interval)
    && (forall b :: 0 <= b < |bs| ==>
          bs[b].offset < offset && bs[b].offset in blocks && blocks[bs[b].offset] == BlockBytes(bs[b].es, interval))
    && forall o :: o in blocks ==> o + |blocks[o]| < offset
  }

  /** A key of a block at `offset` is in the filter of that offset, or will be. */
  ghost predicate Filed(key: seq<Octet>, offset: nat, groups: seq<seq<seq<Octet>>>, pending: seq<seq<Octet>>) {
    var i := offset / BASE;
    i <= |groups| && key in (if i < |groups| then groups[i] else pending)
  }

  ghost predicate FilterInv(bs: seq<DataBlock>, cur: seq<Pair>, offset: nat, groups: seq<seq<seq<Octet>>>,
                            pending: seq<seq<Octet>>)
  {
    && offset / BASE == |groups|
    && (forall b, e :: 0 <= b < |bs| && e in bs[b].es ==> Filed(e.key, bs[b].offset, groups, pending))
    && (forall e :: e in cur ==> e.key in pending)
    && KeyCount(groups) + |pending| == |EntriesOf(bs)| + |cur|
  }

  // ---------------------------------------------------------------------------------------------------------
  // Order
  // ---------------------------------------------------------------------------------------------------------

  lemma LessTransitive()
    ensures Transitive(InternalLess)
  {
    hide InternalLess;
    forall a, b, c | InternalLess(a, b) && InternalLess(b, c)
      ensures InternalLess(a, c)
    {
      InternalTransitive(a, b, c);
    }
  }

  lemma GrowBlock(cur: seq<Pair>, e: Pair)
    requires (cur != [] ==> SortedBy(cur, InternalLess) && InternalLess(cur[|cur| - 1].key, e.key))
    ensures SortedBy(cur + [e], InternalLess)
  {
    hide InternalLess;
    LessTransitive();
    forall i, j | 0 <= i < j < |cur + [e]|
      ensures InternalLess((cur + [e])[i].key, (cur + [e])[j].key)
    {
      assert i < |cur| - 1 && j == |cur| ==> InternalLess(cur[i].key, cur[|cur| - 1].key);
    }
  }

  /** An entry after the last key keeps the blocks in order. */
  lemma AddOrdered(bs: seq<DataBlock>, cur: seq<Pair>, offset: nat, e: Pair, lastKey: seq<Octet>)
    requires var all := AllBlocks(bs, cur, offset);
      BlocksOrdered(all) && (all != [] ==> lastKey == LastKey(all[|all| - 1]) && InternalLess(lastKey, e.key))
    ensures BlocksOrdered(AllBlocks(bs, cur + [e], offset))
  {
    hide InternalLess, SortedBy;
    var all, all' := AllBlocks(bs, cur, offset), AllBlocks(bs, cur + [e], offset);
    assert all' == bs + [DataBlock(offset, cur + [e])];
    assert forall b :: 0 <= b < |bs| ==> all[b] == bs[b];
    assert cur != [] ==> all[|bs|] == DataBlock(offset, cur);
    GrowBlock(cur, e);
    forall b, c | 0 <= b < c < |all'|
      ensures InternalLess(LastKey(all'[b]), FirstKey(all'[c]))
    {
      if c < |bs| {
        assert InternalLess(LastKey(all[b]), FirstKey(all[c]));
      } else if cur != [] {
        assert InternalLess(LastKey(all[b]), FirstKey(all[|bs|]));
      } else {
        BeforeNew(bs, e, b);
      }
    }
  }

  lemma BeforeNew(bs: seq<DataBlock>, e: Pair, b: nat)
    requires BlocksOrdered(bs) && b < |bs| && InternalLess(LastKey(bs[|bs| - 1]), e.key)
    ensures InternalLess(LastKey(bs[b]), e.key)
  {
    hide InternalLess;
    var l := |bs| - 1;
    if b < l {
      AcrossBlocks(bs, b, l, bs[b].es[|bs[b].es| - 1], bs[l].es[|bs[l].es| - 1]);
      InternalTransitive(LastKey(bs[b]), LastKey(bs[l]), e.key);
    }
  }

  /** The separators after the pending one, if any, was settled by the key that follows. */
  ghost predicate Settled(seps: seq<seq<Octet>>, pending: bool, lastKey: seq<Octet>, key: seq<Octet>,
                          seps': seq<seq<Octet>>)
  {
    if pending then
      && |seps'| == |seps| + 1 && seps'[..|seps|] == seps
      && Separates(lastKey, seps'[|seps|], key) && |seps'[|seps|]| <= |lastKey|
    else seps' == seps
  }

  lemma AddKeepsOrder(bs: seq<DataBlock>, seps: seq<seq<Octet>>, cur: seq<Pair>, offset: nat, pending: bool,
                      lastKey: seq<Octet>, e: Pair, seps': seq<seq<Octet>>)
    requires OrderInv(bs, seps, cur, offset, pending, lastKey)
    requires AllBlocks(bs, cur, offset) != [] ==> InternalLess(lastKey, e.key)
    requires Settled(seps, pending, lastKey, e.key, seps')
    ensures OrderInv(bs, seps', cur + [e], offset, false, e.key)
  {
    hide InternalLess, SortedBy, User, Separates, SepOk, ByteLess;
    assert |seps'| == |seps| + (if pending then 1 else 0);
    hide Settled;
    AddOrdered(bs, cur, offset, e, lastKey);
    assert LastKey(DataBlock(offset, cur + [e])) == e.key;
    var all' := AllBlocks(bs, cur + [e], offset);
    forall b | 0 <= b < |seps'|
      ensures b + 1 < |all'| && SepOk(all', seps', b)
    {
      SepAfterAdd(bs, seps, cur, offset, pending, lastKey, e, seps', b);
    }
  }

  lemma SepAfterAdd(bs: seq<DataBlock>, seps: seq<seq<Octet>>, cur: seq<Pair>, offset: nat, pending: bool,
                    lastKey: seq<Octet>, e: Pair, seps': seq<seq<Octet>>, b: nat)
    requires OrderInv(bs, seps, cur, offset, pending, lastKey) && Settled(seps, pending, lastKey, e.key, seps')
      && b < |seps'|
    requires BlocksOrdered(AllBlocks(bs, cur + [e], offset))
    ensures b + 1 < |AllBlocks(bs, cur + [e], offset)| && SepOk(AllBlocks(bs, cur + [e], offset), seps', b)
  {
    hide InternalLess, SortedBy, User, Separates, SepOk, ByteLess;
    var all, all' := AllBlocks(bs, cur, offset), AllBlocks(bs, cur + [e], offset);
    assert all' == bs + [DataBlock(offset, cur + [e])];
    assert cur != [] ==> all == bs + [DataBlock(offset, cur)];
    if b < |seps| {
      assert seps'[b] == seps[b] by {
        assert pending ==> seps'[..|seps|][b] == seps'[b];
      }
      assert SepOk(all, seps, b);
      SepStays(all, all', seps, seps', b);
    } else {
      NewSep(all', seps', b, lastKey, e.key);
    }
  }

  lemma SepStays(all: seq<DataBlock>, all': seq<DataBlock>, seps: seq<seq<Octet>>, seps': seq<seq<Octet>>, b: nat)
    requires b < |seps| && b < |seps'| && b + 1 < |all| && b + 1 < |all'| && seps'[b] == seps[b]
    requires (forall c :: 0 <= c < |all| ==> all[c].es != []) && (forall c :: 0 <= c < |all'| ==> all'[c].es != [])
    requires SepOk(all, seps, b) && all'[b] == all[b] && FirstKey(all'[b + 1]) == FirstKey(all[b + 1])
    ensures SepOk(all', seps', b)
  {
    hide User, Separates, ByteLess;
  }

  lemma NewSep(all: seq<DataBlock>, seps: seq<seq<Octet>>, b: nat, lastKey: seq<Octet>, key: seq<Octet>)
    requires b < |seps| && b + 1 < |all| && (forall c :: 0 <= c < |all| ==> all[c].es != [])
    requires LastKey(all[b]) == lastKey && FirstKey(all[b + 1]) == key
    requires Separates(lastKey, seps[b], key) && |seps[b]| <= |lastKey|
    ensures SepOk(all, seps, b)
  {
    hide User, Separates, ByteLess;
    SeparatesAbove(lastKey, seps[b], key);
  }

  lemma SeparatesAbove(start: seq<Octet>, r: seq<Octet>, limit: seq<Octet>)
    requires Separates(start, r, limit)
    ensures r == start || ByteLess(User(start), User(r))
  {
    hide User;
  }

  lemma FlushKeepsOrder(bs: seq<DataBlock>, seps: seq<seq<Octet>>, cur: seq<Pair>, offset: nat, lastKey: seq<Octet>,
                        offset': nat)
    requires OrderInv(bs, seps, cur, offset, false, lastKey) && cur != []
    ensures OrderInv(bs + [DataBlock(offset, cur)], seps, [], offset', true, lastKey)
  {
    hide InternalLess, SortedBy, User, Separates;
  }

  // ---------------------------------------------------------------------------------------------------------
  // Filters
  // ---------------------------------------------------------------------------------------------------------

  lemma AddKeepsFilter(bs: seq<DataBlock>, cur: seq<Pair>, offset: nat, groups: seq<seq<seq<Octet>>>,
                       pending: seq<seq<Octet>>, e: Pair)
    requires FilterInv(bs, cur, offset, groups, pending)
    ensures FilterInv(bs, cur + [e], offset, groups, pending + [e.key])
  {
    forall b, x | 0 <= b < |bs| && x in bs[b].es
      ensures Filed(x.key, bs[b].offset, groups, pending + [e.key])
    {
      assert Filed(x.key, bs[b].offset, groups, pending);
    }
  }

  /** What StartBlock does to the groups. */
  ghost predicate Moved(groups: seq<seq<seq<Octet>>>, pending: seq<seq<Octet>>, groups': seq<seq<seq<Octet>>>,
                        pending': seq<seq<Octet>>)
  {
    && |groups| <= |groups'|
    && (|groups| == |groups'| ==> pending' == pending && groups' == groups)
    && (|groups| < |groups'| ==> pending' == [] && groups'[..|groups|] == groups && groups'[|groups|] == pending)
    && KeyCount(groups') + |pending'| == KeyCount(groups) + |pending|
  }

  lemma MovedFiled(key: seq<Octet>, offset: nat, groups: seq<seq<seq<Octet>>>, pending: seq<seq<Octet>>,
                   groups': seq<seq<seq<Octet>>>, pending': seq<seq<Octet>>)
    requires Filed(key, offset, groups, pending) && Moved(groups, pending, groups', pending')
    ensures Filed(key, offset, groups', pending')
  {
    var i := offset / BASE;
    assert i < |groups| && |groups| < |groups'| ==> groups'[i] == groups'[..|groups|][i];
  }

  lemma FlushKeepsFilter(bs: seq<DataBlock>, cur: seq<Pair>, offset: nat, groups: seq<seq<seq<Octet>>>,
                         pending: seq<seq<Octet>>, offset': nat, groups': seq<seq<seq<Octet>>>,
                         pending': seq<seq<Octet>>)
    requires FilterInv(bs, cur, offset, groups, pending) && Moved(groups, pending, groups', pending')
      && |groups'| == offset' / BASE
    ensures FilterInv(bs + [DataBlock(offset, cur)], [], offset', groups', pending')
  {
    hide Filed;
    var bs' := bs + [DataBlock(offset, cur)];
    EntriesOne(bs, DataBlock(offset, cur));
    assert KeyCount(groups') + |pending'| == |EntriesOf(bs')|;
    hide Moved, KeyCount, EntriesOf;
    forall b, x | 0 <= b < |bs'| && x in bs'[b].es
      ensures Filed(x.key, bs'[b].offset, groups', pending')
    {
      assert Filed(x.key, bs'[b].offset, groups, pending) by {
        if b == |bs| {
          FiledNow(x.key, offset, groups, pending);
        }
      }
      MovedFiled(x.key, bs'[b].offset, groups, pending, groups', pending');
    }
  }

  lemma FiledNow(key: seq<Octet>, offset: nat, groups: seq<seq<seq<Octet>>>, pending: seq<seq<Octet>>)
    requires offset / BASE == |groups| && key in pending
    ensures Filed(key, offset, groups, pending)
  {
  }

  /** The finished filters know the keys of every block. */
  lemma FinishedFilter(hash: Hash, bs: seq<DataBlock>, offset: nat, groups: seq<seq<seq<Octet>>>,
                       pending: seq<seq<Octet>>, parts: seq<seq<Octet>>, groups': seq<seq<seq<Octet>>>)
    requires FilterInv(bs, [], offset, groups, pending)
    requires groups' == (if pending == [] then groups else groups + [pending])
    requires |parts| == |groups'| && forall i :: 0 <= i < |parts| ==> Covers(hash, parts[i], groups'[i])
    ensures forall b :: 0 <= b < |bs| ==> FilterKnows(hash, parts, bs[b])
  {
    hide Matches, User;
    forall b, e | 0 <= b < |bs| && e in bs[b].es && bs[b].offset / BASE < |parts|
      ensures Matches(hash, User(e.key), parts[bs[b].offset / BASE])
    {
      assert Filed(e.key, bs[b].offset, groups, pending);
      var i := bs[b].offset / BASE;
      assert e.key in groups'[i];
      assert Covers(hash, parts[i], groups'[i]);
    }
  }

  // ---------------------------------------------------------------------------------------------------------
  // The builder
  // ---------------------------------------------------------------------------------------------------------

  /** A block was cut as soon as it had reached the size. */
  ghost predicate CutAt(es: seq<Pair>, interval: nat, blockSize: nat) {
    && |BlockBytes(es, interval)| >= blockSize
    && Unfilled(es[..if es == [] then 0 else |es| - 1], interval, blockSize)
  }

  ghost predicate Unfilled(es: seq<Pair>, interval: nat, blockSize: nat) {
    es != [] ==> |BlockBytes(es, interval)| < blockSize
  }

  /** Every block but an unfinished one was cut by its size. */
  ghost predicate Packed(bs: seq<DataBlock>, cur: seq<Pair>, interval: nat, blockSize: nat) {
    (forall b :: 0 <= b < |bs| ==> CutAt(bs[b].es, interval, blockSize)) && Unfilled(cur, interval, blockSize)
  }

  /** The same of a finished table, whose last block may be short. */
  ghost predicate CutBySize(bs: seq<DataBlock>, interval: nat, blockSize: nat) {
    forall b :: 0 <= b < |bs| ==>
      CutAt(bs[b].es, interval, blockSize) || (b == |bs| - 1 && Unfilled(bs[b].es, interval, blockSize))
  }

  /** The table is these blocks, one after the other, with this index and these filters. */
  ghost predicate Laid(t: Table, lay: Layout, hash: Hash) {
    && Separated(lay.bs, lay.seps) && Placed(lay.bs, lay.interval)
    && (forall b :: 0 <= b < |lay.bs| ==>
          lay.bs[b].offset in t.blocks && t.blocks[lay.bs[b].offset] == BlockBytes(lay.bs[b].es, lay.interval))
    && t.index == BlockBytes(IndexPairs(lay.bs, lay.seps, lay.interval), 1)
    && (t.filter.Some? ==>
          && t.filter.value == FilterBytes(lay.parts)
          && forall b :: 0 <= b < |lay.bs| ==> FilterKnows(hash, lay.parts, lay.bs[b]))
  }

  /** Lookups work in a table that is laid out so, if its fields are wide enough. */
  lemma LaidIsOk(t: Table, lay: Layout, hash: Hash)
    requires Laid(t, lay, hash) && Sized(t) && GoodPairs(EntriesOf(lay.bs))
    ensures TableOk(t, lay, hash)
  {
    hide BlockBytes, IndexPairs, FilterBytes, FilterKnows, BlocksOrdered, SepOk, GoodPairs, End;
    assert GoodPairs(IndexPairs(lay.bs, lay.seps, lay.interval)) by {
      IndexIsGood(IndexPairs(lay.bs, lay.seps, lay.interval));
    }
    forall b | 0 <= b < |lay.bs|
      ensures BlockStored(t.blocks, lay.bs[b], lay.interval)
    {
      assert GoodPairs(lay.bs[b].es) by { GoodBlock(lay.bs, b); }
    }
  }

  lemma GoodBlock(bs: seq<DataBlock>, b: nat)
    requires GoodPairs(EntriesOf(bs)) && b < |bs|
    ensures GoodPairs(bs[b].es)
  {
    forall i | 0 <= i < |bs[b].es|
      ensures |bs[b].es[i].key| < LIMIT32 && |bs[b].es[i].value| < LIMIT32
    {
      var e := bs[b].es[i];
      assert e in bs[b].es;
      InEntries(bs, e);
    }
  }

  class TableBuilder {
    const interval: nat
    const blockSize: nat
    const hasFilter: bool
    const dataBlock: BlockBuilder
    const indexBlock: BlockBuilder
    const filterBlock: FilterBlockBuilder
    var offset: nat
    var lastKey: seq<Octet>
    var pendingIndexEntry: bool
    var pendingHandle: Handle
    var blocks: map<nat, seq<Octet>>
    ghost var bs: seq<DataBlock>
    ghost var seps: seq<seq<Octet>>
    ghost var entries: seq<Pair>

    ghost predicate Valid()
      reads this, dataBlock, indexBlock, filterBlock
    {
      Core() && Packed(bs, dataBlock.added, interval, blockSize)
    }

    /** What holds within Add too. */
    ghost predicate Core()
      reads this, dataBlock, indexBlock, filterBlock
    {
      && interval >= 1 && dataBlock != indexBlock
      && dataBlock.Valid() && !dataBlock.finished && dataBlock.interval == interval
      && indexBlock.Valid() && !indexBlock.finished && indexBlock.interval == 1
      && OrderInv(bs, seps, dataBlock.added, offset, pendingIndexEntry, lastKey)
      && FileInv(bs, blocks, offset, interval)
      && indexBlock.added == IndexPairs(bs, seps, interval)
      && (pendingIndexEntry ==> pendingHandle == Handle(bs[|bs| - 1].offset, |BlockBytes(bs[|bs| - 1].es, interval)|))
      && (hasFilter ==>
          filterBlock.Valid() && FilterInv(bs, dataBlock.added, offset, filterBlock.groups, filterBlock.pending))
      && Listed(entries, bs, dataBlock.added, offset)
    }

    constructor (interval: nat, blockSize: nat, hasFilter: bool, hash: Hash, bitsPerKey: nat, k: nat)
      requires interval >= 1 && 1 <= k <= 30
      ensures Valid() && entries == [] && fresh(dataBlock) && fresh(indexBlock) && fresh(filterBlock)
      ensures this.interval == interval && this.blockSize == blockSize && this.hasFilter == hasFilter
      ensures filterBlock.hash == hash && filterBlock.bitsPerKey == bitsPerKey
    {
      hide OrderInv, FileInv, FilterInv, Listed, Packed, IndexPairs, BlockBuilder.Valid, FilterBlockBuilder.Valid;
      NothingYet(interval, blockSize);
      this.interval, this.blockSize, this.hasFilter := interval, blockSize, hasFilter;
      dataBlock := new BlockBuilder(interval);
      indexBlock := new BlockBuilder(1);
      filterBlock := new FilterBlockBuilder(hash, bitsPerKey, k);
      offset, lastKey, pendingIndexEntry, pendingHandle, blocks := 0, [], false, Handle(0, 0), map[];
      bs, seps, entries := [], [], [];
    }

    /** The key must come after the last one. */
    method Add(key: seq<Octet>, value: seq<Octet>)
      requires Valid() && (entries != [] ==> InternalLess(lastKey, key))
      modifies this, dataBlock, indexBlock, filterBlock
      ensures Valid() && entries == old(entries) + [Pair(key, value)] && lastKey == key
    {
      hide BlockBytes, InternalLess, OrderInv, FileInv, FilterInv, Listed, IndexPairs, Settled, BlockBuilder.Valid,
           FilterBlockBuilder.Valid, Packed, Data, RestartOffsets;
      ghost var e, cur := Pair(key, value), dataBlock.added;
      ListedAny(entries, bs, cur, offset);
      ghost var seps0, pending0 := seps, pendingIndexEntry;
      AddIndexEntry(key);
      AddKeepsOrder(bs, seps0, cur, offset, pending0, lastKey, e, seps);
      ListedMore(entries, bs, cur, offset, e);
      AddToBlock(key, value);
      lastKey := key;
      entries := entries + [e];
      var size := dataBlock.CurrentSizeEstimate();
      PackedMore(bs, cur, e, interval, blockSize, offset, size);
      if size >= blockSize {
        Flush();
      }
    }

    /** The entry joins the current block, and its key the current filter. */
    method AddToBlock(key: seq<Octet>, value: seq<Octet>)
      requires dataBlock.Valid() && !dataBlock.finished
      requires hasFilter ==>
        filterBlock.Valid() && FilterInv(bs, dataBlock.added, offset, filterBlock.groups, filterBlock.pending)
      modifies dataBlock, filterBlock
      ensures dataBlock.Valid() && !dataBlock.finished && dataBlock.added == old(dataBlock.added) + [Pair(key, value)]
      ensures hasFilter ==>
        filterBlock.Valid() && FilterInv(bs, dataBlock.added, offset, filterBlock.groups, filterBlock.pending)
    {
      hide FilterInv, BlockBuilder.Valid, FilterBlockBuilder.Valid;
      if hasFilter {
        AddKeepsFilter(bs, dataBlock.added, offset, filterBlock.groups, filterBlock.pending, Pair(key, value));
        filterBlock.AddKey(key);
      }
      dataBlock.Add(key, value);
    }

    /** The separator between the last block and the key that follows it. */
    method AddIndexEntry(key: seq<Octet>)
      requires Core()
      modifies this`seps, this`pendingIndexEntry, indexBlock
      ensures !pendingIndexEntry && Settled(old(seps), old(pendingIndexEntry), lastKey, key, seps)
      ensures indexBlock.Valid() && !indexBlock.finished && |seps| <= |bs|
        && indexBlock.added == IndexPairs(bs, seps, interval)
    {
      hide BlockBytes, OrderInv, FileInv, FilterInv, Listed, IndexPair, HandleBytes, BlockBuilder.Valid,
           FilterBlockBuilder.Valid, Separates;
      if pendingIndexEntry {
        OrderPending(bs, seps, dataBlock.added, offset, lastKey);
        var sep := FindInternalSeparator(lastKey, key);
        IndexGrows(bs, seps, sep, interval);
        indexBlock.Add(sep, HandleBytes(pendingHandle));
        seps := seps + [sep];
        pendingIndexEntry := false;
      } else {
        OrderNumbers(bs, seps, dataBlock.added, offset, pendingIndexEntry, lastKey);
      }
    }

    /** The current block goes to the file; its index entry waits. */
    method Flush()
      requires Core()
      modifies this, dataBlock, filterBlock
      ensures Core() && entries == old(entries) && lastKey == old(lastKey) && dataBlock.added == []
      ensures seps == old(seps) && bs == AllBlocks(old(bs), old(dataBlock.added), old(offset))
    {
      hide BlockBytes, InternalLess, OrderInv, FileInv, FilterInv, Listed, IndexPairs, BlockBuilder.Valid,
           FilterBlockBuilder.Valid;
      ghost var cur := dataBlock.added;
      var empty := dataBlock.IsEmpty();
      if empty {
        return;
      }
      OrderNotPending(bs, seps, cur, offset, pendingIndexEntry, lastKey);
      ghost var block := DataBlock(offset, cur);
      var raw := dataBlock.Finish();
      pendingHandle := Handle(offset, |raw|);
      FlushKeepsOrder(bs, seps, cur, offset, lastKey, offset + |raw| + TRAILER_SIZE);
      FlushKeepsFile(bs, blocks, offset, interval, cur, offset + |raw| + TRAILER_SIZE);
      ListedFlush(entries, bs, cur, offset, offset + |raw| + TRAILER_SIZE);
      IndexStays(bs, block, seps, interval);
      blocks := blocks[offset := raw];
      dataBlock.Reset();
      pendingIndexEntry := true;
      ghost var offset0 := offset;
      offset := offset + |raw| + TRAILER_SIZE;
      if hasFilter {
        StartFilter(cur, offset0);
      }
      bs := bs + [block];
    }

    /** The finished table holds what was added, in order, laid out so that lookups answer like a scan; every field of
        the format is wide enough if what was added is not too much. */
    method Finish() returns (t: Table, ghost lay: Layout)
      requires Valid()
      modifies this, dataBlock, indexBlock, filterBlock
      ensures EntriesOf(lay.bs) == old(entries) && lay.interval == interval && t.filter.Some? == hasFilter
      ensures Laid(t, lay, filterBlock.hash) && CutBySize(lay.bs, interval, blockSize)
      ensures Roomy(old(entries), filterBlock.bitsPerKey) ==> GoodPairs(old(entries)) && Sized(t)
      ensures GoodPairs(old(entries)) && Sized(t) ==> TableOk(t, lay, filterBlock.hash)
    {
      hide BlockBytes, OrderInv, FileInv, FilterInv, Listed, IndexPairs, BlockBuilder.Valid, FilterBlockBuilder.Valid,
           Separated, FilterBytes, FilterKnows, Laid, TableOk, Lengths, KeyCount, EntriesOf, Roomy, Sized, GoodPairs;
      hide CutAt, Unfilled;
      ghost var bs0, cur0, offset0 := bs, dataBlock.added, offset;
      Flush();
      assert CutBySize(bs, interval, blockSize) by { PackedAll(bs0, cur0, offset0, interval, blockSize); }
      ListedAll(entries, bs, offset);
      OrderNumbers(bs, seps, [], offset, pendingIndexEntry, lastKey);
      ghost var parts, groups: seq<seq<seq<Octet>>> := [], [];
      var filter := None;
      if hasFilter {
        ghost var groups0, pending0 := filterBlock.groups, filterBlock.pending;
        var contents := filterBlock.Finish();
        filter := Some(contents);
        parts, groups := filterBlock.parts, filterBlock.groups;
        FinishedFilter(filterBlock.hash, bs, offset, groups0, pending0, parts, groups);
        FilterCounts(bs, offset, groups0, pending0, groups);
      }
      LastEntry();
      var index := indexBlock.Finish();
      t := Table(blocks, index, filter);
      lay := Layout(bs, seps, interval, parts);
      FinishedLaid(t, lay, offset, filterBlock.hash);
      if Roomy(entries, filterBlock.bitsPerKey) {
        RoomyIsGood(entries, filterBlock.bitsPerKey);
        FinishedSize(t, lay, offset, groups, filterBlock.bitsPerKey, filterBlock.hash);
      }
      if GoodPairs(entries) && Sized(t) {
        LaidIsOk(t, lay, filterBlock.hash);
      }
    }

    /** The last block's index entry. */
    method LastEntry()
      requires indexBlock.Valid() && !indexBlock.finished && OrderInv(bs, seps, [], offset, pendingIndexEntry, lastKey)
      requires |seps| <= |bs| && indexBlock.added == IndexPairs(bs, seps, interval)
      requires pendingIndexEntry ==>
        bs != [] && pendingHandle == Handle(bs[|bs| - 1].offset, |BlockBytes(bs[|bs| - 1].es, interval)|)
      modifies this`lastKey, this`seps, this`pendingIndexEntry, indexBlock
      ensures indexBlock.Valid() && !indexBlock.finished && Separated(bs, seps) && |seps| == |bs|
      ensures indexBlock.added == IndexPairs(bs, seps, interval)
    {
      hide BlockBytes, OrderInv, IndexPair, HandleBytes, BlockBuilder.Valid, Separated;
      if pendingIndexEntry {
        OrderPending(bs, seps, [], offset, lastKey);
        var sep := FindInternalSuccessor(lastKey);
        IndexGrows(bs, seps, sep, interval);
        LastSeparated(bs, seps, offset, lastKey, sep);
        lastKey := sep;
        indexBlock.Add(lastKey, HandleBytes(pendingHandle));
        seps := seps + [sep];
        pendingIndexEntry := false;
      } else {
        NoneSeparated(bs, seps, offset, lastKey);
      }
    }

    method StartFilter(ghost cur: seq<Pair>, ghost offset0: nat)
      requires filterBlock.Valid() && FilterInv(bs, cur, offset0, filterBlock.groups, filterBlock.pending)
        && offset0 <= offset
      modifies filterBlock
      ensures filterBlock.Valid()
      ensures FilterInv(bs + [DataBlock(offset0, cur)], [], offset, filterBlock.groups, filterBlock.pending)
    {
      hide FilterInv, FilterBlockBuilder.Valid;
      ghost var groups0, pending0 := filterBlock.groups, filterBlock.pending;
      FilterRoom(bs, cur, offset0, groups0, pending0, offset);
      filterBlock.StartBlock(offset);
      FlushKeepsFilter(bs, cur, offset0, groups0, pending0, offset, filterBlock.groups, filterBlock.pending);
    }
  }

  /** The entries are those of the blocks, in order. */
  ghost predicate Listed(entries: seq<Pair>, bs: seq<DataBlock>, cur: seq<Pair>, offset: nat) {
    && entries == EntriesOf(bs) + cur
    && (entries == [] <==> AllBlocks(bs, cur, offset) == [])
  }

  lemma NothingYet(interval: nat, blockSize: nat)
    ensures OrderInv([], [], [], 0, false, []) && FileInv([], map[], 0, interval) && FilterInv([], [], 0, [], [])
    ensures Listed([], [], [], 0) && Packed([], [], interval, blockSize) && IndexPairs([], [], interval) == []
  {
  }

  /** The estimate is the size the block would have. */
  lemma EstimateIsSize(es: seq<Pair>, interval: nat)
    ensures |BlockBytes(es, interval)|
      == |Data(es, interval, |es|)| + 4 * |RestartOffsets(es, interval, |es|)| + 4
  {
    hide Data, RestartOffsets;
  }

  lemma PackedMore(bs: seq<DataBlock>, cur: seq<Pair>, e: Pair, interval: nat, blockSize: nat, offset: nat, size: nat)
    requires Packed(bs, cur, interval, blockSize)
    requires var es := cur + [e];
      size == |Data(es, interval, |es|)| + 4 * |RestartOffsets(es, interval, |es|)| + 4
    ensures if size >= blockSize then Packed(AllBlocks(bs, cur + [e], offset), [], interval, blockSize)
            else Packed(bs, cur + [e], interval, blockSize)
  {
    hide BlockBytes, Data, RestartOffsets;
    EstimateIsSize(cur + [e], interval);
    assert (cur + [e])[..|cur|] == cur;
  }

  lemma PackedAll(bs: seq<DataBlock>, cur: seq<Pair>, offset: nat, interval: nat, blockSize: nat)
    requires Packed(bs, cur, interval, blockSize)
    ensures CutBySize(AllBlocks(bs, cur, offset), interval, blockSize)
  {
    hide CutAt, Unfilled;
  }

  lemma ListedAny(entries: seq<Pair>, bs: seq<DataBlock>, cur: seq<Pair>, offset: nat)
    requires Listed(entries, bs, cur, offset)
    ensures AllBlocks(bs, cur, offset) != [] ==> entries != []
  {
  }

  lemma ListedMore(entries: seq<Pair>, bs: seq<DataBlock>, cur: seq<Pair>, offset: nat, e: Pair)
    requires Listed(entries, bs, cur, offset)
    ensures Listed(entries + [e], bs, cur + [e], offset)
  {
    hide EntriesOf;
  }

  lemma ListedFlush(entries: seq<Pair>, bs: seq<DataBlock>, cur: seq<Pair>, offset: nat, offset': nat)
    requires Listed(entries, bs, cur, offset) && cur != []
    ensures Listed(entries, bs + [DataBlock(offset, cur)], [], offset')
  {
    hide EntriesOf;
    EntriesOne(bs, DataBlock(offset, cur));
  }

  lemma OrderPending(bs: seq<DataBlock>, seps: seq<seq<Octet>>, cur: seq<Pair>, offset: nat, lastKey: seq<Octet>)
    requires OrderInv(bs, seps, cur, offset, true, lastKey)
    ensures bs != [] && |seps| == |bs| - 1
  {
    hide BlocksOrdered, SepOk;
  }

  lemma OrderNotPending(bs: seq<DataBlock>, seps: seq<seq<Octet>>, cur: seq<Pair>, offset: nat, pending: bool,
                        lastKey: seq<Octet>)
    requires OrderInv(bs, seps, cur, offset, pending, lastKey) && cur != []
    ensures !pending && |seps| == |bs|
  {
    hide BlocksOrdered, SepOk;
  }

  lemma IndexGrows(bs: seq<DataBlock>, seps: seq<seq<Octet>>, sep: seq<Octet>, interval: nat)
    requires bs != [] && |seps| == |bs| - 1
    ensures IndexPairs(bs, seps + [sep], interval)
      == IndexPairs(bs, seps, interval)
         + [Pair(sep, HandleBytes(Handle(bs[|bs| - 1].offset, |BlockBytes(bs[|bs| - 1].es, interval)|)))]
  {
    hide HandleBytes, BlockBytes;
  }

  lemma IndexStays(bs: seq<DataBlock>, block: DataBlock, seps: seq<seq<Octet>>, interval: nat)
    requires |seps| <= |bs|
    ensures IndexPairs(bs + [block], seps, interval) == IndexPairs(bs, seps, interval)
  {
    hide IndexPair;
  }

  lemma OrderNumbers(bs: seq<DataBlock>, seps: seq<seq<Octet>>, cur: seq<Pair>, offset: nat, pending: bool,
                     lastKey: seq<Octet>)
    requires OrderInv(bs, seps, cur, offset, pending, lastKey)
    ensures |seps| <= |bs| && (pending ==> bs != [])
  {
    hide BlocksOrdered, SepOk;
  }

  lemma FlushKeepsFile(bs: seq<DataBlock>, blocks: map<nat, seq<Octet>>, offset: nat, interval: nat, cur: seq<Pair>,
                       offset': nat)
    requires FileInv(bs, blocks, offset, interval) && offset' == offset + |BlockBytes(cur, interval)| + TRAILER_SIZE
    ensures FileInv(bs + [DataBlock(offset, cur)], blocks[offset := BlockBytes(cur, interval)], offset', interval)
  {
    hide BlockBytes, End;
    var bs' := bs + [DataBlock(offset, cur)];
    EndOne(bs, DataBlock(offset, cur), interval);
    forall b | 0 <= b < |bs'|
      ensures bs'[b].offset == End(bs'[..b], interval)
    {
      assert bs'[..b] == bs[..b];
      assert bs[..|bs|] == bs;
    }
  }

  lemma FilterRoom(bs: seq<DataBlock>, cur: seq<Pair>, offset: nat, groups: seq<seq<seq<Octet>>>,
                   pending: seq<seq<Octet>>, offset': nat)
    requires FilterInv(bs, cur, offset, groups, pending) && offset <= offset'
    ensures |groups| <= offset' / BASE
  {
    hide Filed;
  }

  lemma ListedAll(entries: seq<Pair>, bs: seq<DataBlock>, offset: nat)
    requires Listed(entries, bs, [], offset)
    ensures EntriesOf(bs) == entries
  {
    hide EntriesOf;
  }

  lemma FilterCounts(bs: seq<DataBlock>, offset: nat, groups: seq<seq<seq<Octet>>>, pending: seq<seq<Octet>>,
                     groups': seq<seq<seq<Octet>>>)
    requires FilterInv(bs, [], offset, groups, pending) && KeyCount(groups') == KeyCount(groups) + |pending|
    requires groups' == (if pending == [] then groups else groups + [pending])
    ensures KeyCount(groups') == |EntriesOf(bs)| && |groups'| <= offset / BASE + 1
  {
    hide KeyCount, EntriesOf, Filed;
  }

  lemma LastSeparated(bs: seq<DataBlock>, seps: seq<seq<Octet>>, offset: nat, lastKey: seq<Octet>, sep: seq<Octet>)
    requires OrderInv(bs, seps, [], offset, true, lastKey) && (sep == lastKey || ByteLess(User(lastKey), User(sep)))
    requires |sep| <= |lastKey|
    ensures Separated(bs, seps + [sep])
  {
    hide User, SortedBy, InternalLess, Separates, ByteLess;
    var seps' := seps + [sep];
    forall b | 0 <= b < |bs|
      ensures SepOk(bs, seps', b)
    {
      if b < |seps| {
        assert SepOk(bs, seps, b);
      }
    }
  }

  /** Without a pending entry and without a current block there are no blocks. */
  lemma NoneSeparated(bs: seq<DataBlock>, seps: seq<seq<Octet>>, offset: nat, lastKey: seq<Octet>)
    requires OrderInv(bs, seps, [], offset, false, lastKey)
    ensures Separated(bs, seps) && |seps| == |bs|
  {
    hide SepOk, SortedBy, InternalLess;
    if seps != [] {
      Followed(bs, seps, [], offset, false, lastKey);
    }
  }

  lemma Followed(bs: seq<DataBlock>, seps: seq<seq<Octet>>, cur: seq<Pair>, offset: nat, pending: bool,
                 lastKey: seq<Octet>)
    requires OrderInv(bs, seps, cur, offset, pending, lastKey) && seps != []
    ensures |seps| < |AllBlocks(bs, cur, offset)|
  {
    hide SortedBy, InternalLess;
    assert SepOk(AllBlocks(bs, cur, offset), seps, |seps| - 1);
  }

  lemma FinishedLaid(t: Table, lay: Layout, offset: nat, hash: Hash)
    requires Separated(lay.bs, lay.seps) && FileInv(lay.bs, t.blocks, offset, lay.interval)
    requires t.index == BlockBytes(IndexPairs(lay.bs, lay.seps, lay.interval), 1)
    requires t.filter.Some? ==>
      t.filter.value == FilterBytes(lay.parts) && forall b :: 0 <= b < |lay.bs| ==>
        FilterKnows(hash, lay.parts, lay.bs[b])
    ensures Laid(t, lay, hash)
  {
    hide BlockBytes, IndexPairs, FilterBytes, FilterKnows, BlocksOrdered, SepOk, End;
  }

  /** What was added bounds every block, the index and the filters. */
  lemma FinishedSize(t: Table, lay: Layout, offset: nat, groups: seq<seq<seq<Octet>>>, bitsPerKey: nat, hash: Hash)
    requires Laid(t, lay, hash) && FileInv(lay.bs, t.blocks, offset, lay.interval)
    requires t.filter.Some? ==> Lengths(lay.parts, groups, bitsPerKey) && |groups| <= offset / BASE + 1
    requires t.filter.Some? ==> KeyCount(groups) == |EntriesOf(lay.bs)|
    requires Roomy(EntriesOf(lay.bs), bitsPerKey)
    ensures Sized(t)
  {
    hide BlockBytes, IndexPairs, FilterBytes, FilterKnows, SortedBy, InternalLess, Cost, End, EntriesOf, Lengths,
         KeyCount;
    hide User, Separates, ByteLess;
    RoomyCosts(EntriesOf(lay.bs), bitsPerKey);
    EndSize(lay.bs, lay.interval);
    assert offset < LIMIT32;
    assert ShortIndex(lay.bs, lay.seps, lay.interval) by {
      forall b | 0 <= b < |lay.bs|
        ensures |lay.seps[b]| <= |LastKey(lay.bs[b])| && |BlockBytes(lay.bs[b].es, lay.interval)| < LIMIT64
      {
        assert SepOk(lay.bs, lay.seps, b);
        assert lay.bs[b].offset in t.blocks;
      }
    }
    IndexSize(lay.bs, lay.seps, lay.interval);
    if t.filter.Some? {
      FilterBlockSize(lay.parts, groups, bitsPerKey, offset);
    }
  }

  /** The table is a layout of these pairs, cut into blocks by their size. */
  ghost predicate Built(t: Table, pairs: seq<Pair>, interval: nat, blockSize: nat, hash: Hash) {
    exists lay :: Laid(t, lay, hash) && lay.interval == interval && EntriesOf(lay.bs) == pairs &&
                  CutBySize(lay.bs, interval, blockSize)
  }

  /** `e` is the first of the pairs at or after `k`. */
  ghost predicate FirstIn(pairs: seq<Pair>, k: seq<Octet>, e: Pair) {
    && e in pairs && !InternalLess(e.key, k)
    && forall x :: x in pairs && !InternalLess(x.key, k) ==> x == e || InternalLess(e.key, x.key)
  }

  lemma FirstInBlocks(bs: seq<DataBlock>, k: seq<Octet>, e: Pair)
    ensures FirstIn(EntriesOf(bs), k, e) <==> IsFirst(bs, k, e)
  {
    hide InternalLess, InBlocks, EntriesOf;
    forall x ensures x in EntriesOf(bs) <==> InBlocks(bs, x) { InEntries(bs, x); }
  }

  /**
   * For every strictly increasing list of entries: building a table and looking a key up finds what a scan of the list
   * finds first, as far as the user key asked for is concerned. The lengths of the entries alone tell that the table
   * fits its format; a table that does answers so, however large it is.
   */
  method BuildAndGet(pairs: seq<Pair>, interval: nat, blockSize: nat, hasFilter: bool, hash: Hash, bitsPerKey: nat,
                     probes: nat, k: seq<Octet>)
    returns (r: Option<Pair>, t: Table)
    requires interval >= 1 && 1 <= probes <= 30
    requires forall i :: 0 < i < |pairs| ==> InternalLess(pairs[i - 1].key, pairs[i].key)
    ensures t.filter.Some? == hasFilter
    ensures Built(t, pairs, interval, blockSize, hash)
    ensures Roomy(pairs, bitsPerKey) ==> GoodPairs(pairs) && Sized(t)
    ensures GoodPairs(pairs) && Sized(t) ==>
      && (forall e :: FirstIn(pairs, k, e) && User(e.key) == User(k) ==> r == Some(e))
      && (r.Some? ==> FirstIn(pairs, k, r.value))
  {
    hide InternalLess, IsFirst, FirstIn, Laid, Roomy, Sized, GoodPairs, TableOk, User, TableBuilder.Valid,
         FilterBlockBuilder.Valid, BlockBuilder.Valid, EntriesOf, CutBySize;
    var builder := new TableBuilder(interval, blockSize, hasFilter, hash, bitsPerKey, probes);
    for i := 0 to |pairs|
      invariant builder.Valid() && builder.entries == pairs[..i] && (i > 0 ==> builder.lastKey == pairs[i - 1].key)
      invariant fresh(builder) && fresh(builder.dataBlock) && fresh(builder.indexBlock) && fresh(builder.filterBlock)
      invariant builder.interval == interval && builder.blockSize == blockSize && builder.hasFilter == hasFilter
      invariant builder.filterBlock.hash == hash && builder.filterBlock.bitsPerKey == bitsPerKey
    {
      builder.Add(pairs[i].key, pairs[i].value);
    }
    assert pairs[..|pairs|] == pairs;
    ghost var lay;
    t, lay := builder.Finish();
    r := InternalGet(t, hash, k, lay);
    forall e ensures FirstIn(pairs, k, e) <==> IsFirst(lay.bs, k, e) { FirstInBlocks(lay.bs, k, e); }
  }
}
