/** Looking a key up in a table, and building tables (table/table.cc, table/table_builder.cc). */
module Tables {
  import opened Views
  import opened Coding
  import opened BlockFormat
  import opened Blocks
  import opened Comparators
  import opened Bloom
  import opened FilterBlocks
  import opened TableFormat

  /** A finished table: its data blocks by file offset, its index block, and its filter block if it has one. */
  datatype Table = Table(blocks: map<nat, seq<Octet>>, index: seq<Octet>, filter: Option<seq<Octet>>)

  /** What a table was built from: its blocks, their separators, and the filters. */
  datatype Layout = Layout(bs: seq<DataBlock>, seps: seq<seq<Octet>>, interval: nat, parts: seq<seq<Octet>>)

  function IndexPair(b: DataBlock, sep: seq<Octet>, interval: nat): Pair {
    Pair(sep, HandleBytes(Handle(b.offset, |BlockBytes(b.es, interval)|)))
  }

  function IndexPairs(bs: seq<DataBlock>, seps: seq<seq<Octet>>, interval: nat): (r: seq<Pair>)
    requires |seps| <= |bs|
    ensures |r| == |seps|
  {
    seq(|seps|, b requires 0 <= b < |seps| => IndexPair(bs[b], seps[b], interval))
  }

  ghost predicate BlockStored(blocks: map<nat, seq<Octet>>, b: DataBlock, interval: nat) {
    b.offset in blocks && BuiltFrom(blocks[b.offset], b.es, interval) && b.offset < LIMIT64
  }

  /** The filter of the offset of a block says yes to every key of the block. */
  ghost predicate FilterKnows(hash: Hash, parts: seq<seq<Octet>>, b: DataBlock) {
    b.offset / BASE < |parts| ==> forall e :: e in b.es ==> Matches(hash, User(e.key), parts[b.offset / BASE])
  }

  ghost predicate TableOk(t: Table, lay: Layout, hash: Hash) {
    && Separated(lay.bs, lay.seps)
    && (forall b :: 0 <= b < |lay.bs| ==> BlockStored(t.blocks, lay.bs[b], lay.interval))
    && BuiltFrom(t.index, IndexPairs(lay.bs, lay.seps, lay.interval), 1)
    && (t.filter.Some? ==>
          && t.filter.value == FilterBytes(lay.parts) && |t.filter.value| < LIMIT32
          && forall b :: 0 <= b < |lay.bs| ==> FilterKnows(hash, lay.parts, lay.bs[b]))
  }

  // ---------------------------------------------------------------------------------------------------------
  // Looking up
  // ---------------------------------------------------------------------------------------------------------

  /** A new iterator over a block, and a seek. */
  method SeekBlock(contents: seq<Octet>, k: seq<Octet>, ghost es: seq<Pair>, ghost interval: nat)
    returns (r: Option<Pair>, ghost j: nat)
    ensures BuiltFrom(contents, es, interval) && SortedBy(es, InternalLess) ==>
      && j <= |es| && r == (if j < |es| then Some(es[j]) else None)
      && forall i :: 0 <= i < |es| ==> (InternalLess(es[i].key, k) <==> i < j)
  {
    hide BuiltFrom, SortedBy, Offset, RestartEntries, InternalLess;
    ghost var good := BuiltFrom(contents, es, interval) && SortedBy(es, InternalLess);
    j := 0;
    var ok, restarts, numRestarts := ReadTrailer(contents, es, interval);
    if !ok || numRestarts == 0 {
      return None, 0;
    }
    var iter := new BlockIter(contents, restarts, numRestarts, InternalLess, es, interval);
    j := iter.Seek(k);
    if iter.current < iter.restarts {
      r := Some(Pair(iter.key, iter.data[iter.valueStart..iter.valueEnd]));
    } else {
      r := None;
    }
  }

  method DecodeHandle(bytes: seq<Octet>) returns (r: Option<Handle>)
    ensures r == ReadHandle(bytes)
  {
    hide ReadVarint64;
    var p := GetVarint64(bytes);
    if p == None {
      return None;
    }
    var q := GetVarint64(p.value.1);
    if q == None {
      return None;
    }
    return Some(Handle(p.value.0, q.value.0));
  }

  /** The entry is in a block whose filter does not rule the key out. */
  ghost predicate Admitted(lay: Layout, hash: Hash, k: seq<Octet>, e: Pair) {
    exists b :: 0 <= b < |lay.bs| && e in lay.bs[b].es && Admits(lay, hash, k, b)
  }

  ghost predicate Admits(lay: Layout, hash: Hash, k: seq<Octet>, b: nat)
    requires b < |lay.bs|
  {
    var i := lay.bs[b].offset / BASE;
    i < |lay.parts| ==> Matches(hash, User(k), lay.parts[i])
  }

  /** What InternalGet hands to the caller, who then looks whether it has the user key that was asked for: for that user
      key it is what a scan of all entries would find first. */
  method InternalGet(t: Table, hash: Hash, k: seq<Octet>, ghost lay: Layout) returns (r: Option<Pair>)
    ensures TableOk(t, lay, hash) ==>
      && (forall e :: IsFirst(lay.bs, k, e) && User(e.key) == User(k) ==> r == Some(e))
      && (r.Some? ==> IsFirst(lay.bs, k, r.value) && (t.filter.Some? ==> Admitted(lay, hash, k, r.value)))
  {
    hide BuiltFrom, InternalLess, IsFirst, User, BlockBytes, HandleBytes, ReadHandle, Matches, FilterBytes;
    ghost var good := TableOk(t, lay, hash);
    ghost var ies := if good then IndexPairs(lay.bs, lay.seps, lay.interval) else [];
    if good {
      IndexSorted(lay);
    }
    ghost var b := 0;
    var entry;
    entry, b := SeekBlock(t.index, k, ies, 1);
    if entry == None {
      if good {
        Nothing(lay, k);
      }
      return None;
    }
    assert good ==> b < |lay.bs| && entry.value == IndexPair(lay.bs[b], lay.seps[b], lay.interval);
    ghost var block := if good then lay.bs[b] else DataBlock(0, []);
    if good {
      assert BlockStored(t.blocks, block, lay.interval);
      StoredHandle(t.blocks, block, lay.seps[b], lay.interval);
      Named(lay, k, b);
    }
    var handle := DecodeHandle(entry.value.value);
    if handle == None {
      return None;
    }
    if t.filter.Some? {
      var may := FilterMayMatch(hash, t.filter.value, handle.value.offset, k, lay.parts);
      if !may {
        if good {
          Refused(lay, hash, k, b);
        }
        return None;
      }
    }
    if handle.value.offset !in t.blocks {
      return None;
    }
    ghost var i;
    r, i := SeekBlock(t.blocks[handle.value.offset], k, block.es, lay.interval);
    if good {
      Answer(lay, k, b, i);
    }
  }

  lemma IndexSorted(lay: Layout)
    requires Separated(lay.bs, lay.seps)
    ensures SortedBy(IndexPairs(lay.bs, lay.seps, lay.interval), InternalLess)
  {
    hide InternalLess, BlocksOrdered, BlockBytes, HandleBytes;
    var ies := IndexPairs(lay.bs, lay.seps, lay.interval);
    forall x, y, z | InternalLess(x, y) && InternalLess(y, z)
      ensures InternalLess(x, z)
    {
      InternalTransitive(x, y, z);
    }
    forall b, c | 0 <= b < c < |ies|
      ensures InternalLess(ies[b].key, ies[c].key)
    {
      SepsSorted(lay.bs, lay.seps, b, c);
    }
  }

  lemma StoredHandle(blocks: map<nat, seq<Octet>>, block: DataBlock, sep: seq<Octet>, interval: nat)
    requires BlockStored(blocks, block, interval)
    ensures ReadHandle(IndexPair(block, sep, interval).value)
      == Some(Handle(block.offset, |BlockBytes(block.es, interval)|))
  {
    hide BlockBytes, HandleBytes, ReadHandle;
    HandleRoundTrip(Handle(block.offset, |BlockBytes(block.es, interval)|));
  }

  /** The index seek failed: nothing is at or after the key. */
  lemma Nothing(lay: Layout, k: seq<Octet>)
    requires Separated(lay.bs, lay.seps)
    requires var ies := IndexPairs(lay.bs, lay.seps, lay.interval); forall c :: 0 <= c < |ies| ==>
      InternalLess(ies[c].key, k)
    ensures forall e :: !IsFirst(lay.bs, k, e)
  {
    hide InternalLess, BlocksOrdered, IsFirst, BlockBytes, HandleBytes;
    var ies := IndexPairs(lay.bs, lay.seps, lay.interval);
    assert forall c :: 0 <= c < |lay.bs| ==> ies[c].key == lay.seps[c];
    forall e
      ensures !IsFirst(lay.bs, k, e)
    {
      PastTheEnd(lay.bs, lay.seps, k, e);
    }
  }

  /** The index seek named block `b`. */
  ghost predicate IsNamed(lay: Layout, k: seq<Octet>, b: nat) {
    && b < |lay.bs| == |lay.seps| && (forall c :: 0 <= c < b ==> InternalLess(lay.seps[c], k))
      && !InternalLess(lay.seps[b], k)
  }

  lemma Named(lay: Layout, k: seq<Octet>, b: nat)
    requires Separated(lay.bs, lay.seps) && b < |lay.bs|
    requires var ies := IndexPairs(lay.bs, lay.seps, lay.interval); forall c :: 0 <= c < |ies| ==>
      (InternalLess(ies[c].key, k) <==> c < b)
    ensures IsNamed(lay, k, b) && SortedBy(lay.bs[b].es, InternalLess)
  {
    hide InternalLess, SortedBy, BlockBytes, HandleBytes;
    var ies := IndexPairs(lay.bs, lay.seps, lay.interval);
    assert forall c :: 0 <= c < |lay.bs| ==> ies[c].key == lay.seps[c];
  }

  lemma Answer(lay: Layout, k: seq<Octet>, b: nat, i: nat)
    requires Separated(lay.bs, lay.seps) && IsNamed(lay, k, b) && i <= |lay.bs[b].es|
    requires forall j :: 0 <= j < |lay.bs[b].es| ==> (InternalLess(lay.bs[b].es[j].key, k) <==> j < i)
    ensures i < |lay.bs[b].es| ==>
      IsFirst(lay.bs, k, lay.bs[b].es[i]) && forall e :: IsFirst(lay.bs, k, e) ==> e == lay.bs[b].es[i]
    ensures i == |lay.bs[b].es| ==> forall e :: IsFirst(lay.bs, k, e) ==> User(e.key) != User(k)
  {
    hide InternalLess, User, BlocksOrdered;
    if i < |lay.bs[b].es| {
      FoundInBlock(lay.bs, lay.seps, k, b, i);
      forall e | IsFirst(lay.bs, k, e)
        ensures e == lay.bs[b].es[i]
      {
        OnlyFirst(lay.bs, k, e, lay.bs[b].es[i]);
      }
    } else {
      forall e | IsFirst(lay.bs, k, e)
        ensures User(e.key) != User(k)
      {
        NotInBlock(lay.bs, lay.seps, k, b, e);
      }
    }
  }

  lemma OnlyFirst(bs: seq<DataBlock>, k: seq<Octet>, e: Pair, x: Pair)
    requires IsFirst(bs, k, e) && IsFirst(bs, k, x)
    ensures e == x
  {
    if e != x {
      assert InternalLess(e.key, x.key) && InternalLess(x.key, e.key);
      InternalTransitive(e.key, x.key, e.key);
      Irreflexive(e.key);
    }
  }

  lemma Irreflexive(k: seq<Octet>)
    ensures !InternalLess(k, k)
  {
    hide User;
    ByteIrreflexive(User(k));
  }

  /** The filter refused the key: no entry that the table could answer with has its user key. */
  lemma Refused(lay: Layout, hash: Hash, k: seq<Octet>, b: nat)
    requires Separated(lay.bs, lay.seps) && IsNamed(lay, k, b) && FilterKnows(hash, lay.parts, lay.bs[b])
    requires lay.bs[b].offset / BASE < |lay.parts| && !Matches(hash, User(k), lay.parts[lay.bs[b].offset / BASE])
    ensures forall e :: IsFirst(lay.bs, k, e) ==> User(e.key) != User(k)
  {
    hide InternalLess, User, Matches;
    forall e | IsFirst(lay.bs, k, e)
      ensures User(e.key) != User(k)
    {
      if e !in lay.bs[b].es {
        OutsideNamed(lay, k, b, e);
      }
    }
  }

  lemma OutsideNamed(lay: Layout, k: seq<Octet>, b: nat, e: Pair)
    requires Separated(lay.bs, lay.seps) && IsNamed(lay, k, b) && IsFirst(lay.bs, k, e) && e !in lay.bs[b].es
    ensures User(e.key) != User(k)
  {
    hide InternalLess, User;
    forall j | 0 <= j < |lay.bs[b].es|
      ensures InternalLess(lay.bs[b].es[j].key, k)
    {
      var x := lay.bs[b].es[j];
      assert InBlocks(lay.bs, x);
      if !InternalLess(x.key, k) {
        assert InternalLess(e.key, x.key);
        NotBefore(lay, k, b, e, x);
      }
    }
    NotInBlock(lay.bs, lay.seps, k, b, e);
  }

  /** Nothing at or after the key is in a block before the one the index named. */
  lemma NotBefore(lay: Layout, k: seq<Octet>, b: nat, e: Pair, x: Pair)
    requires Separated(lay.bs, lay.seps) && IsNamed(lay, k, b) && IsFirst(lay.bs, k, e) && e !in lay.bs[b].es
      && x in lay.bs[b].es
    ensures !InternalLess(e.key, x.key)
  {
    hide InternalLess, User;
    var c :| 0 <= c < |lay.bs| && e in lay.bs[c].es;
    if c < b {
      BeforeSeparator(lay.bs, lay.seps, c, k, e);
    } else {
      AcrossBlocks(lay.bs, b, c, x, e);
      if InternalLess(e.key, x.key) {
        InternalTransitive(e.key, x.key, e.key);
        Irreflexive(e.key);
      }
    }
  }
}
