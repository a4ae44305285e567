/** The layout of a table: data blocks, an index of separators and a filter, and why they answer like a scan
    (table/table_builder.cc, table/table.cc). */
module TableFormat {
  import opened Views
  import opened Coding
  import opened BlockFormat
  import opened Blocks
  import opened Comparators

  datatype Handle = Handle(offset: nat, size: nat)

  datatype DataBlock = DataBlock(offset: nat, es: seq<Pair>)

  function HandleBytes(h: Handle): seq<Octet> {
    Varint(h.offset) + Varint(h.size)
  }

  function ReadHandle(bytes: seq<Octet>): Option<Handle> {
    match ReadVarint64(bytes)
    case None => None
    case Some(p) =>
      match ReadVarint64(p.1)
      case None => None
      case Some(q) => Some(Handle(p.0, q.0))
  }

  /** The offset comes first. */
  lemma HandleParts(h: Handle)
    requires h.offset < 128
    ensures HandleBytes(h)[0] == h.offset && HandleBytes(h)[1..] == Varint(h.size)
  {
    assert Varint(h.offset) == [h.offset];
  }

  lemma HandleRoundTrip(h: Handle)
    requires h.offset < LIMIT64 && h.size < LIMIT64
    ensures ReadHandle(HandleBytes(h)) == Some(h)
  {
    hide Varint, ReadVarint64;
    Varint64RoundTrip(h.offset, Varint(h.size));
    Varint64RoundTrip(h.size, []);
    assert Varint(h.size) + [] == Varint(h.size);
  }

  // ---------------------------------------------------------------------------------------------------------
  // Blocks in order, with separators
  // ---------------------------------------------------------------------------------------------------------

  function FirstKey(b: DataBlock): seq<Octet>
    requires b.es != []
  {
    b.es[0].key
  }

  function LastKey(b: DataBlock): seq<Octet>
    requires b.es != []
  {
    b.es[|b.es| - 1].key
  }

  ghost predicate BlocksOrdered(bs: seq<DataBlock>) {
    && (forall b :: 0 <= b < |bs| ==> bs[b].es != [] && SortedBy(bs[b].es, InternalLess))
    && forall b, c :: 0 <= b < c < |bs| ==> InternalLess(LastKey(bs[b]), FirstKey(bs[c]))
  }

  /** The entries of the blocks, one block after the other. */
  function EntriesOf(bs: seq<DataBlock>): seq<Pair> {
    if bs == [] then [] else EntriesOf(bs[..|bs| - 1]) + bs[|bs| - 1].es
  }

  lemma EntriesOne(bs: seq<DataBlock>, b: DataBlock)
    ensures EntriesOf(bs + [b]) == EntriesOf(bs) + b.es
  {
    assert (bs + [b])[..|bs|] == bs;
  }

  lemma {:induction false} InEntries(bs: seq<DataBlock>, e: Pair)
    ensures e in EntriesOf(bs) <==> InBlocks(bs, e)
  {
    if bs != [] {
      var n := |bs| - 1;
      InEntries(bs[..n], e);
      assert bs == bs[..n] + [bs[n]];
      if InBlocks(bs[..n], e) {
        var b :| 0 <= b < n && e in bs[..n][b].es;
        assert e in bs[b].es;
      }
      if InBlocks(bs, e) {
        var b :| 0 <= b < |bs| && e in bs[b].es;
        assert b < n ==> e in bs[..n][b].es;
      }
    }
  }

  /** At or after the last key of the block, and between it and the next block if there is one; no longer than it. */
  ghost predicate SepOk(bs: seq<DataBlock>, seps: seq<seq<Octet>>, b: nat)
    requires b < |bs| && b < |seps| && (forall c :: 0 <= c < |bs| ==> bs[c].es != [])
  {
    && |seps[b]| <= |LastKey(bs[b])|
    && (seps[b] == LastKey(bs[b]) || ByteLess(User(LastKey(bs[b])), User(seps[b])))
    && (b + 1 < |bs| ==> Separates(LastKey(bs[b]), seps[b], FirstKey(bs[b + 1])))
  }

  ghost predicate Separated(bs: seq<DataBlock>, seps: seq<seq<Octet>>) {
    BlocksOrdered(bs) && |seps| == |bs| && forall b :: 0 <= b < |bs| ==> SepOk(bs, seps, b)
  }

  ghost predicate InBlocks(bs: seq<DataBlock>, e: Pair) {
    exists b :: 0 <= b < |bs| && e in bs[b].es
  }

  /** `e` is the first entry at or after `k`. */
  ghost predicate IsFirst(bs: seq<DataBlock>, k: seq<Octet>, e: Pair) {
    && InBlocks(bs, e) && !InternalLess(e.key, k)
    && forall x :: InBlocks(bs, x) && !InternalLess(x.key, k) ==> x == e || InternalLess(e.key, x.key)
  }

  lemma InBlock(es: seq<Pair>, e: Pair)
    requires es != [] && SortedBy(es, InternalLess) && e in es
    ensures e == es[0] || InternalLess(es[0].key, e.key)
    ensures e == es[|es| - 1] || InternalLess(e.key, es[|es| - 1].key)
  {
    hide InternalLess;
    var i :| 0 <= i < |es| && es[i] == e;
  }

  /** An entry of an earlier block comes before an entry of a later one. */
  lemma AcrossBlocks(bs: seq<DataBlock>, b: nat, c: nat, x: Pair, y: Pair)
    requires BlocksOrdered(bs) && b < c < |bs| && x in bs[b].es && y in bs[c].es
    ensures InternalLess(x.key, y.key)
  {
    hide InternalLess, SortedBy;
    InBlock(bs[b].es, x);
    InBlock(bs[c].es, y);
    var l, f := LastKey(bs[b]), FirstKey(bs[c]);
    if x.key != l {
      InternalTransitive(x.key, l, f);
    }
    if f != y.key {
      InternalTransitive(x.key, f, y.key);
    }
  }

  /** Keys at or below the separator of a block without being in it are below the user key of the next block. */
  lemma AfterLast(bs: seq<DataBlock>, seps: seq<seq<Octet>>, b: nat, k: seq<Octet>)
    requires Separated(bs, seps) && b < |bs| && InternalLess(LastKey(bs[b]), k) && !InternalLess(seps[b], k)
    ensures b + 1 < |bs| ==> ByteLess(User(k), User(FirstKey(bs[b + 1])))
  {
    hide User, Tag, SortedBy, FirstKey, LastKey;
    if b + 1 < |bs| {
      assert SepOk(bs, seps, b);
      assert seps[b] != LastKey(bs[b]);
      var s, f := User(seps[b]), User(FirstKey(bs[b + 1]));
      ByteTotal(User(k), s);
      if ByteLess(User(k), s) {
        ByteTransitive(User(k), s, f);
      }
    }
  }

  /** Every entry of a block whose separator is before `k` is before `k`. */
  lemma BeforeSeparator(bs: seq<DataBlock>, seps: seq<seq<Octet>>, b: nat, k: seq<Octet>, x: Pair)
    requires Separated(bs, seps) && b < |bs| && InternalLess(seps[b], k) && x in bs[b].es
    ensures InternalLess(x.key, k)
  {
    hide User, Tag, SortedBy, InternalLess;
    InBlock(bs[b].es, x);
    assert SepOk(bs, seps, b);
    var l := LastKey(bs[b]);
    if seps[b] != l {
      assert InternalLess(l, seps[b]) by { ByUser(l, seps[b]); }
      InternalTransitive(l, seps[b], k);
    }
    if x.key != l {
      InternalTransitive(x.key, l, k);
    }
  }

  lemma ByUser(a: seq<Octet>, b: seq<Octet>)
    requires ByteLess(User(a), User(b))
    ensures InternalLess(a, b)
  {
  }

  /** The separators are in order. */
  lemma SepsSorted(bs: seq<DataBlock>, seps: seq<seq<Octet>>, b: nat, c: nat)
    requires Separated(bs, seps) && b < c < |bs|
    ensures InternalLess(seps[b], seps[c])
  {
    hide User, Tag, SortedBy, InternalLess;
    assert SepOk(bs, seps, b) && SepOk(bs, seps, c);
    var f, l := FirstKey(bs[b + 1]), LastKey(bs[c]);
    assert InternalLess(seps[b], f) by {
      if seps[b] != LastKey(bs[b]) {
        ByUser(seps[b], f);
      }
    }
    assert f == l || InternalLess(f, l) by {
      if b + 1 == c {
        InBlock(bs[c].es, bs[c].es[0]);
      } else {
        AcrossBlocks(bs, b + 1, c, bs[b + 1].es[0], bs[c].es[|bs[c].es| - 1]);
      }
    }
    if f != l {
      InternalTransitive(seps[b], f, l);
    }
    if seps[c] != l {
      ByUser(l, seps[c]);
      InternalTransitive(seps[b], l, seps[c]);
    }
  }

  /** The entry found in the block that the index names is the first one of the whole table. */
  lemma FoundInBlock(bs: seq<DataBlock>, seps: seq<seq<Octet>>, k: seq<Octet>, b: nat, i: nat)
    requires Separated(bs, seps) && b < |bs| && (forall c :: 0 <= c < b ==> InternalLess(seps[c], k))
    requires i < |bs[b].es| && forall j :: 0 <= j < |bs[b].es| ==> (InternalLess(bs[b].es[j].key, k) <==> j < i)
    ensures IsFirst(bs, k, bs[b].es[i])
  {
    hide User, Tag, InternalLess;
    var e := bs[b].es[i];
    forall x | InBlocks(bs, x) && !InternalLess(x.key, k)
      ensures x == e || InternalLess(e.key, x.key)
    {
      var c :| 0 <= c < |bs| && x in bs[c].es;
      if c < b {
        BeforeSeparator(bs, seps, c, k, x);
      } else if c == b {
        var j :| 0 <= j < |bs[b].es| && bs[b].es[j] == x;
      } else {
        AcrossBlocks(bs, b, c, e, x);
      }
    }
  }

  /** If the block that the index names has no entry at or after `k`, no entry there has the user key of `k`. */
  lemma NotInBlock(bs: seq<DataBlock>, seps: seq<seq<Octet>>, k: seq<Octet>, b: nat, e: Pair)
    requires Separated(bs, seps) && b < |bs| && (forall c :: 0 <= c < b ==> InternalLess(seps[c], k))
    requires !InternalLess(seps[b], k) && (forall j :: 0 <= j < |bs[b].es| ==> InternalLess(bs[b].es[j].key, k))
    requires IsFirst(bs, k, e)
    ensures User(e.key) != User(k)
  {
    hide User, Tag, InternalLess;
    var c :| 0 <= c < |bs| && e in bs[c].es;
    if c < b {
      BeforeSeparator(bs, seps, c, k, e);
    } else if c > b {
      AfterLast(bs, seps, b, k);
      var f := bs[b + 1].es[0];
      if c == b + 1 {
        InBlock(bs[c].es, e);
      } else {
        AcrossBlocks(bs, b + 1, c, f, e);
      }
      UserAbove(k, f.key, e.key);
    }
  }

  lemma UserAbove(k: seq<Octet>, f: seq<Octet>, e: seq<Octet>)
    requires ByteLess(User(k), User(f)) && (f == e || InternalLess(f, e))
    ensures User(e) != User(k)
  {
    hide User, Tag;
    ByteIrreflexive(User(k));
    if ByteLess(User(f), User(e)) {
      ByteTransitive(User(k), User(f), User(e));
    }
  }

  /** Past every separator there is nothing. */
  lemma PastTheEnd(bs: seq<DataBlock>, seps: seq<seq<Octet>>, k: seq<Octet>, e: Pair)
    requires Separated(bs, seps) && forall c :: 0 <= c < |bs| ==> InternalLess(seps[c], k)
    ensures !IsFirst(bs, k, e)
  {
    hide User, Tag, InternalLess;
    if IsFirst(bs, k, e) {
      var c :| 0 <= c < |bs| && e in bs[c].es;
      BeforeSeparator(bs, seps, c, k, e);
    }
  }
}
