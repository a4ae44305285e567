/** The hash table of a cache shard (util/cache.cc): chains of handles in a power-of-two number of buckets. */
module HandleTables {
  import opened Views
  import opened Coding

  /** What the table looks at in an entry. */
  datatype Handle = Handle(id: nat, key: seq<Octet>, hash: nat)

  predicate Same(a: Handle, key: seq<Octet>, hash: nat) {
    a.hash == hash && a.key == key
  }

  ghost predicate Distinct(chain: seq<Handle>) {
    forall i, j :: 0 <= i < j < |chain| ==> !Same(chain[i], chain[j].key, chain[j].hash)
  }

  ghost predicate PowerOfTwo(n: nat) {
    exists k: nat :: n == Pow2(k)
  }

  /** The buckets hold these handles, each where its hash says, and no key twice. */
  ghost predicate Buckets(list: seq<seq<Handle>>, handles: set<Handle>) {
    && |list| > 0
    && (forall i :: 0 <= i < |list| ==> Distinct(list[i]))
    && (forall i, h :: 0 <= i < |list| && h in list[i] ==> h in handles && h.hash % |list| == i)
    && (forall h :: h in handles ==> h in list[h.hash % |list|])
  }

  /** At most one handle for each key. */
  ghost predicate OnePerKey(handles: set<Handle>) {
    forall a, b :: a in handles && b in handles && Same(a, b.key, b.hash) ==> a == b
  }

  /** Where the key is in its chain, or the end of the chain. */
  method FindPointer(chain: seq<Handle>, key: seq<Octet>, hash: nat) returns (p: nat)
    ensures p <= |chain| && (p < |chain| ==> Same(chain[p], key, hash))
    ensures forall i :: 0 <= i < p ==> !Same(chain[i], key, hash)
  {
    p := 0;
    while p < |chain| && !Same(chain[p], key, hash)
      invariant 0 <= p <= |chain| && forall i :: 0 <= i < p ==> !Same(chain[i], key, hash)
    {
      p := p + 1;
    }
  }

  class HandleTable {
    var list: seq<seq<Handle>>
    var elems: nat
    ghost var handles: set<Handle>

    /** There are at least as many buckets as handles. */
    ghost predicate Valid()
      reads this
    {
      Core() && elems <= |list|
    }

    ghost predicate Core()
      reads this
    {
      && PowerOfTwo(|list|) && Buckets(list, handles) && OnePerKey(handles) && elems == |handles|
    }

    constructor ()
      ensures Valid() && handles == {} && |list| == 4
    {
      elems, handles, list := 0, {}, [[], [], [], []];
      new;
      assert Pow2(2) == 4;
    }

    method Lookup(key: seq<Octet>, hash: nat) returns (r: Option<Handle>)
      requires Valid()
      ensures r.Some? ==> r.value in handles && Same(r.value, key, hash)
      ensures r.None? ==> forall h :: h in handles ==> !Same(h, key, hash)
    {
      var b := hash % |list|;
      var p := FindPointer(list[b], key, hash);
      r := if p < |list[b]| then Some(list[b][p]) else None;
    }

    /** The new handle takes the place of the old one with its key, if there is one. */
    method Insert(h: Handle) returns (old': Option<Handle>)
      requires Valid()
      modifies this
      ensures Valid()
      ensures old'.Some? ==>
        old'.value in old(handles) && Same(old'.value, h.key, h.hash) && handles == old(handles) - {old'.value} + {h}
      ensures old'.None? ==>
        (forall x :: x in old(handles) ==> !Same(x, h.key, h.hash)) && handles == old(handles) + {h}
      ensures elems <= |old(list)| ==> |list| == |old(list)|
    {
      hide Distinct, PowerOfTwo, Buckets, OnePerKey;
      SomeBucket(list, handles);
      var b := h.hash % |list|;
      var p := FindPointer(list[b], h.key, h.hash);
      if p < |list[b]| {
        old' := Some(list[b][p]);
        Replaced(list, handles, b, p, h);
        handles := handles - {list[b][p]} + {h};
        list := list[b := list[b][p := h]];
      } else {
        old' := None;
        Appended(list, handles, b, h);
        list := list[b := list[b] + [h]];
        handles := handles + {h};
        elems := elems + 1;
        if elems > |list| {
          Resize();
        }
      }
    }

    method Remove(key: seq<Octet>, hash: nat) returns (r: Option<Handle>)
      requires Valid()
      modifies this
      ensures Valid()
      ensures r.Some? ==> r.value in old(handles) && Same(r.value, key, hash) && handles == old(handles) - {r.value}
      ensures r.None? ==> handles == old(handles) && forall h :: h in handles ==> !Same(h, key, hash)
      ensures |list| == |old(list)|
    {
      hide Distinct, PowerOfTwo;
      var b := hash % |list|;
      var p := FindPointer(list[b], key, hash);
      if p < |list[b]| {
        r := Some(list[b][p]);
        Unlinked(list, handles, b, p);
        handles := handles - {list[b][p]};
        list := list[b := list[b][..p] + list[b][p + 1..]];
        elems := elems - 1;
      } else {
        r := None;
      }
    }

    /** Every handle moves to its bucket in a larger table, the least power of two from four on that has room. */
    method Resize()
      requires Core()
      modifies this
      ensures Valid() && handles == old(handles) && |list| >= 4 && (|list| == 4 || |list| < 2 * elems)
    {
      hide Distinct, PowerOfTwo;
      var newLength := NewLength(elems);
      var newList: seq<seq<Handle>> := seq(newLength, _ => []);
      ghost var moved: set<Handle> := {};
      NoBuckets(newList);
      var i := 0;
      while i < |list|
        modifies {}
        invariant 0 <= i <= |list| && |list| > 0 && |newList| == newLength && Buckets(newList, moved)
        invariant forall h :: h in moved <==> h in handles && h.hash % |list| < i
      {
        newList, moved := MoveChain(list, handles, i, newList, moved);
        i := i + 1;
      }
      assert moved == handles;
      list := newList;
    }
  }

  method NewLength(elems: nat) returns (newLength: nat)
    ensures newLength >= 4 && newLength >= elems && PowerOfTwo(newLength)
    ensures newLength == 4 || newLength < 2 * elems
  {
    newLength := 4;
    assert Pow2(2) == 4;
    while newLength < elems
      invariant newLength >= 4 && PowerOfTwo(newLength) && (newLength == 4 || newLength < 2 * elems)
      decreases elems - newLength
    {
      DoublePower(newLength);
      newLength := newLength * 2;
    }
  }

  lemma SomeBucket(list: seq<seq<Handle>>, handles: set<Handle>)
    requires Buckets(list, handles)
    ensures |list| > 0
  {
    hide Distinct;
  }

  lemma NoBuckets(list: seq<seq<Handle>>)
    requires |list| > 0 && forall i :: 0 <= i < |list| ==> list[i] == []
    ensures Buckets(list, {})
  {
  }

  lemma DoublePower(n: nat)
    requires PowerOfTwo(n)
    ensures PowerOfTwo(n * 2)
  {
    var k: nat :| n == Pow2(k);
    assert Pow2(k + 1) == n * 2;
  }

  /** The handles of one chain go to the front of their new buckets, one after the other. */
  method MoveChain(list: seq<seq<Handle>>, ghost handles: set<Handle>, i: nat, into: seq<seq<Handle>>,
                   ghost before: set<Handle>)
      returns (newList: seq<seq<Handle>>, ghost moved: set<Handle>)
    requires Buckets(list, handles) && OnePerKey(handles) && i < |list| && Buckets(into, before)
    requires forall h :: h in before <==> h in handles && h.hash % |list| < i
    ensures |newList| == |into| && Buckets(newList, moved)
    ensures forall h :: h in moved <==> h in handles && h.hash % |list| < i + 1
  {
    hide Distinct;
    newList, moved := into, before;
    var chain := list[i];
    for j := 0 to |chain|
      invariant |newList| == |into| && Buckets(newList, moved)
      invariant forall h :: h in moved <==> h in before || h in chain[..j]
    {
      var h := chain[j];
      assert h in list[i];
      FreshInChain(list, handles, i, j);
      assert forall x :: x in moved ==> x in handles && x != h && !Same(x, h.key, h.hash) by {
        forall x | x in moved
          ensures x in handles && x != h && !Same(x, h.key, h.hash)
        {
          assert x in before || x in chain[..j];
        }
      }
      var b := h.hash % |newList|;
      Pushed(newList, moved, b, h);
      newList := newList[b := [h] + newList[b]];
      moved := moved + {h};
      assert chain[..j + 1] == chain[..j] + [h];
    }
    assert chain[..|chain|] == chain;
  }

  /** A handle differs from those before it in its chain. */
  lemma FreshInChain(list: seq<seq<Handle>>, handles: set<Handle>, i: nat, j: nat)
    requires Buckets(list, handles) && i < |list| && j < |list[i]|
    ensures forall x :: x in list[i][..j] ==>
      x in handles && x != list[i][j] && !Same(x, list[i][j].key, list[i][j].hash)
  {
    forall x | x in list[i][..j]
      ensures x in handles && x != list[i][j] && !Same(x, list[i][j].key, list[i][j].hash)
    {
      var k :| 0 <= k < j && list[i][k] == x;
      assert x in list[i];
    }
  }

  lemma Pushed(list: seq<seq<Handle>>, handles: set<Handle>, b: nat, h: Handle)
    requires Buckets(list, handles) && b == h.hash % |list|
    requires forall x :: x in handles ==> !Same(x, h.key, h.hash)
    ensures Buckets(list[b := [h] + list[b]], handles + {h})
  {
    var list' := list[b := [h] + list[b]];
    assert forall i :: 0 <= i < |list[b]| ==> list[b][i] in handles;
  }

  lemma Appended(list: seq<seq<Handle>>, handles: set<Handle>, b: nat, h: Handle)
    requires Buckets(list, handles) && b == h.hash % |list| && OnePerKey(handles)
    requires forall i :: 0 <= i < |list[b]| ==> !Same(list[b][i], h.key, h.hash)
    ensures Buckets(list[b := list[b] + [h]], handles + {h}) && OnePerKey(handles + {h})
    ensures h !in handles && |handles + {h}| == |handles| + 1
    ensures forall x :: x in handles ==> !Same(x, h.key, h.hash)
  {
    hide OnePerKey, Distinct;
    forall x | x in handles
      ensures !Same(x, h.key, h.hash)
    {
      assert x.hash == h.hash ==> x in list[b];
    }
    OneMore(handles, h);
    assert Distinct(list[b] + [h]) by { DistinctMore(list[b], h); }
    assert forall x :: x in list[b] ==> x in handles && x.hash % |list| == b;
    assert forall x :: x in handles && x.hash % |list| == b ==> x in list[b];
    hide Same;
    NewChain(list, handles, b, list[b] + [h], handles + {h});
  }

  lemma DistinctMore(chain: seq<Handle>, h: Handle)
    requires Distinct(chain) && forall i :: 0 <= i < |chain| ==> !Same(chain[i], h.key, h.hash)
    ensures Distinct(chain + [h])
  {
  }

  lemma OneMore(handles: set<Handle>, h: Handle)
    requires OnePerKey(handles) && forall x :: x in handles ==> !Same(x, h.key, h.hash)
    ensures OnePerKey(handles + {h})
  {
  }

  /** A new chain for one bucket. */
  lemma NewChain(list: seq<seq<Handle>>, handles: set<Handle>, b: nat, chain: seq<Handle>, handles': set<Handle>)
    requires Buckets(list, handles) && b < |list| && Distinct(chain) && forall x :: x in chain ==> x.hash % |list| == b
    requires forall x :: x in handles' <==> (x in handles && x.hash % |list| != b) || x in chain
    ensures Buckets(list[b := chain], handles')
  {
    hide Distinct;
  }

  lemma ChainMembers(chain: seq<Handle>, p: nat)
    requires Distinct(chain) && p < |chain|
    ensures var rest := chain[..p] + chain[p + 1..];
      Distinct(rest) && (forall x :: x in rest <==> x in chain && x != chain[p])
  {
    var rest := chain[..p] + chain[p + 1..];
    assert forall i :: 0 <= i < |rest| ==> rest[i] == chain[if i < p then i else i + 1];
    forall x | x in chain && x != chain[p]
      ensures x in rest
    {
      var i :| 0 <= i < |chain| && chain[i] == x;
      assert rest[if i < p then i else i - 1] == x;
    }
  }

  lemma ChainReplaced(chain: seq<Handle>, p: nat, h: Handle)
    requires Distinct(chain) && p < |chain| && Same(chain[p], h.key, h.hash)
    ensures Distinct(chain[p := h]) && (forall x :: x in chain[p := h] <==> (x in chain && x != chain[p]) || x == h)
  {
    var chain' := chain[p := h];
    forall x | x in chain && x != chain[p]
      ensures x in chain'
    {
      var i :| 0 <= i < |chain| && chain[i] == x;
      assert chain'[i] == x;
    }
    assert chain'[p] == h;
  }

  lemma Replaced(list: seq<seq<Handle>>, handles: set<Handle>, b: nat, p: nat, h: Handle)
    requires Buckets(list, handles) && OnePerKey(handles) && b == h.hash % |list| && p < |list[b]|
      && Same(list[b][p], h.key, h.hash)
    ensures list[b][p] in handles
    ensures var handles' := handles - {list[b][p]} + {h};
      Buckets(list[b := list[b][p := h]], handles') && OnePerKey(handles') && |handles'| == |handles|
  {
    hide Distinct;
    var chain := list[b];
    var o := chain[p];
    assert o in chain && o in handles;
    var handles' := handles - {o} + {h};
    ChainReplaced(chain, p, h);
    NewChain(list, handles, b, chain[p := h], handles');
    assert forall x :: x in handles - {o} ==> !Same(x, h.key, h.hash);
    OneMore(handles - {o}, h);
  }

  lemma Unlinked(list: seq<seq<Handle>>, handles: set<Handle>, b: nat, p: nat)
    requires Buckets(list, handles) && OnePerKey(handles) && b < |list| && p < |list[b]|
    ensures list[b][p] in handles
    ensures var handles' := handles - {list[b][p]};
      Buckets(list[b := list[b][..p] + list[b][p + 1..]], handles') && OnePerKey(handles')
        && |handles'| == |handles| - 1
  {
    hide Distinct;
    var chain := list[b];
    var o := chain[p];
    assert o in chain && o in handles;
    ChainMembers(chain, p);
    NewChain(list, handles, b, chain[..p] + chain[p + 1..], handles - {o});
  }
}
